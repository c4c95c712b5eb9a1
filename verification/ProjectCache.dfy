/** The projects of the proxy: the cache in front of their table, and the gate in front of the capture. */
module ProjectCache {
  import opened Json
  import opened CaptureEntry

  datatype Project = Project(id: int, captureEnabled: bool, sampleRate: real, retentionDays: int)

  datatype CacheEntry = CacheEntry(project: Project, expiresAt: int)

  type Items = map<int, CacheEntry>

  /** An entry is served up to and including the moment it expires. */
  function Lookup(items: Items, id: int, now: int): Option<Project> {
    if id !in items || now > items[id].expiresAt then None else Some(items[id].project)
  }

  // The gate

  /**
   `draw` is the random number, from 0 up to but not including 1: an enabled project captures the draws below
   its rate.
   */
  predicate ShouldCapture(p: Project, draw: real)
    ensures 0.0 <= draw < 1.0 ==> (ShouldCapture(p, draw) <==> p.captureEnabled && draw < p.sampleRate)
  {
    p.captureEnabled && (p.sampleRate >= 1.0 || (p.sampleRate > 0.0 && draw < p.sampleRate))
  }

  function WithoutBodies(e: Entry): Entry {
    e.(requestBody := None, responseBody := None, bodySkipped := true)
  }

  // The cache among concurrent requests and updates

  /** A value of a project's row; `None` once it is deleted. The latest version is the last one. */
  datatype Version = Version(at: int, value: Option<Project>)

  /** A fetch that has read the table and not yet set the cache. */
  datatype Fetch = Fetch(id: int, version: nat, readAt: int)

  /** Where a cache entry came from. */
  datatype Origin = Origin(version: nat, readAt: int, setAt: int)

  /** `slow` records that some fetch took longer than the bound between its read and its set. */
  datatype State = State(
    now: int,
    rows: map<int, seq<Version>>,
    items: Items,
    origins: map<int, Origin>,
    fetches: seq<Fetch>,
    slow: bool)

  datatype Config = Config(ttl: nat, fetchBound: nat)

  datatype Label =
    | Advance(now: int)
    | Update(id: int, value: Option<Project>)
    | Invalidate(id: int)
    | Get(id: int)
    | Read(id: int)
    | Finish(k: nat)

  function Latest(s: State, id: int): nat
    requires id in s.rows && s.rows[id] != []
  {
    |s.rows[id]| - 1
  }

  predicate HasRow(s: State, id: int) {
    id in s.rows && s.rows[id] != [] && s.rows[id][|s.rows[id]| - 1].value != None
  }

  predicate Enabled(s: State, l: Label) {
    match l
    case Advance(now) => s.now <= now
    case Update(_, _) => true
    case Invalidate(_) => true
    case Get(_) => true
    case Read(id) => HasRow(s, id)
    case Finish(k) => k < |s.fetches| && ReadValue(s, s.fetches[k]) != None
  }

  /** The project a fetch has read. */
  function ReadValue(s: State, f: Fetch): Option<Project> {
    if f.id in s.rows && f.version < |s.rows[f.id]| then s.rows[f.id][f.version].value else None
  }

  function Apply(c: Config, s: State, l: Label): State
    requires Enabled(s, l)
  {
    match l
    case Advance(now) => s.(now := now)
    case Update(id, value) =>
      s.(rows := s.rows[id := (if id in s.rows then s.rows[id] else []) + [Version(s.now, value)]])
    case Invalidate(id) => s.(items := s.items - {id}, origins := s.origins - {id})
    case Get(_) => s
    case Read(id) => s.(fetches := s.fetches + [Fetch(id, Latest(s, id), s.now)])
    case Finish(k) =>
      var f := s.fetches[k];
      s.(items := s.items[f.id := CacheEntry(ReadValue(s, f).value, s.now + c.ttl)],
         origins := s.origins[f.id := Origin(f.version, f.readAt, s.now)],
         fetches := s.fetches[..k] + s.fetches[k + 1..],
         slow := s.slow || f.readAt + c.fetchBound < s.now)
  }

  /** What a step gives to its caller: a cached project, or a fetched one; with the version it is. */
  datatype Served = Nothing | Served(id: int, project: Project, version: nat)

  function Serves(s: State, l: Label): Served
    requires Enabled(s, l)
  {
    match l
    case Get(id) =>
      if Lookup(s.items, id, s.now) == None || id !in s.origins then Nothing
      else Served(id, Lookup(s.items, id, s.now).value, s.origins[id].version)
    case Finish(k) => Served(s.fetches[k].id, ReadValue(s, s.fetches[k]).value, s.fetches[k].version)
    case _ => Nothing
  }

  predicate Steps(c: Config, s: State, run: seq<Label>, t: State)
    decreases |run|
  {
    if run == [] then s == t
    else Enabled(s, run[0]) && Steps(c, Apply(c, s, run[0]), run[1..], t)
  }

  /** Version `v` of a row was the current one at `at`. */
  predicate CurrentAt(versions: seq<Version>, v: nat, at: int) {
    v < |versions| && versions[v].at <= at && (v + 1 < |versions| ==> at <= versions[v + 1].at)
  }

  predicate RowsOk(s: State) {
    forall id :: id in s.rows ==> s.rows[id] != [] && VersionsOk(s.rows[id], s.now)
  }

  predicate VersionsOk(versions: seq<Version>, now: int) {
    forall v :: 0 <= v < |versions| ==> versions[v].at <= now
  }

  predicate FetchesOk(s: State) {
    forall k :: 0 <= k < |s.fetches| ==> FetchOk(s, s.fetches[k])
  }

  predicate FetchOk(s: State, f: Fetch) {
    && f.id in s.rows && f.readAt <= s.now
    && CurrentAt(s.rows[f.id], f.version, f.readAt) && s.rows[f.id][f.version].value != None
  }

  predicate ItemsOk(c: Config, s: State) {
    s.items.Keys == s.origins.Keys
    && forall id :: id in s.items ==> ItemOk(c, s, id)
  }

  predicate ItemOk(c: Config, s: State, id: int)
    requires id in s.items && s.items.Keys == s.origins.Keys
  {
    var o := s.origins[id];
    && id in s.rows && o.readAt <= o.setAt <= s.now
    && CurrentAt(s.rows[id], o.version, o.readAt)
    && s.rows[id][o.version].value == Some(s.items[id].project)
    && s.items[id].expiresAt == o.setAt + c.ttl
    && (!s.slow ==> o.setAt <= o.readAt + c.fetchBound)
  }

  predicate CacheInv(c: Config, s: State) {
    RowsOk(s) && FetchesOk(s) && ItemsOk(c, s)
  }

  lemma {:induction false} UpdateStep(c: Config, s: State, id: int, value: Option<Project>, t: State)
    requires CacheInv(c, s) && t == Apply(c, s, Update(id, value))
    ensures CacheInv(c, t)
  {
    forall k | 0 <= k < |t.fetches|
      ensures FetchOk(t, t.fetches[k])
    {
      assert FetchOk(s, s.fetches[k]);
    }
    forall i | i in t.items
      ensures ItemOk(c, t, i)
    {
      assert ItemOk(c, s, i);
    }
  }

  lemma {:induction false} FinishStep(c: Config, s: State, k: nat, t: State)
    requires CacheInv(c, s) && Enabled(s, Finish(k)) && t == Apply(c, s, Finish(k))
    ensures CacheInv(c, t)
  {
    var f := s.fetches[k];
    assert FetchOk(s, f);
    forall j | 0 <= j < |t.fetches|
      ensures FetchOk(t, t.fetches[j])
    {
      assert t.fetches[j] == s.fetches[if j < k then j else j + 1];
    }
    forall i | i in t.items
      ensures ItemOk(c, t, i)
    {
      if i != f.id {
        assert ItemOk(c, s, i);
      }
    }
  }

  lemma {:induction false} CacheStep(c: Config, s: State, l: Label, t: State)
    requires CacheInv(c, s) && Enabled(s, l) && t == Apply(c, s, l)
    ensures CacheInv(c, t)
  {
    match l
    case Update(id, value) => UpdateStep(c, s, id, value, t);
    case Finish(k) => FinishStep(c, s, k, t);
    case Advance(_) =>
      forall i | i in t.items ensures ItemOk(c, t, i) { assert ItemOk(c, s, i); }
      forall k | 0 <= k < |t.fetches| ensures FetchOk(t, t.fetches[k]) { assert FetchOk(s, s.fetches[k]); }
    case Read(id) =>
      forall i | i in t.items ensures ItemOk(c, t, i) { assert ItemOk(c, s, i); }
      forall k | 0 <= k < |t.fetches| ensures FetchOk(t, t.fetches[k])
      {
        if k < |s.fetches| {
          assert FetchOk(s, s.fetches[k]);
        }
      }
    case Invalidate(_) =>
      forall i | i in t.items ensures ItemOk(c, t, i) { assert ItemOk(c, s, i); }
    case Get(_) =>
  }

  lemma {:induction false} CacheAlways(c: Config, s: State, run: seq<Label>, t: State)
    requires CacheInv(c, s) && Steps(c, s, run, t)
    ensures CacheInv(c, t)
    decreases |run|
  {
    if run != [] {
      CacheStep(c, s, run[0], Apply(c, s, run[0]));
      CacheAlways(c, Apply(c, s, run[0]), run[1..], t);
    }
  }

  function Empty(now: int): State {
    State(now, map[], map[], map[], [], false)
  }

  /**
   How stale a served project can be: it is a value its row had, and had not ceased to have before `ttl` and the
   longest fetch ago. In every interleaving of requests, updates and invalidations.
   */
  lemma {:induction false} StalenessBound(c: Config, start: int, run: seq<Label>, t: State, l: Label)
    requires Steps(c, Empty(start), run, t) && Enabled(t, l) && Serves(t, l).Served?
    requires !Apply(c, t, l).slow
    ensures var r := Serves(t, l);
            r.id in t.rows && r.version < |t.rows[r.id]| && t.rows[r.id][r.version].value == Some(r.project)
            && t.rows[r.id][r.version].at <= t.now
            && (r.version + 1 < |t.rows[r.id]| ==> t.now - c.ttl - c.fetchBound <= t.rows[r.id][r.version + 1].at)
  {
    CacheAlways(c, Empty(start), run, t);
    match l
    case Get(id) => assert ItemOk(c, t, id);
    case Finish(k) => assert FetchOk(t, t.fetches[k]);
  }

  /** Some fetch of the run is over only when more than the bound has passed since it read its row. */
  predicate LongFetchOn(c: Config, s: State, run: seq<Label>)
    decreases |run|
  {
    run != [] && Enabled(s, run[0])
    && ((run[0].Finish? && s.now - s.fetches[run[0].k].readAt > c.fetchBound)
        || LongFetchOn(c, Apply(c, s, run[0]), run[1..]))
  }

  /** `slow` bars nothing but runs with such a fetch. */
  lemma {:induction false} SlowIffLongFetch(c: Config, s: State, run: seq<Label>, t: State)
    requires Steps(c, s, run, t)
    ensures t.slow <==> s.slow || LongFetchOn(c, s, run)
    decreases |run|
  {
    if run != [] {
      SlowIffLongFetch(c, Apply(c, s, run[0]), run[1..], t);
    }
  }

  // Updates followed by an invalidation

  /** Nothing older than version `n` of a project can come up any more. */
  predicate NoneOlder(s: State, id: int, n: nat) {
    && id in s.rows && n < |s.rows[id]|
    && (id in s.origins ==> s.origins[id].version >= n)
    && (forall k :: 0 <= k < |s.fetches| && s.fetches[k].id == id ==> s.fetches[k].version >= n)
  }

  lemma {:induction false} NoneOlderStep(c: Config, s: State, l: Label, id: int, n: nat)
    requires NoneOlder(s, id, n) && Enabled(s, l)
    ensures NoneOlder(Apply(c, s, l), id, n)
    ensures Serves(s, l).Served? && Serves(s, l).id == id ==> Serves(s, l).version >= n
  {
    var t := Apply(c, s, l);
    if l.Finish? {
      forall j | 0 <= j < |t.fetches| && t.fetches[j].id == id
        ensures t.fetches[j].version >= n
      {
        assert t.fetches[j] == s.fetches[if j < l.k then j else j + 1];
      }
    }
  }

  lemma {:induction false} NoneOlderAlways(c: Config, s: State, run: seq<Label>, t: State, id: int, n: nat)
    requires NoneOlder(s, id, n) && Steps(c, s, run, t)
    ensures NoneOlder(t, id, n)
    decreases |run|
  {
    if run != [] {
      NoneOlderStep(c, s, run[0], id, n);
      NoneOlderAlways(c, Apply(c, s, run[0]), run[1..], t, id, n);
    }
  }

  /** From `s` on no caller is served a version of the project older than `n`. */
  ghost predicate NeverOlder(c: Config, s: State, id: int, n: nat) {
    forall run, t, l :: Steps(c, s, run, t) && Enabled(t, l) && Serves(t, l).Served? && Serves(t, l).id == id
      ==> Serves(t, l).version >= n
  }

  predicate NoOldFetch(s: State, id: int, n: nat) {
    forall k :: 0 <= k < |s.fetches| && s.fetches[k].id == id ==> s.fetches[k].version >= n
  }

  /**
   After an invalidation nobody is served an outdated project again exactly when no fetch that read before the
   update is still under way: the invalidation alone does not stop such a fetch from putting the old value back.
   */
  lemma {:induction false} InvalidationHoldsIffNoOldFetch(c: Config, s: State, id: int)
    requires CacheInv(c, s) && id in s.rows
    ensures NeverOlder(c, Apply(c, s, Invalidate(id)), id, Latest(s, id)) <==> NoOldFetch(s, id, Latest(s, id))
  {
    var t, n := Apply(c, s, Invalidate(id)), Latest(s, id);
    CacheStep(c, s, Invalidate(id), t);
    if NoOldFetch(s, id, n) {
      forall run, u, l | Steps(c, t, run, u) && Enabled(u, l) && Serves(u, l).Served? && Serves(u, l).id == id
        ensures Serves(u, l).version >= n
      {
        NoneOlderAlways(c, t, run, u, id, n);
        NoneOlderStep(c, u, l, id, n);
      }
    } else {
      var k: nat :| k < |s.fetches| && s.fetches[k].id == id && s.fetches[k].version < n;
      assert FetchOk(t, t.fetches[k]);
      assert Steps(c, t, [], t) && Enabled(t, Finish(k)) && Serves(t, Finish(k)).version < n;
    }
  }

  /** The run of the steps of `a` and then of `b`. */
  lemma {:induction false} StepsJoin(c: Config, s: State, a: seq<Label>, t: State, b: seq<Label>, u: State)
    requires Steps(c, s, a, t) && Steps(c, t, b, u)
    ensures Steps(c, s, a + b, u)
    decreases |a|
  {
    if a == [] {
      assert a + b == b;
    } else {
      StepsJoin(c, Apply(c, s, a[0]), a[1..], t, b, u);
      assert (a + b)[1..] == a[1..] + b;
    }
  }

  /**
   The old value comes back, and stays for the lifetime of its entry: a fetch reads the row, then the row is updated and
   the cache invalidated, and then the fetch sets the cache.
   */
  lemma {:induction false} OldValueComesBack(c: Config, old0: Project, new1: Project)
    returns (run: seq<Label>, t: State)
    ensures run == [Update(1, Some(old0)), Read(1), Update(1, Some(new1)), Invalidate(1), Finish(0)]
    ensures Steps(c, Empty(0), run, t) && Serves(t, Label.Get(1)) == Served(1, old0, 0)
    ensures 1 in t.rows && |t.rows[1]| == 2 && t.rows[1][1].value == Some(new1)
  {
    var labels := [Update(1, Some(old0)), Read(1), Update(1, Some(new1)), Invalidate(1), Finish(0)];
    run := labels;
    var s0 := Empty(0);
    forall k | 0 <= k < 5
      ensures labels[..k] + [labels[k]] == labels[..k + 1]
    {
    }
    var s1 := TakeStep(c, s0, labels[..0], s0, labels[0]);
    var s2 := TakeStep(c, s0, labels[..1], s1, labels[1]);
    var s3 := TakeStep(c, s0, labels[..2], s2, labels[2]);
    var s4 := TakeStep(c, s0, labels[..3], s3, labels[3]);
    assert s4.fetches == [Fetch(1, 0, 0)] && ReadValue(s4, s4.fetches[0]) == Some(old0);
    t := TakeStep(c, s0, labels[..4], s4, labels[4]);
    assert labels[..5] == labels;
  }

  lemma {:induction false} TakeStep(c: Config, start: State, run: seq<Label>, s: State, l: Label)
    returns (t: State)
    requires Steps(c, start, run, s) && Enabled(s, l)
    ensures t == Apply(c, s, l) && Steps(c, start, run + [l], t)
  {
    t := Apply(c, s, l);
    assert Steps(c, s, [l], t);
    StepsJoin(c, start, run, s, [l], t);
  }

  // The cache as an object

  /** What the projects' table holds; a fetch may fail, but it finds nothing else. */
  function TableValue(s: State, id: int): Option<Project> {
    if HasRow(s, id) then s.rows[id][Latest(s, id)].value else None
  }

  /** The project is a value its row had, and had not ceased to have before the lifetime and the longest fetch ago. */
  ghost predicate Recent(c: Config, s: State, id: int, p: Project) {
    exists v: nat :: id in s.rows && v < |s.rows[id]| && s.rows[id][v].value == Some(p) && s.rows[id][v].at <= s.now
      && (v + 1 < |s.rows[id]| ==> s.now - c.ttl - c.fetchBound <= s.rows[id][v + 1].at)
  }

  /** Entries of all projects but one are found as before. */
  ghost predicate OthersAsBefore(before: Items, after: Items, id: int) {
    forall i, t :: i != id ==> Lookup(after, i, t) == Lookup(before, i, t)
  }

  class Cache {
    const ttl: nat
    ghost const config: Config
    ghost const startedAt: int
    var items: Items
    ghost var model: State
    ghost var trace: seq<Label>

    /** The steps so far, those on the projects' table among them, have led to `model`, whose entries are these. */
    ghost predicate Valid()
      reads this
    {
      config.ttl == ttl && Steps(config, Empty(startedAt), trace, model) && items == model.items
    }

    constructor (ttl: nat, ghost fetchBound: nat, ghost startedAt: int)
      ensures Valid() && this.ttl == ttl && items == map[] && config == Config(ttl, fetchBound)
      ensures model == Empty(startedAt)
    {
      this.ttl, this.config, this.startedAt := ttl, Config(ttl, fetchBound), startedAt;
      items, model, trace := map[], Empty(startedAt), [];
    }

    /** Takes one step of the step system. */
    ghost method Step(l: Label)
      requires Steps(config, Empty(startedAt), trace, model) && Enabled(model, l)
      modifies this`model, this`trace
      ensures model == Apply(config, old(model), l) && trace == old(trace) + [l]
      ensures Steps(config, Empty(startedAt), trace, model)
    {
      var next := Apply(config, model, l);
      assert Steps(config, model, [l], next);
      StepsJoin(config, Empty(startedAt), trace, model, [l], next);
      model, trace := next, trace + [l];
    }

    /**
     A project is found exactly while its entry has not expired; it is a recent value of its row, if no fetch was
     slow.
     */
    method Get(id: int, now: int) returns (project: Option<Project>)
      requires Valid() && model.now <= now
      modifies this`model, this`trace
      ensures Valid() && trace == old(trace) + [Advance(now)] + [Label.Get(id)] && model == old(model).(now := now)
      ensures project == None <==> id !in items || items[id].expiresAt < now
      ensures project != None && !model.slow ==> Recent(config, model, id, project.value)
      ensures project != None ==> project.value == items[id].project
    {
      Step(Advance(now));
      GetIsRecent(config, startedAt, trace, model, id);
      Step(Label.Get(id));
      if id !in items || now > items[id].expiresAt {
        return None;
      }
      return Some(items[id].project);
    }

    /** A fetch reads the projects' table. */
    ghost method BeginFetch(id: int, now: int)
      requires Valid() && model.now <= now && HasRow(model, id)
      modifies this`model, this`trace
      ensures Valid() && trace == old(trace) + [Advance(now)] + [Read(id)]
      ensures model == old(model).(now := now, fetches := old(model).fetches + [Fetch(id, Latest(old(model), id), now)])
    {
      Step(Advance(now));
      Step(Read(id));
    }

    /** The end of a fetch: for its lifetime the project it read is found, and nothing else changes. */
    method Set(id: int, project: Project, now: int, ghost k: nat)
      requires Valid() && model.now <= now && k < |model.fetches|
      requires model.fetches[k].id == id && ReadValue(model, model.fetches[k]) == Some(project)
      modifies this`items, this`model, this`trace
      ensures Valid() && trace == old(trace) + [Advance(now)] + [Finish(k)]
      ensures model.rows == old(model).rows && model.now == now
      ensures forall t :: Lookup(items, id, t) == if t <= now + ttl then Some(project) else None
      ensures OthersAsBefore(old(items), items, id)
    {
      Step(Advance(now));
      Step(Finish(k));
      items := items[id := CacheEntry(project, now + ttl)];
    }

    /**
     The project is not found any more, and no other is touched. When no fetch is under way that read an outdated value,
     nobody is served one again.
     */
    method Invalidate(id: int)
      requires Valid()
      modifies this`items, this`model, this`trace
      ensures Valid() && trace == old(trace) + [Label.Invalidate(id)]
      ensures forall t :: Lookup(items, id, t) == None
      ensures OthersAsBefore(old(items), items, id)
      ensures id in model.rows && model.rows[id] != [] ==>
        (NeverOlder(config, model, id, Latest(model, id)) <==> NoOldFetch(model, id, Latest(model, id)))
    {
      CacheAlways(config, Empty(startedAt), trace, model);
      if id in model.rows {
        InvalidationHoldsIffNoOldFetch(config, model, id);
      }
      Step(Label.Invalidate(id));
      items := items - {id};
    }

    /** The cached project, or the one fetched from the table, which is then cached. */
    method GetProjectCached(id: int, now: int, fetched: Option<Project>, readAt: int, setAt: int)
      returns (project: Option<Project>)
      requires Valid() && model.now <= now <= readAt <= setAt
      requires fetched != None ==> fetched == TableValue(model, id)
      modifies this
      ensures Valid()
      ensures project == if Lookup(old(items), id, now) != None then Lookup(old(items), id, now) else fetched
      ensures Lookup(old(items), id, now) != None && !old(model).slow ==>
        Recent(config, old(model).(now := now), id, project.value)
      ensures Lookup(old(items), id, now) != None || fetched == None ==> items == old(items)
      ensures Lookup(old(items), id, now) == None && fetched != None ==>
        OthersAsBefore(old(items), items, id)
        && forall t :: Lookup(items, id, t) == if t <= setAt + ttl then fetched else None
    {
      project := Get(id, now);
      if project != None {
        return;
      }
      project := fetched;
      if project != None {
        BeginFetch(id, readAt);
        Set(id, project.value, setAt, |model.fetches| - 1);
      }
    }
  }

  lemma {:induction false} GetIsRecent(c: Config, start: int, run: seq<Label>, s: State, id: int)
    requires Steps(c, Empty(start), run, s)
    ensures Lookup(s.items, id, s.now) != None && !s.slow ==> Recent(c, s, id, Lookup(s.items, id, s.now).value)
  {
    CacheAlways(c, Empty(start), run, s);
    if Lookup(s.items, id, s.now) != None && !s.slow {
      StalenessBound(c, start, run, s, Label.Get(id));
    }
  }

  /** What is submitted for an entry, if anything: bodies over the limit are left out, both of them. */
  method MaybeCapture(cache: Cache, enabled: bool, maxBodySize: int, entry: Entry, now: int, fetched: Option<Project>,
                      readAt: int, setAt: int, draw: real)
    returns (submitted: Option<Entry>)
    requires cache.Valid() && cache.model.now <= now <= readAt <= setAt
    requires fetched != None ==> fetched == TableValue(cache.model, entry.projectId)
    modifies cache
    ensures cache.Valid()
    ensures !enabled || entry.projectId == 0 ==> submitted == None && cache.items == old(cache.items)
    ensures enabled && entry.projectId != 0 ==>
      var cached := Lookup(old(cache.items), entry.projectId, now);
      var p := if cached != None then cached else fetched;
      submitted != None <==> p != None && ShouldCapture(p.value, draw)
    ensures enabled && entry.projectId != 0 && Lookup(old(cache.items), entry.projectId, now) == None
            && fetched != None ==>
      OthersAsBefore(old(cache.items), cache.items, entry.projectId)
      && forall t :: Lookup(cache.items, entry.projectId, t) == if t <= setAt + cache.ttl then fetched else None
    ensures Lookup(old(cache.items), entry.projectId, now) != None || fetched == None ==>
      cache.items == old(cache.items)
    ensures submitted != None
            && (maxBodySize <= 0
                || (BodySize(entry.requestBody) <= maxBodySize && BodySize(entry.responseBody) <= maxBodySize)) ==>
      submitted.value == entry
    ensures submitted != None && maxBodySize > 0
            && (BodySize(entry.requestBody) > maxBodySize || BodySize(entry.responseBody) > maxBodySize) ==>
      submitted.value == entry.(requestBody := None, responseBody := None, bodySkipped := true)
  {
    if !enabled || entry.projectId == 0 {
      return None;
    }
    var project := cache.GetProjectCached(entry.projectId, now, fetched, readAt, setAt);
    if project == None || !ShouldCapture(project.value, draw) {
      return None;
    }
    var e := entry;
    if maxBodySize > 0 && (BodySize(e.requestBody) > maxBodySize || BodySize(e.responseBody) > maxBodySize) {
      e := WithoutBodies(e);
    }
    return Some(e);
  }
}
