/**
 The capture pipeline as a system of steps. Producers, the one consumer, the cleaner and the clock take
 turns in any order; what the operating system and the database answer is part of a step's label.
 */
module CapturePipeline {
  import opened Lines
  import opened Json
  import opened Calendar
  import opened CaptureEntry
  import opened CaptureStore
  import opened CaptureDisk
  import opened FilePool
  import opened CaptureWriter
  import opened Projects

  const MAX_RETRIES: nat := 3

  /** `stamp` prints the capture time of a line; `offset` is what the server's clock is ahead of UTC. */
  datatype Config = Config(channelSize: nat, batchSize: nat, poolSize: nat, codec: Codec, stamp: nat -> string,
                           offset: nat)

  ghost predicate ConfigOk(c: Config) {
    c.channelSize > 0 && c.batchSize > 0 && c.poolSize > 0 && Lawful(c.codec)
  }

  /** A record with what it came from: the position of its entry among the accepted ones, the line and its time. */
  datatype Item = Item(rec: Record, src: nat, line: Bytes, writtenAt: nat)

  /** Where the consumer stands; an attempt to insert has been going on `since` then. */
  datatype Phase =
    | Idle
    | InHand(entry: Entry, src: nat)
    | Flushing(final: bool)
    | Inserting(attempt: nat, final: bool, since: nat)
    | Stopped
    | Closed

  /**
   Where the cleaner stands with the paths of a project whose expired records it deletes: it has selected them and not
   yet deleted the records, it looks at the paths one by one, it has found a file aged, or also unused.
   */
  datatype Cleaner =
    | Resting
    | Selected(project: int, before: Instant, todo: seq<Option<RelPath>>)
    | Checking(project: int, todo: seq<Option<RelPath>>)
    | Aged(project: int, path: Option<RelPath>, todo: seq<Option<RelPath>>)
    | Unused(project: int, path: Option<RelPath>, todo: seq<Option<RelPath>>)

  /**
   `accepted` and `log` are history: every entry the channel took, and every item ever inserted.
   `submitted` counts the calls, `captureTotal` those that have counted themselves, `uncounted` those that
   have not yet. The three flags at the end record faults: a sync that failed, a count query
   that failed, a batch that was not flushed within an hour. `projects` are the retentions of all projects, `listed`
   those of the cleanup under way whose turn has not come yet.
   */
  datatype State = State(
    queue: seq<Entry>,
    closing: bool,
    submitted: nat,
    accepted: seq<Entry>,
    dropped: nat,
    captureTotal: nat,
    uncounted: nat,
    received: nat,
    phase: Phase,
    batch: seq<Item>,
    writeErrors: nat,
    storeErrors: nat,
    log: seq<Item>,
    table: seq<Row>,
    pool: Pool,
    disk: Disk,
    now: nat,
    cleaner: Cleaner,
    projects: Retentions,
    listed: seq<Listing>,
    syncFailed: bool,
    countFailed: bool,
    flushLate: bool)

  function Initial(c: Config, now: nat): State {
    State([], false, 0, [], 0, 0, 0, 0, Idle, [], 0, 0, [], [], EmptyPool(c.poolSize), Disk(map[], []), now,
          Resting, [], [], false, false, false)
  }

  datatype Label =
    | Submit(entry: Entry)
    | CountSubmitted
    | Receive
    | ReceiveClosed
    | TakeSkipped
    | TakeWritten(fault: Fault, syncs: bool)
    | Tick
    | SyncPool(failing: set<nat>)
    | Insert(ok: bool, times: seq<Instant>)
    | CloseChannel
    | CloseFiles(failing: set<nat>)
    | Advance(now: nat)
    | CreateProject(days: int)
    | UpdateProject(id: int, days: int)
    | DeleteProject(id: int)
    | CleanList
    | CleanSelect(selects: bool)
    | CleanDelete(deletes: bool)
    | CleanStat(answers: bool)
    | CleanCount(answers: bool)
    | CleanRemove(removes: bool)

  /** The cleaner is not in the middle of a project. */
  predicate BetweenProjects(cleaner: Cleaner) {
    cleaner.Resting? || (cleaner.Checking? && cleaner.todo == [])
  }

  /** Each record is stamped when its own statement is executed, in the course of the attempt. */
  predicate Stamped(times: seq<Instant>, since: nat, now: nat) {
    && (forall k :: 0 <= k < |times| ==> since <= times[k] <= now)
    && (forall j, k :: 0 <= j < k < |times| ==> times[j] <= times[k])
  }

  predicate Enabled(c: Config, s: State, l: Label) {
    match l
    case Submit(_) => !s.closing
    case CountSubmitted => s.uncounted > 0
    case Receive => s.phase.Idle? && s.queue != []
    case ReceiveClosed => s.phase.Idle? && s.queue == [] && s.closing
    case TakeSkipped => s.phase.InHand? && s.phase.entry.bodySkipped
    case TakeWritten(_, _) => s.phase.InHand? && !s.phase.entry.bodySkipped
    case Tick => s.phase.Idle?
    case SyncPool(_) => s.phase.Flushing?
    case Insert(ok, times) =>
      s.phase.Inserting? && |times| == |s.batch| && (ok ==> Stamped(times, s.phase.since, s.now))
    case CloseChannel => !s.closing
    case CloseFiles(_) => s.phase.Stopped?
    case Advance(now) => s.now <= now
    case CreateProject(_) => true
    case UpdateProject(_, _) => true
    case DeleteProject(_) => true
    case CleanList => BetweenProjects(s.cleaner) && s.listed == []
    case CleanSelect(_) => BetweenProjects(s.cleaner) && s.listed != []
    case CleanDelete(_) => s.cleaner.Selected?
    case CleanStat(_) => s.cleaner.Checking? && s.cleaner.todo != []
    case CleanCount(_) => s.cleaner.Aged?
    case CleanRemove(_) => s.cleaner.Unused?
  }

  function SkippedRecord(e: Entry): Record {
    Record(e.requestId, e.projectId, e.publicModelName, e.stream, e.statusCode, true, None, 0, 0, 0)
  }

  function WrittenRecord(e: Entry, place: Place): Record {
    Record(e.requestId, e.projectId, e.publicModelName, e.stream, e.statusCode, false,
           Some(place.path), place.offset, BodySize(e.requestBody), BodySize(e.responseBody))
  }

  /** The columns of a record are those of its entry; a skipped body has no file and no sizes. */
  predicate Describes(r: Record, e: Entry) {
    && r.requestId == e.requestId && r.projectId == e.projectId && r.publicModelName == e.publicModelName
    && r.stream == e.stream && r.statusCode == e.statusCode && r.bodySkipped == e.bodySkipped
    && (r.filePath == None <==> e.bodySkipped) && (e.bodySkipped ==> r.fileOffset == 0)
    && r.requestSize == (if e.bodySkipped || e.requestBody == None then 0 else |e.requestBody.value|)
    && r.responseSize == (if e.bodySkipped || e.responseBody == None then 0 else |e.responseBody.value|)
  }

  lemma {:induction false} RecordsDescribe(e: Entry, place: Place)
    ensures e.bodySkipped ==> Describes(SkippedRecord(e), e)
    ensures !e.bodySkipped ==> Describes(WrittenRecord(e, place), e)
    ensures WrittenRecord(e, place).filePath == Some(place.path) && WrittenRecord(e, place).fileOffset == place.offset
  {
  }

  /** The batch with one more item; a full one is flushed at once. */
  function Batched(c: Config, s: State, item: Item): (t: State)
    ensures t == s.(batch := t.batch, phase := t.phase)
  {
    s.(batch := s.batch + [item], phase := if |s.batch| + 1 >= c.batchSize then Flushing(false) else Idle)
  }

  function Records(items: seq<Item>): (records: seq<Record>)
    ensures |records| == |items|
    ensures forall k :: 0 <= k < |records| ==> records[k] == items[k].rec
  {
    if items == [] then [] else [items[0].rec] + Records(items[1..])
  }

  predicate SomeFailing(order: seq<Handle>, failing: set<nat>) {
    exists k :: 0 <= k < |order| && order[k].fd in failing
  }

  /** An item of the batch is an hour old. */
  predicate SomeLate(batch: seq<Item>, now: nat) {
    exists k :: 0 <= k < |batch| && batch[k].writtenAt + HOUR <= now
  }

  function AfterFlush(final: bool): Phase {
    if final then Stopped else Idle
  }

  /** The consumer after a write that came out as `w`. */
  function AfterWrite(c: Config, s: State, line: Bytes, w: WriteResult): (t: State)
    requires s.phase.InHand?
    ensures t == s.(pool := t.pool, disk := t.disk, syncFailed := t.syncFailed, writeErrors := t.writeErrors,
                    batch := t.batch, phase := t.phase)
  {
    var t := s.(pool := w.pool, disk := w.disk, syncFailed := s.syncFailed || w.lost);
    if w.place == None then t.(writeErrors := s.writeErrors + 1, phase := Idle)
    else Batched(c, t, Item(WrittenRecord(s.phase.entry, w.place.value), s.phase.src, line, s.now))
  }

  function TakeWrite(c: Config, s: State, fault: Fault, syncs: bool): (t: State)
    requires s.phase.InHand?
    ensures t == s.(pool := t.pool, disk := t.disk, syncFailed := t.syncFailed, writeErrors := t.writeErrors,
                    batch := t.batch, phase := t.phase)
  {
    var e := s.phase.entry;
    var line := MarshalJsonl(c.codec, e, c.stamp(s.now));
    AfterWrite(c, s, line, Write(s.pool, s.disk, BuildRelPath(e.projectId, s.now, c.offset), line, s.now, fault, syncs))
  }

  function InsertBatch(s: State, ok: bool, times: seq<Instant>): (t: State)
    requires s.phase.Inserting? && |times| == |s.batch|
    ensures t == s.(table := t.table, log := t.log, storeErrors := t.storeErrors, batch := t.batch, phase := t.phase)
    ensures s.log <= t.log
  {
    var after := AfterFlush(s.phase.final);
    if ok then
      s.(table := s.table + RowsFrom(Records(s.batch), times, |s.log| + 1), log := s.log + s.batch,
         batch := [], phase := after)
    else if s.phase.attempt + 1 < MAX_RETRIES then
      s.(phase := Inserting(s.phase.attempt + 1, s.phase.final, s.now))
    else s.(storeErrors := s.storeErrors + |s.batch|, batch := [], phase := after)
  }

  /**
   A path is worth a closer look when its file has not been written to for an hour. The empty path of
   skipped bodies leads to the base directory, of any age, which holds no capture file.
   */
  predicate IsAged(s: State, path: Option<RelPath>) {
    path == None || FileAged(s.disk, path.value, s.now)
  }

  /** The cutoff of the project whose turn it is. */
  function NextCutoff(s: State): Option<Instant>
    requires s.listed != []
  {
    Cutoff(s.now, s.listed[0].days)
  }

  /** A project has its turn, and its expired paths are selected. */
  function SelectExpired(s: State, before: Instant): State
    requires s.listed != []
  {
    var project := s.listed[0].id;
    s.(listed := s.listed[1..], cleaner := Selected(project, before, ExpiredPaths(s.table, project, before)))
  }

  /** The steps of a cleanup that look at one project's records and files. */
  predicate IsCleaning(l: Label) {
    l.CleanSelect? || l.CleanDelete? || l.CleanStat? || l.CleanCount? || l.CleanRemove?
  }

  function Clean(c: Config, s: State, l: Label): (t: State)
    requires Enabled(c, s, l) && IsCleaning(l)
    ensures t == s.(table := t.table, disk := t.disk, cleaner := t.cleaner, listed := t.listed,
                    countFailed := t.countFailed)
  {
    match l
    case CleanSelect(selects) =>
      if selects && NextCutoff(s) != None then SelectExpired(s, NextCutoff(s).value) else s.(listed := s.listed[1..])
    case CleanDelete(deletes) =>
      if deletes then
        s.(table := Kept(s.table, s.cleaner.project, s.cleaner.before),
           cleaner := Checking(s.cleaner.project, s.cleaner.todo))
      else s.(cleaner := Checking(s.cleaner.project, []))
    case CleanStat(answers) =>
      var path, rest := s.cleaner.todo[0], s.cleaner.todo[1..];
      s.(cleaner := if answers && IsAged(s, path) then Aged(s.cleaner.project, path, rest)
                    else Checking(s.cleaner.project, rest))
    case CleanCount(answers) =>
      var none := !answers || CountByProject(s.table, s.cleaner.project) == 0;
      s.(cleaner := if none then Unused(s.cleaner.project, s.cleaner.path, s.cleaner.todo)
                    else Checking(s.cleaner.project, s.cleaner.todo),
         countFailed := s.countFailed || !answers)
    case CleanRemove(removes) =>
      s.(disk := if !removes || s.cleaner.path == None then s.disk else Remove(s.disk, s.cleaner.path.value),
         cleaner := Checking(s.cleaner.project, s.cleaner.todo))
  }

  /** The steps that change the projects, or make a list of them. */
  predicate ChangesProjects(l: Label) {
    l.CreateProject? || l.UpdateProject? || l.DeleteProject? || l.CleanList?
  }

  function ChangeProjects(c: Config, s: State, l: Label): (t: State)
    requires Enabled(c, s, l) && ChangesProjects(l)
    ensures t == s.(projects := t.projects, listed := t.listed)
  {
    match l
    case CreateProject(days) => s.(projects := s.projects + [Some(CreatedDays(days))])
    case UpdateProject(id, days) => s.(projects := Updated(s.projects, id, days))
    case DeleteProject(id) => s.(projects := Deleted(s.projects, id))
    case CleanList => s.(listed := Listed(s.projects))
  }

  function Apply(c: Config, s: State, l: Label): State
    requires Enabled(c, s, l)
  {
    match l
    case Submit(e) =>
      var t := s.(submitted := s.submitted + 1);
      if |s.queue| < c.channelSize then
        t.(queue := s.queue + [e], accepted := s.accepted + [e], uncounted := s.uncounted + 1)
      else t.(dropped := s.dropped + 1)
    case CountSubmitted => s.(uncounted := s.uncounted - 1, captureTotal := s.captureTotal + 1)
    case Receive => s.(queue := s.queue[1..], received := s.received + 1, phase := InHand(s.queue[0], s.received))
    case ReceiveClosed => s.(phase := if s.batch == [] then Stopped else Flushing(true))
    case TakeSkipped => Batched(c, s, Item(SkippedRecord(s.phase.entry), s.phase.src, [], s.now))
    case TakeWritten(fault, syncs) => TakeWrite(c, s, fault, syncs)
    case Tick => if s.batch == [] then s else s.(phase := Flushing(false))
    case SyncPool(failing) =>
      s.(disk := SyncHandles(s.disk, s.pool.order, failing), phase := Inserting(0, s.phase.final, s.now),
         syncFailed := s.syncFailed || SomeFailing(s.pool.order, failing))
    case Insert(ok, times) => InsertBatch(s, ok, times)
    case CloseChannel => s.(closing := true)
    case CloseFiles(failing) =>
      s.(disk := SyncHandles(s.disk, s.pool.order, failing), pool := PoolCloseAll(s.pool), phase := Closed,
         syncFailed := s.syncFailed || SomeFailing(s.pool.order, failing))
    case Advance(now) => s.(now := now, flushLate := s.flushLate || SomeLate(s.batch, now))
    case CreateProject(_) => ChangeProjects(c, s, l)
    case UpdateProject(_, _) => ChangeProjects(c, s, l)
    case DeleteProject(_) => ChangeProjects(c, s, l)
    case CleanList => ChangeProjects(c, s, l)
    case CleanSelect(_) => Clean(c, s, l)
    case CleanDelete(_) => Clean(c, s, l)
    case CleanStat(_) => Clean(c, s, l)
    case CleanCount(_) => Clean(c, s, l)
    case CleanRemove(_) => Clean(c, s, l)
  }

  /** The step `l` leads from `s` to `t`. */
  predicate IsStep(c: Config, s: State, l: Label, t: State) {
    Enabled(c, s, l) && t == Apply(c, s, l)
  }

  predicate IsWrite(c: Config, s: State, fault: Fault, syncs: bool, t: State) {
    s.phase.InHand? && !s.phase.entry.bodySkipped && t == TakeWrite(c, s, fault, syncs)
  }

  predicate IsInsert(s: State, ok: bool, times: seq<Instant>, t: State) {
    s.phase.Inserting? && |times| == |s.batch| && t == InsertBatch(s, ok, times)
  }

  /** Each part of the system changes in few of the steps. */
  lemma {:induction false} StepLeaves(c: Config, s: State, l: Label, t: State)
    requires IsStep(c, s, l, t)
    ensures s.now <= t.now && s.accepted <= t.accepted && s.log <= t.log
    ensures !l.Insert? ==> t.log == s.log && (l.CleanDelete? || t.table == s.table)
    ensures !IsCleaning(l) ==> t.cleaner == s.cleaner && (l.CleanList? || t.listed == s.listed)
    ensures !ChangesProjects(l) ==> t.projects == s.projects
  {
    if ChangesProjects(l) {
      assert t == ChangeProjects(c, s, l);
    } else if IsCleaning(l) {
      CleaningLeaves(c, s, l, t);
    } else if l.TakeWritten? {
      assert t == TakeWrite(c, s, l.fault, l.syncs);
    } else if l.Insert? {
      assert t == InsertBatch(s, l.ok, l.times);
    } else {
      OtherLeaves(c, s, l, t);
    }
  }

  lemma {:induction false} CleaningLeaves(c: Config, s: State, l: Label, t: State)
    requires IsStep(c, s, l, t) && IsCleaning(l)
    ensures t == Clean(c, s, l) && (l.CleanDelete? || t.table == s.table)
    ensures l.CleanSelect? || !t.cleaner.Selected?
  {
  }

  lemma {:induction false} OtherLeaves(c: Config, s: State, l: Label, t: State)
    requires IsStep(c, s, l, t) && !IsCleaning(l) && !ChangesProjects(l) && !l.TakeWritten? && !l.Insert?
    ensures s.now <= t.now && s.accepted <= t.accepted && t.log == s.log && t.table == s.table
    ensures t.cleaner == s.cleaner && t.listed == s.listed && t.projects == s.projects
  {
  }

  /** `t` is reached from `s` by the steps of `run`. */
  predicate Steps(c: Config, s: State, run: seq<Label>, t: State)
    decreases |run|
  {
    if run == [] then s == t
    else Enabled(c, s, run[0]) && Steps(c, Apply(c, s, run[0]), run[1..], t)
  }

  lemma {:induction false} StepsJoin(c: Config, s: State, a: seq<Label>, t: State, b: seq<Label>, u: State)
    requires Steps(c, s, a, t) && Steps(c, t, b, u)
    ensures Steps(c, s, a + b, u)
    decreases |a|
  {
    if a == [] {
      assert a + b == b;
    } else {
      StepsJoin(c, Apply(c, s, a[0]), a[1..], t, b, u);
      assert (a + b)[1..] == a[1..] + b;
    }
  }
}
