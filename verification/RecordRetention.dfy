/** Which records leave the index, and at what age. */
module RecordRetention {
  import opened Json
  import opened Calendar
  import opened CaptureStore
  import opened Projects
  import opened CapturePipeline
  import opened PipelineGuarantees

  /** The step deletes the record, which has expired. */
  predicate Deletes(s: State, l: Label, r: Row) {
    l.CleanDelete? && l.deletes && s.cleaner.Selected? && Expired(r, s.cleaner.project, s.cleaner.before)
  }

  /** Some step of the run deletes the record. */
  predicate DeletedOn(c: Config, s: State, run: seq<Label>, r: Row)
    decreases |run|
  {
    run != [] && Enabled(c, s, run[0])
    && (Deletes(s, run[0], r) || DeletedOn(c, Apply(c, s, run[0]), run[1..], r))
  }

  lemma {:induction false} RecordStep(c: Config, s: State, l: Label, t: State, r: Row)
    requires IsStep(c, s, l, t) && r.id <= |s.log|
    ensures r in t.table <==> r in s.table && !Deletes(s, l, r)
    ensures |s.log| <= |t.log| && s.now <= t.now
  {
    StepLeaves(c, s, l, t);
    if l.CleanDelete? && l.deletes {
      KeptMembers(s.table, s.cleaner.project, s.cleaner.before);
    } else if l.Insert? {
      RecordInsert(s, l.ok, l.times, t, r);
    }
  }

  /** New records have new identifiers. */
  lemma {:induction false} RecordInsert(s: State, ok: bool, times: seq<Instant>, t: State, r: Row)
    requires IsInsert(s, ok, times, t) && r.id <= |s.log|
    ensures r in t.table <==> r in s.table
    ensures |s.log| <= |t.log| && s.now == t.now
  {
    if ok {
      var rows := RowsFrom(Records(s.batch), times, |s.log| + 1);
      assert forall k :: 0 <= k < |rows| ==> rows[k].id == |s.log| + 1 + k;
      assert t.table == s.table + rows && r !in rows;
    }
  }

  /** A stored record stays in the index until a deletion for which it has expired, and then for ever out of it. */
  lemma {:induction false} StaysUntilDeleted(c: Config, s: State, run: seq<Label>, t: State, r: Row)
    requires Steps(c, s, run, t) && r.id <= |s.log|
    ensures r in t.table <==> r in s.table && !DeletedOn(c, s, run, r)
    decreases |run|
  {
    if run != [] {
      var u := Apply(c, s, run[0]);
      RecordStep(c, s, run[0], u, r);
      StaysUntilDeleted(c, u, run[1..], t, r);
    }
  }

  // The age at which they go

  /** A retention that keeps records for at least `n` days: so many days, or none at all, which keeps them for ever. */
  predicate AtLeast(days: int, n: nat) {
    days <= 0 || n <= days <= MAX_DAYS
  }

  predicate KeepsNow(s: State, project: int, n: nat) {
    Live(s.projects, project) ==> AtLeast(s.projects[project - 1].value, n)
  }

  /** In all states of the run the project's retention is at least `n` days. */
  predicate KeepsAlways(c: Config, s: State, run: seq<Label>, project: int, n: nat)
    decreases |run|
  {
    KeepsNow(s, project, n)
    && (run != [] && Enabled(c, s, run[0]) ==> KeepsAlways(c, Apply(c, s, run[0]), run[1..], project, n))
  }

  /** So it was when the cleaner listed the project, or worked out its cutoff. */
  predicate KeptInHand(s: State, project: int, n: nat) {
    && (forall l :: l in s.listed && l.id == project ==> n <= l.days <= MAX_DAYS)
    && (s.cleaner.Selected? && s.cleaner.project == project ==> s.cleaner.before + n * DAY <= s.now)
  }

  lemma {:induction false} ListKeeps(s: State, project: int, n: nat)
    requires KeepsNow(s, project, n)
    ensures forall l :: l in Listed(s.projects) && l.id == project ==> n <= l.days <= MAX_DAYS
  {
    ListedMembers(s.projects);
  }

  lemma {:induction false} CutoffKeeps(s: State, n: nat)
    requires s.listed != [] && n <= s.listed[0].days <= MAX_DAYS && NextCutoff(s) != None
    ensures NextCutoff(s).value + n * DAY <= s.now
  {
    ShiftIsDays(s.listed[0].days);
  }

  lemma {:induction false} SelectKeeps(c: Config, s: State, selects: bool, t: State, project: int, n: nat)
    requires KeptInHand(s, project, n) && IsStep(c, s, CleanSelect(selects), t)
    ensures KeptInHand(t, project, n)
  {
    assert forall l :: l in t.listed ==> l in s.listed;
    if selects && NextCutoff(s) != None && s.listed[0].id == project {
      assert s.listed[0] in s.listed;
      CutoffKeeps(s, n);
    }
  }

  lemma {:induction false} InHandStep(c: Config, s: State, l: Label, t: State, project: int, n: nat)
    requires KeepsNow(s, project, n) && KeptInHand(s, project, n) && IsStep(c, s, l, t)
    ensures KeptInHand(t, project, n)
  {
    if l.CleanList? {
      ListKeeps(s, project, n);
    } else if l.CleanSelect? {
      SelectKeeps(c, s, l.selects, t, project, n);
    } else if IsCleaning(l) {
      CleaningLeaves(c, s, l, t);
    } else {
      StepLeaves(c, s, l, t);
    }
  }

  /** A record that has expired under a retention of at least `n` days is older than `n - 1` days. */
  lemma {:induction false} DeletedWasOld(s: State, l: Label, r: Row, n: nat)
    requires KeptInHand(s, r.rec.projectId, n) && Deletes(s, l, r)
    ensures s.now - r.createdAt > n * DAY - DAY
  {
    TextComparesDays(r.createdAt, s.cleaner.before);
  }

  lemma {:induction false} DeletedOnOld(c: Config, s: State, run: seq<Label>, t: State, r: Row, n: nat)
    requires Steps(c, s, run, t) && r.id <= |s.log| && DeletedOn(c, s, run, r)
    requires KeepsAlways(c, s, run, r.rec.projectId, n) && KeptInHand(s, r.rec.projectId, n)
    ensures s.now <= t.now && t.now - r.createdAt > n * DAY - DAY
    decreases |run|
  {
    var u := Apply(c, s, run[0]);
    RecordStep(c, s, run[0], u, r);
    TimePasses(c, u, run[1..], t, r);
    if Deletes(s, run[0], r) {
      DeletedWasOld(s, run[0], r, n);
    } else {
      InHandStep(c, s, run[0], u, r.rec.projectId, n);
      DeletedOnOld(c, u, run[1..], t, r, n);
    }
  }

  lemma {:induction false} TimePasses(c: Config, s: State, run: seq<Label>, t: State, r: Row)
    requires Steps(c, s, run, t) && r.id <= |s.log|
    ensures s.now <= t.now
    decreases |run|
  {
    if run != [] {
      RecordStep(c, s, run[0], Apply(c, s, run[0]), r);
      TimePasses(c, Apply(c, s, run[0]), run[1..], t, r);
    }
  }

  /**
   No record goes a day early: whatever happens, as long as its project's retention is never below `n` days, a record
   is in the index up to the age of `n - 1` days.
   */
  lemma {:induction false} NoRecordGoesEarly(c: Config, start: nat, before: seq<Label>, s: State, run: seq<Label>,
                                             t: State, r: Row, n: nat)
    requires Reached(c, start, before, s) && Steps(c, s, run, t) && r in s.table
    requires KeepsAlways(c, s, run, r.rec.projectId, n) && KeptInHand(s, r.rec.projectId, n)
    ensures t.now - r.createdAt <= n * DAY - DAY ==> r in t.table
  {
    ReachedInv(c, start, before, s);
    var k :| 0 <= k < |s.table| && s.table[k] == r;
    StaysUntilDeleted(c, s, run, t, r);
    if DeletedOn(c, s, run, r) {
      DeletedOnOld(c, s, run, t, r, n);
    }
  }
}
