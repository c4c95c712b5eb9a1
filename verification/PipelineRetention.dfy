/**
 Which capture files outlive the retention: the files that no later step of any run removes, and the runs that
 remove all others.
 */
module PipelineRetention {
  import opened Sequences
  import opened Json
  import opened Calendar
  import opened CaptureEntry
  import opened CaptureStore
  import opened CaptureDisk
  import opened FilePool
  import opened CaptureWriter
  import opened CapturePipeline
  import opened PipelineFlow
  import opened PipelineFiles
  import opened PipelineGuarantees
  import opened PipelineReferences
  import opened RecordRetention
  import opened Projects

  /** The cleaner has the path in hand or still to look at. */
  predicate InCleaner(s: State, path: RelPath) {
    match s.cleaner
    case Resting => false
    case Selected(_, _, todo) => Some(path) in todo
    case Checking(_, todo) => Some(path) in todo
    case Aged(_, p, todo) => p == Some(path) || Some(path) in todo
    case Unused(_, p, todo) => p == Some(path) || Some(path) in todo
  }

  /** The project may still have its turn in a cleanup. */
  predicate TurnToCome(s: State, project: int) {
    !Gone(s.projects, project) || exists l :: l in s.listed && l.id == project
  }

  /** Nothing refers to the file any more, or no cleanup will look for it: its project is deleted, and not listed. */
  predicate OutOfReach(c: Config, s: State, path: RelPath) {
    path in s.disk.names && (Unreferenced(c, s, path) || !TurnToCome(s, path.project))
  }

  /** Such a file that the cleaner does not have in hand either. */
  predicate Stranded(c: Config, s: State, path: RelPath) {
    OutOfReach(c, s, path) && !InCleaner(s, path)
  }

  // A stranded file stays

  lemma {:induction false} ListedIsLive(s: State, project: int)
    requires Gone(s.projects, project)
    ensures !exists l :: l in Listed(s.projects) && l.id == project
  {
    ListedMembers(s.projects);
  }

  /** A deleted project is not listed again. */
  lemma {:induction false} NoTurnStep(c: Config, s: State, l: Label, t: State, project: int)
    requires !TurnToCome(s, project) && IsStep(c, s, l, t)
    ensures !TurnToCome(t, project)
  {
    StepLeaves(c, s, l, t);
    if l.CleanList? {
      ListedIsLive(s, project);
    } else if l.CleanSelect? {
      assert forall x :: x in t.listed ==> x in s.listed;
    }
  }

  lemma {:induction false} NotSelected(s: State, project: int, before: Instant, path: RelPath)
    requires NotStored(s, path)
    ensures Some(path) !in ExpiredPaths(s.table, project, before)
  {
    ExpiredPathsMembers(s.table, project, before);
    forall r | r in s.table
      ensures r.rec.filePath != Some(path)
    {
      var k :| 0 <= k < |s.table| && s.table[k] == r;
    }
  }

  /** Another project's turn does not bring the path, whose records are of its own project. */
  lemma {:induction false} NotOfProject(c: Config, s: State, project: int, before: Instant, path: RelPath)
    requires FlowOk(c, s) && project != path.project
    ensures Some(path) !in ExpiredPaths(s.table, project, before)
  {
    var todo := ExpiredPaths(s.table, project, before);
    ExpiredOfProject(c, s, project, before, todo);
  }

  lemma {:induction false} SelectLeavesOut(c: Config, s: State, selects: bool, t: State, path: RelPath)
    requires FlowOk(c, s) && Stranded(c, s, path) && IsStep(c, s, CleanSelect(selects), t)
    ensures !InCleaner(t, path)
  {
    if selects && NextCutoff(s) != None {
      assert s.listed[0] in s.listed;
      if s.listed[0].id == path.project {
        NotSelected(s, s.listed[0].id, NextCutoff(s).value, path);
      } else {
        NotOfProject(c, s, s.listed[0].id, NextCutoff(s).value, path);
      }
    }
  }

  /** The cleaner does not come upon a path that is out of its reach. */
  lemma {:induction false} OutOfCleanerStep(c: Config, s: State, l: Label, t: State, path: RelPath)
    requires FlowOk(c, s) && Stranded(c, s, path) && IsStep(c, s, l, t)
    ensures !InCleaner(t, path)
    ensures l.CleanRemove? ==> path in t.disk.names
  {
    if l.CleanSelect? {
      SelectLeavesOut(c, s, l.selects, t, path);
    } else if IsCleaning(l) {
      CleaningLeavesOut(c, s, l, t, path);
    } else {
      StepLeaves(c, s, l, t);
    }
  }

  lemma {:induction false} CleaningLeavesOut(c: Config, s: State, l: Label, t: State, path: RelPath)
    requires !InCleaner(s, path) && path in s.disk.names && IsStep(c, s, l, t) && IsCleaning(l) && !l.CleanSelect?
    ensures !InCleaner(t, path) && path in t.disk.names
  {
  }

  lemma {:induction false} NameStaysOnWrite(c: Config, s: State, fault: Fault, syncs: bool, t: State, path: RelPath)
    requires FilesInv(c, s) && IsWrite(c, s, fault, syncs, t) && path in s.disk.names
    ensures path in t.disk.names
  {
    var e := s.phase.entry;
    var p, line := BuildRelPath(e.projectId, s.now, c.offset), MarshalJsonl(c.codec, e, c.stamp(s.now));
    var w := Write(s.pool, s.disk, p, line, s.now, fault, syncs);
    WriteFiles(s.pool, s.disk, p, line, s.now, c.offset, fault, syncs, w);
    AfterWriteNames(c, s, line, w, t);
  }

  /** Only a removal takes a file's name. */
  lemma {:induction false} NameStays(c: Config, s: State, l: Label, t: State, path: RelPath)
    requires FilesInv(c, s) && IsStep(c, s, l, t) && path in s.disk.names && !l.CleanRemove?
    ensures path in t.disk.names
  {
    if l.TakeWritten? {
      NameStaysOnWrite(c, s, l.fault, l.syncs, t, path);
    } else if l.SyncPool? || l.CloseFiles? {
      SyncHandlesGrows(s.disk, s.pool.order, l.failing);
    } else if l.Insert? {
      assert t == InsertBatch(s, l.ok, l.times);
    } else {
      assert t.disk == s.disk;
    }
  }

  /** What is out of the cleaner's reach stays so. */
  lemma {:induction false} OutOfReachStep(c: Config, s: State, l: Label, t: State, path: RelPath)
    requires FilesInv(c, s) && OutOfReach(c, s, path) && IsStep(c, s, l, t)
    requires l.CleanRemove? ==> path in t.disk.names
    ensures OutOfReach(c, t, path)
  {
    if !l.CleanRemove? {
      NameStays(c, s, l, t, path);
    }
    if Unreferenced(c, s, path) {
      UnreferencedStep(c, s, l, t, path);
    } else {
      NoTurnStep(c, s, l, t, path.project);
    }
  }

  lemma {:induction false} StrandedAlways(c: Config, s: State, run: seq<Label>, t: State, path: RelPath)
    requires ConfigOk(c) && Inv(c, s) && Stranded(c, s, path) && Steps(c, s, run, t)
    ensures Stranded(c, t, path)
    decreases |run|
  {
    if run != [] {
      var u := Apply(c, s, run[0]);
      InvStep(c, s, run[0], u);
      OutOfCleanerStep(c, s, run[0], u, path);
      OutOfReachStep(c, s, run[0], u, path);
      StrandedAlways(c, u, run[1..], t, path);
    }
  }

  // A file the cleaner drops stays as well, unless a count query is not answered

  /**
   The cleaner has the project's paths in hand, but the project still has a record, so that none of their files
   goes.
   */
  predicate WillDrop(s: State, path: RelPath) {
    match s.cleaner
    case Resting => true
    case Selected(project, before, _) => CountByProject(Kept(s.table, project, before), project) > 0
    case Checking(project, _) => CountByProject(s.table, project) > 0
    case Aged(project, _, _) => CountByProject(s.table, project) > 0
    case Unused(project, p, _) => p != Some(path) && CountByProject(s.table, project) > 0
  }

  predicate StrandedIfAnswered(c: Config, s: State, path: RelPath) {
    OutOfReach(c, s, path) && (InCleaner(s, path) ==> WillDrop(s, path))
  }

  /** No count query of the step fails. */
  predicate AnswersCount(l: Label) {
    l.CleanCount? ==> l.answers
  }

  predicate Answered(run: seq<Label>) {
    forall k :: 0 <= k < |run| ==> AnswersCount(run[k])
  }

  lemma {:induction false} KeptAppend(a: seq<Row>, b: seq<Row>, project: int, before: Instant)
    ensures Kept(a + b, project, before) == Kept(a, project, before) + Kept(b, project, before)
  {
    if a == [] {
      assert a + b == b;
    } else {
      KeptAppend(a[1..], b, project, before);
      HeadOfAppend(a, b);
      var first := if Expired(a[0], project, before) then [] else [a[0]];
      Associate(first, Kept(a[1..], project, before), Kept(b, project, before));
    }
  }

  lemma {:induction false} DropsStill(s: State, rows: seq<Row>, t: State, path: RelPath)
    requires WillDrop(s, path) && t.table == s.table + rows && t.cleaner == s.cleaner
    ensures WillDrop(t, path)
  {
    if s.cleaner.Selected? {
      var project, before := s.cleaner.project, s.cleaner.before;
      KeptAppend(s.table, rows, project, before);
      SelectAppend(Kept(s.table, project, before), Kept(rows, project, before), [ProjectIs(project)]);
    } else if !s.cleaner.Resting? {
      SelectAppend(s.table, rows, [ProjectIs(s.cleaner.project)]);
    }
  }

  lemma {:induction false} DropsInsert(s: State, ok: bool, times: seq<Instant>, t: State, path: RelPath)
    requires WillDrop(s, path) && s.phase.Inserting? && |times| == |s.batch| && t == InsertBatch(s, ok, times)
    ensures WillDrop(t, path)
  {
    if ok {
      DropsStill(s, RowsFrom(Records(s.batch), times, |s.log| + 1), t, path);
    }
  }

  lemma {:induction false} DropDelete(c: Config, s: State, deletes: bool, t: State, path: RelPath)
    requires WillDrop(s, path) && IsStep(c, s, CleanDelete(deletes), t)
    ensures InCleaner(t, path) ==> WillDrop(t, path)
  {
  }

  lemma {:induction false} DropStat(c: Config, s: State, answers: bool, t: State, path: RelPath)
    requires WillDrop(s, path) && IsStep(c, s, CleanStat(answers), t)
    ensures WillDrop(t, path)
  {
  }

  /** An answered count finds the project's record and lets the file be. */
  lemma {:induction false} DropCount(c: Config, s: State, t: State, path: RelPath)
    requires WillDrop(s, path) && IsStep(c, s, CleanCount(true), t)
    ensures WillDrop(t, path)
  {
  }

  lemma {:induction false} DropRemove(c: Config, s: State, removes: bool, t: State, path: RelPath)
    requires WillDrop(s, path) && path in s.disk.names
    requires IsStep(c, s, CleanRemove(removes), t)
    ensures WillDrop(t, path) && path in t.disk.names
  {
  }

  /** As long as count queries are answered, the cleaner drops what it is going to drop. */
  lemma {:induction false} DropStep(c: Config, s: State, l: Label, t: State, path: RelPath)
    requires InCleaner(s, path) && WillDrop(s, path) && path in s.disk.names
    requires IsStep(c, s, l, t) && AnswersCount(l)
    ensures InCleaner(t, path) ==> WillDrop(t, path)
    ensures l.CleanRemove? ==> path in t.disk.names
  {
    if l.CleanDelete? {
      DropDelete(c, s, l.deletes, t, path);
    } else if l.CleanStat? {
      DropStat(c, s, l.answers, t, path);
    } else if l.CleanCount? {
      DropCount(c, s, t, path);
    } else if l.CleanRemove? {
      DropRemove(c, s, l.removes, t, path);
    } else if !l.CleanSelect? {
      StepLeaves(c, s, l, t);
      if l.Insert? {
        DropsInsert(s, l.ok, l.times, t, path);
      }
    }
  }

  lemma {:induction false} StrandedIfAnsweredStep(c: Config, s: State, l: Label, t: State, path: RelPath)
    requires FlowOk(c, s) && FilesInv(c, s) && StrandedIfAnswered(c, s, path) && IsStep(c, s, l, t) && AnswersCount(l)
    ensures StrandedIfAnswered(c, t, path)
  {
    if InCleaner(s, path) {
      DropStep(c, s, l, t, path);
    } else {
      OutOfCleanerStep(c, s, l, t, path);
    }
    OutOfReachStep(c, s, l, t, path);
  }

  lemma {:induction false} StrandedIfAnsweredAlways(c: Config, s: State, run: seq<Label>, t: State, path: RelPath)
    requires ConfigOk(c) && Inv(c, s) && StrandedIfAnswered(c, s, path) && Steps(c, s, run, t) && Answered(run)
    ensures StrandedIfAnswered(c, t, path)
    decreases |run|
  {
    if run != [] {
      var u := Apply(c, s, run[0]);
      InvStep(c, s, run[0], u);
      assert AnswersCount(run[0]);
      StrandedIfAnsweredStep(c, s, run[0], u, path);
      assert Answered(run[1..]) by {
        assert forall k :: 0 <= k < |run[1..]| ==> run[1..][k] == run[k + 1];
      }
      StrandedIfAnsweredAlways(c, u, run[1..], t, path);
    }
  }

  // Every other file is removed by some run

  /** The state that the steps of `before` reach from the start of the system. */
  datatype Origin = Origin(begin: nat, before: seq<Label>)

  /** `run` leads on from there to `s`, with all count queries answered if `ok`. */
  ghost predicate On(c: Config, ok: bool, start: Origin, run: seq<Label>, s: State) {
    ConfigOk(c) && Steps(c, Initial(c, start.begin), start.before + run, s) && (ok ==> Answered(run))
  }

  lemma {:induction false} Take(c: Config, ok: bool, start: Origin, run: seq<Label>, s: State, l: Label)
    returns (more: seq<Label>, t: State)
    requires On(c, ok, start, run, s) && Enabled(c, s, l) && (ok ==> AnswersCount(l))
    ensures more == run + [l] && t == Apply(c, s, l) && On(c, ok, start, more, t)
  {
    more, t := run + [l], Apply(c, s, l);
    assert Steps(c, s, [l], t);
    StepsJoin(c, Initial(c, start.begin), start.before + run, s, [l], t);
    Associate(start.before, run, [l]);
  }

  lemma {:induction false} OnInv(c: Config, ok: bool, start: Origin, run: seq<Label>, s: State)
    requires On(c, ok, start, run, s)
    ensures Inv(c, s)
  {
    ReachedInv(c, start.begin, start.before + run, s);
  }

  /** Steps have one outcome, so a run from the start that goes through `s` goes on from `s`. */
  lemma {:induction false} StepsFrom(c: Config, s: State, a: seq<Label>, t: State, b: seq<Label>, u: State)
    requires Steps(c, s, a, t) && Steps(c, s, a + b, u)
    ensures Steps(c, t, b, u)
    decreases |a|
  {
    if a == [] {
      assert a + b == b;
    } else {
      assert (a + b)[1..] == a[1..] + b;
      StepsFrom(c, Apply(c, s, a[0]), a[1..], t, b, u);
    }
  }

  /** The cleaner removes the file at the head of its list, when it has aged and no record is counted. */
  lemma {:induction false} RemoveHead(c: Config, ok: bool, start: Origin, run0: seq<Label>, s0: State, path: RelPath)
    returns (run: seq<Label>, s: State)
    requires On(c, ok, start, run0, s0) && path in s0.disk.names
    requires s0.cleaner.Checking? && s0.cleaner.todo != [] && s0.cleaner.todo[0] == Some(path)
    requires ok ==> CountByProject(s0.table, s0.cleaner.project) == 0
    ensures On(c, ok, start, run, s) && path !in s.disk.names
  {
    OnInv(c, ok, start, run0, s0);
    run, s := Take(c, ok, start, run0, s0, Advance(s0.now + HOUR));
    assert IsAged(s, Some(path));
    run, s := Take(c, ok, start, run, s, CleanStat(true));
    run, s := RemoveAged(c, ok, start, run, s, path);
  }

  lemma {:induction false} RemoveAged(c: Config, ok: bool, start: Origin, run0: seq<Label>, s0: State, path: RelPath)
    returns (run: seq<Label>, s: State)
    requires On(c, ok, start, run0, s0) && s0.cleaner.Aged? && s0.cleaner.path == Some(path)
    requires ok ==> CountByProject(s0.table, s0.cleaner.project) == 0
    ensures On(c, ok, start, run, s) && path !in s.disk.names
  {
    run, s := Take(c, ok, start, run0, s0, CleanCount(ok));
    run, s := Take(c, ok, start, run, s, CleanRemove(true));
  }

  lemma {:induction false} RemoveListed(c: Config, ok: bool, start: Origin, run0: seq<Label>, s0: State, path: RelPath)
    returns (run: seq<Label>, s: State)
    requires On(c, ok, start, run0, s0) && path in s0.disk.names
    requires s0.cleaner.Checking? && Some(path) in s0.cleaner.todo
    requires ok ==> CountByProject(s0.table, s0.cleaner.project) == 0
    ensures On(c, ok, start, run, s) && path !in s.disk.names
    decreases |s0.cleaner.todo|
  {
    if s0.cleaner.todo[0] == Some(path) {
      run, s := RemoveHead(c, ok, start, run0, s0, path);
    } else {
      run, s := Take(c, ok, start, run0, s0, CleanStat(false));
      run, s := RemoveListed(c, ok, start, run, s, path);
    }
  }

  lemma {:induction false} LeaveUnused(c: Config, ok: bool, start: Origin, run0: seq<Label>, s0: State)
    returns (run: seq<Label>, s: State)
    requires On(c, ok, start, run0, s0) && s0.cleaner.Unused?
    ensures On(c, ok, start, run, s) && s.cleaner == Checking(s0.cleaner.project, s0.cleaner.todo)
    ensures s == s0.(cleaner := s.cleaner)
  {
    run, s := Take(c, ok, start, run0, s0, CleanRemove(false));
  }

  /** A file found aged and left alone: the cleaner goes on with its list. */
  lemma {:induction false} LeaveAged(c: Config, ok: bool, start: Origin, run0: seq<Label>, s0: State)
    returns (run: seq<Label>, s: State)
    requires On(c, ok, start, run0, s0) && (s0.cleaner.Aged? || s0.cleaner.Unused?)
    ensures On(c, ok, start, run, s) && s.cleaner == Checking(s0.cleaner.project, s0.cleaner.todo)
    ensures s == s0.(cleaner := s.cleaner)
  {
    if s0.cleaner.Unused? {
      run, s := LeaveUnused(c, ok, start, run0, s0);
    } else {
      run, s := Take(c, ok, start, run0, s0, CleanCount(true));
      if s.cleaner.Unused? {
        run, s := LeaveUnused(c, ok, start, run, s);
      }
    }
  }

  lemma {:induction false} RemoveFromCleaner(c: Config, ok: bool, start: Origin, run0: seq<Label>, s0: State,
                                             path: RelPath)
    returns (run: seq<Label>, s: State)
    requires On(c, ok, start, run0, s0) && path in s0.disk.names && InCleaner(s0, path)
    requires ok ==> !WillDrop(s0, path)
    ensures On(c, ok, start, run, s) && path !in s.disk.names
  {
    if s0.cleaner.Aged? && s0.cleaner.path == Some(path) {
      run, s := RemoveAged(c, ok, start, run0, s0, path);
    } else if s0.cleaner.Unused? && s0.cleaner.path == Some(path) {
      run, s := Take(c, ok, start, run0, s0, CleanRemove(true));
    } else {
      run, s := BackToList(c, ok, start, run0, s0, path);
      run, s := RemoveListed(c, ok, start, run, s, path);
    }
  }

  /** The cleaner goes on with a list that has the path. */
  lemma {:induction false} BackToList(c: Config, ok: bool, start: Origin, run0: seq<Label>, s0: State, path: RelPath)
    returns (run: seq<Label>, s: State)
    requires On(c, ok, start, run0, s0) && InCleaner(s0, path) && (ok ==> !WillDrop(s0, path))
    requires s0.cleaner.Aged? || s0.cleaner.Unused? ==> s0.cleaner.path != Some(path)
    ensures On(c, ok, start, run, s) && s.cleaner.Checking? && Some(path) in s.cleaner.todo && s.disk == s0.disk
    ensures ok ==> CountByProject(s.table, s.cleaner.project) == 0
  {
    run, s := run0, s0;
    if s.cleaner.Selected? {
      run, s := Take(c, ok, start, run, s, CleanDelete(true));
    } else if !s.cleaner.Checking? {
      run, s := LeaveAged(c, ok, start, run, s);
    }
  }

  lemma {:induction false} EndList(c: Config, ok: bool, start: Origin, run0: seq<Label>, s0: State)
    returns (run: seq<Label>, s: State)
    requires On(c, ok, start, run0, s0) && s0.cleaner.Checking?
    ensures On(c, ok, start, run, s) && BetweenProjects(s.cleaner) && s == s0.(cleaner := s.cleaner)
    decreases |s0.cleaner.todo|
  {
    run, s := run0, s0;
    if s0.cleaner.todo != [] {
      run, s := Take(c, ok, start, run, s, CleanStat(false));
      run, s := EndList(c, ok, start, run, s);
    }
  }

  /** The cleaner comes to the end of the project it is at without removing anything. */
  lemma {:induction false} EndProject(c: Config, ok: bool, start: Origin, run0: seq<Label>, s0: State)
    returns (run: seq<Label>, s: State)
    requires On(c, ok, start, run0, s0)
    ensures On(c, ok, start, run, s) && BetweenProjects(s.cleaner)
    ensures s == s0.(cleaner := s.cleaner)
  {
    run, s := run0, s0;
    if s.cleaner.Selected? {
      run, s := Take(c, ok, start, run, s, CleanDelete(false));
    } else if s.cleaner.Aged? || s.cleaner.Unused? {
      run, s := LeaveAged(c, ok, start, run, s);
    }
    if s.cleaner.Checking? {
      run, s := EndList(c, ok, start, run, s);
    }
  }

  /** The latest creation time of a project's rows. */
  function Latest(rows: seq<Row>, project: int): (t: Instant)
    ensures forall k :: 0 <= k < |rows| && rows[k].rec.projectId == project ==> rows[k].createdAt <= t
  {
    if rows == [] then 0
    else
      var rest := Latest(rows[1..], project);
      if rows[0].rec.projectId == project && rows[0].createdAt > rest then rows[0].createdAt else rest
  }

  /** A cutoff from the latest record's time on leaves the project none. */
  lemma {:induction false} AllExpire(rows: seq<Row>, project: int, before: Instant)
    requires Latest(rows, project) <= before
    ensures forall r :: r in rows && r.rec.projectId == project ==> Expired(r, project, before)
    ensures CountByProject(Kept(rows, project, before), project) == 0
  {
    var kept := Kept(rows, project, before);
    KeptMembers(rows, project, before);
    forall r | r in rows && r.rec.projectId == project
      ensures Expired(r, project, before)
    {
      TextComparesDays(r.createdAt, before);
    }
    CountIsRows(kept, project);
    forall k | 0 <= k < |kept|
      ensures kept[k].rec.projectId != project
    {
      assert kept[k] in kept;
    }
  }

  lemma {:induction false} SkipListed(c: Config, ok: bool, start: Origin, run0: seq<Label>, s0: State)
    returns (run: seq<Label>, s: State)
    requires On(c, ok, start, run0, s0) && BetweenProjects(s0.cleaner)
    ensures On(c, ok, start, run, s) && s == s0.(listed := [])
    decreases |s0.listed|
  {
    run, s := run0, s0;
    if s.listed != [] {
      run, s := Take(c, ok, start, run, s, CleanSelect(false));
      run, s := SkipListed(c, ok, start, run, s);
    }
  }

  /** The projects listed before this one are skipped, as their queries fail. */
  lemma {:induction false} SkipTo(c: Config, ok: bool, start: Origin, run0: seq<Label>, s0: State, project: int)
    returns (run: seq<Label>, s: State)
    requires On(c, ok, start, run0, s0) && BetweenProjects(s0.cleaner) && exists l :: l in s0.listed && l.id == project
    ensures On(c, ok, start, run, s) && s == s0.(listed := s.listed) && s.listed != [] && s.listed[0].id == project
    decreases |s0.listed|
  {
    run, s := run0, s0;
    if s.listed[0].id != project {
      var l :| l in s.listed && l.id == project;
      assert l in s.listed[1..];
      run, s := Take(c, ok, start, run, s, CleanSelect(false));
      run, s := SkipTo(c, ok, start, run, s, project);
    }
  }

  /** A project that is not deleted, created if need be, is given a retention of a day. */
  lemma {:induction false} GiveRetention(c: Config, ok: bool, start: Origin, run0: seq<Label>, s0: State, project: int)
    returns (run: seq<Label>, s: State)
    requires On(c, ok, start, run0, s0) && !Gone(s0.projects, project)
    ensures On(c, ok, start, run, s) && s == s0.(projects := s.projects)
    ensures Live(s.projects, project) && s.projects[project - 1] == Some(1)
    decreases project - |s0.projects|
  {
    if project <= |s0.projects| {
      run, s := Take(c, ok, start, run0, s0, UpdateProject(project, 1));
    } else {
      run, s := Take(c, ok, start, run0, s0, CreateProject(1));
      run, s := GiveRetention(c, ok, start, run, s, project);
    }
  }

  /** A new cleanup lists the project. */
  lemma {:induction false} ListProject(c: Config, ok: bool, start: Origin, run0: seq<Label>, s0: State, project: int)
    returns (run: seq<Label>, s: State)
    requires On(c, ok, start, run0, s0) && BetweenProjects(s0.cleaner) && !Gone(s0.projects, project)
    ensures On(c, ok, start, run, s) && s == s0.(projects := s.projects, listed := s.listed)
    ensures exists l :: l in s.listed && l.id == project
  {
    run, s := SkipListed(c, ok, start, run0, s0);
    run, s := GiveRetention(c, ok, start, run, s, project);
    run, s := Take(c, ok, start, run, s, CleanList);
    ListedMembers(s.projects);
    assert Listing(project, 1) in s.listed;
  }

  lemma {:induction false} TurnComes(c: Config, ok: bool, start: Origin, run0: seq<Label>, s0: State, project: int)
    returns (run: seq<Label>, s: State)
    requires On(c, ok, start, run0, s0) && TurnToCome(s0, project)
    ensures On(c, ok, start, run, s)
    ensures s == s0.(cleaner := s.cleaner, projects := s.projects, listed := s.listed)
    ensures BetweenProjects(s.cleaner) && s.listed != [] && s.listed[0].id == project
  {
    run, s := EndProject(c, ok, start, run0, s0);
    if !exists l :: l in s.listed && l.id == project {
      run, s := ListProject(c, ok, start, run, s, project);
    }
    run, s := SkipTo(c, ok, start, run, s, project);
  }

  /** The longest time that a retention can stand for leads to a year that the index's texts can express. */
  predicate InCalendar(s: State) {
    Representable(s.now + LONGEST)
  }

  /** The first time from now on at which the cutoff of a retention is not before `latest`. */
  function CutoffTime(now: nat, days: int, latest: Instant): (t: nat)
    ensures now <= t
  {
    if now + Shift(days) >= latest then now else latest - Shift(days)
  }

  lemma {:induction false} CutoffTimeIsRight(now: nat, days: int, latest: Instant)
    requires Representable(now + LONGEST)
    ensures var t := CutoffTime(now, days, latest); Cutoff(t, days) != None && latest <= Cutoff(t, days).value
  {
    ShiftIsDays(days);
    LaterIsRepresentable(now, Shift(days), latest);
  }

  lemma {:induction false} LaterIsRepresentable(now: nat, shift: int, latest: Instant)
    requires Representable(now + LONGEST) && shift <= LONGEST
    ensures var t := if now + shift >= latest then now + shift else latest; Representable(t)
  {
    assert Representable(latest);
    if now + shift >= latest {
      RepresentableBefore(now + shift, now + LONGEST);
    }
  }

  /** Time passes until all records of the project whose turn it is have expired. */
  lemma {:induction false} WaitForCutoff(c: Config, ok: bool, start: Origin, run0: seq<Label>, s0: State)
    returns (run: seq<Label>, s: State)
    requires On(c, ok, start, run0, s0) && s0.listed != [] && InCalendar(s0)
    ensures On(c, ok, start, run, s) && s == s0.(now := s.now, flushLate := s.flushLate)
    ensures NextCutoff(s) != None && Latest(s0.table, s0.listed[0].id) <= NextCutoff(s).value
  {
    var days, latest := s0.listed[0].days, Latest(s0.table, s0.listed[0].id);
    CutoffTimeIsRight(s0.now, days, latest);
    run, s := Take(c, ok, start, run0, s0, Advance(CutoffTime(s0.now, days, latest)));
  }

  lemma {:induction false} StoredRow(c: Config, ok: bool, start: Origin, run: seq<Label>, s: State, path: RelPath)
    returns (row: Row)
    requires On(c, ok, start, run, s) && !NotStored(s, path)
    ensures row in s.table && row.rec.filePath == Some(path) && row.rec.projectId == path.project
  {
    OnInv(c, ok, start, run, s);
    var k :| 0 <= k < |s.table| && s.table[k].rec.filePath == Some(path);
    RowProject(c, s, k);
    row := s.table[k];
  }

  /** A file a stored record refers to: when the project's records have all expired, the cleaner gets to it. */
  lemma {:induction false} RemoveStored(c: Config, ok: bool, start: Origin, run0: seq<Label>, s0: State, path: RelPath)
    returns (run: seq<Label>, s: State)
    requires On(c, ok, start, run0, s0) && path in s0.disk.names && !NotStored(s0, path)
    requires TurnToCome(s0, path.project) && InCalendar(s0)
    ensures On(c, ok, start, run, s) && path !in s.disk.names
  {
    var row := StoredRow(c, ok, start, run0, s0, path);
    run, s := TurnComes(c, ok, start, run0, s0, path.project);
    run, s := WaitForCutoff(c, ok, start, run, s);
    run, s := SelectAll(c, ok, start, run, s, row);
    run, s := RemoveFromCleaner(c, ok, start, run, s, path);
  }

  /** The cutoff leaves the project no record. */
  lemma {:induction false} SelectAll(c: Config, ok: bool, start: Origin, run0: seq<Label>, s0: State, row: Row)
    returns (run: seq<Label>, s: State)
    requires On(c, ok, start, run0, s0) && BetweenProjects(s0.cleaner) && s0.listed != []
    requires NextCutoff(s0) != None && Latest(s0.table, s0.listed[0].id) <= NextCutoff(s0).value
    requires row in s0.table && row.rec.projectId == s0.listed[0].id && row.rec.filePath != None
    ensures On(c, ok, start, run, s) && s.disk == s0.disk && s.table == s0.table
    ensures InCleaner(s, row.rec.filePath.value) && !WillDrop(s, row.rec.filePath.value)
  {
    ExpiresWithAll(s0.table, row, s0.listed[0].id, NextCutoff(s0).value);
    run, s := Take(c, ok, start, run0, s0, CleanSelect(true));
    assert s == SelectExpired(s0, NextCutoff(s0).value);
  }

  lemma {:induction false} ExpiresWithAll(rows: seq<Row>, row: Row, project: int, before: Instant)
    requires Latest(rows, project) <= before && row in rows && row.rec.projectId == project
    ensures row.rec.filePath in ExpiredPaths(rows, project, before)
    ensures CountByProject(Kept(rows, project, before), project) == 0
  {
    AllExpire(rows, project, before);
    ExpiredPathsMembers(rows, project, before);
    assert Expired(row, project, before);
  }

  /** Neither time nor projects have changed. */
  predicate Meanwhile(s: State, t: State) {
    t.now == s.now && t.projects == s.projects && t.listed == s.listed
  }

  /** What the index or the batch referred to, the index or the batch still refers to. */
  ghost predicate KeepsReferences(s: State, t: State) {
    forall p :: !NotStored(s, p) || !NotBatched(s, p) ==> !NotStored(t, p) || !NotBatched(t, p)
  }

  lemma {:induction false} SyncFirst(c: Config, ok: bool, start: Origin, run0: seq<Label>, s0: State)
    returns (run: seq<Label>, s: State)
    requires On(c, ok, start, run0, s0) && s0.phase.Flushing?
    ensures On(c, ok, start, run, s) && s.phase == Inserting(0, s0.phase.final, s0.now) && s.disk.names == s0.disk.names
    ensures s == s0.(disk := s.disk, phase := s.phase)
  {
    OnInv(c, ok, start, run0, s0);
    SyncHandlesGrows(s0.disk, s0.pool.order, {});
    assert !SomeFailing(s0.pool.order, {});
    run, s := Take(c, ok, start, run0, s0, SyncPool({}));
  }

  /** All records of a batch are stamped with the same time. */
  function StampedAt(n: nat, time: Instant): (times: seq<Instant>)
    ensures |times| == n && forall k :: 0 <= k < n ==> times[k] == time
  {
    seq(n, (k: nat) => time)
  }

  lemma {:induction false} InsertNow(c: Config, ok: bool, start: Origin, run0: seq<Label>, s0: State)
    returns (run: seq<Label>, s: State)
    requires On(c, ok, start, run0, s0) && s0.phase.Inserting? && Representable(s0.now)
    ensures On(c, ok, start, run, s) && s.phase == AfterFlush(s0.phase.final) && s.batch == []
    ensures s == s0.(table := s.table, log := s.log, batch := [], phase := s.phase)
    ensures KeepsReferences(s0, s)
  {
    OnInv(c, ok, start, run0, s0);
    var times := StampedAt(|s0.batch|, s0.now);
    run, s := Take(c, ok, start, run0, s0, Insert(true, times));
    InsertedReferences(s0, RowsFrom(Records(s0.batch), times, |s0.log| + 1), s);
  }

  /** The batch is inserted; what the consumer does next depends on whether it was the last flush. */
  lemma {:induction false} InsertAll(c: Config, ok: bool, start: Origin, run0: seq<Label>, s0: State)
    returns (run: seq<Label>, s: State)
    requires On(c, ok, start, run0, s0) && MidFlush(s0.phase) && Representable(s0.now)
    ensures On(c, ok, start, run, s) && s.phase == AfterFlush(s0.phase.final) && s.batch == []
    ensures s.queue == s0.queue && s.closing == s0.closing && Meanwhile(s0, s) && s.disk.names == s0.disk.names
    ensures KeepsReferences(s0, s)
  {
    if s0.phase.Flushing? {
      run, s := SyncFirst(c, ok, start, run0, s0);
      run, s := InsertNow(c, ok, start, run, s);
    } else {
      run, s := InsertNow(c, ok, start, run0, s0);
    }
  }

  lemma {:induction false} InsertedReferences(s: State, rows: seq<Row>, t: State)
    requires t.table == s.table + rows && |rows| == |s.batch|
    requires forall k :: 0 <= k < |rows| ==> rows[k].rec == s.batch[k].rec
    ensures KeepsReferences(s, t)
  {
    forall p | !NotStored(s, p) || !NotBatched(s, p)
      ensures !NotStored(t, p)
    {
      if !NotStored(s, p) {
        var k :| 0 <= k < |s.table| && s.table[k].rec.filePath == Some(p);
        assert t.table[k] == s.table[k];
      } else {
        var k :| 0 <= k < |s.batch| && s.batch[k].rec.filePath == Some(p);
        assert t.table[|s.table| + k] == rows[k];
      }
    }
  }

  /** The entry in hand is batched without a file, or lost to a write error. */
  lemma {:induction false} PutAside(c: Config, ok: bool, start: Origin, run0: seq<Label>, s0: State)
    returns (run: seq<Label>, s: State)
    requires On(c, ok, start, run0, s0) && s0.phase.InHand?
    ensures On(c, ok, start, run, s) && (s.phase == Idle || s.phase == Flushing(false))
    ensures s.queue == s0.queue && s.closing == s0.closing && Meanwhile(s0, s) && s.disk == s0.disk
    ensures s.table == s0.table && s0.batch <= s.batch
  {
    if s0.phase.entry.bodySkipped {
      run, s := Take(c, ok, start, run0, s0, TakeSkipped);
    } else {
      run, s := Take(c, ok, start, run0, s0, TakeWritten(MkdirFails, true));
    }
  }

  lemma {:induction false} BatchGrows(s: State, t: State)
    requires t.table == s.table && s.batch <= t.batch
    ensures KeepsReferences(s, t)
  {
    forall p | !NotBatched(s, p)
      ensures !NotBatched(t, p)
    {
      var k :| 0 <= k < |s.batch| && s.batch[k].rec.filePath == Some(p);
      assert t.batch[k] == s.batch[k];
    }
  }

  lemma {:induction false} BecomesIdle(c: Config, ok: bool, start: Origin, run0: seq<Label>, s0: State)
    returns (run: seq<Label>, s: State)
    requires On(c, ok, start, run0, s0) && GoesOn(s0.phase) && Representable(s0.now)
    ensures On(c, ok, start, run, s) && s.phase.Idle? && KeepsReferences(s0, s)
    ensures s.queue == s0.queue && s.closing == s0.closing && Meanwhile(s0, s) && s.disk.names == s0.disk.names
  {
    run, s := run0, s0;
    if s.phase.InHand? {
      run, s := PutAside(c, ok, start, run, s);
      BatchGrows(s0, s);
    }
    if MidFlush(s.phase) {
      run, s := InsertAll(c, ok, start, run, s);
    }
  }

  /** A file a batched record refers to: the record is stored first. */
  lemma {:induction false} RemoveBatched(c: Config, ok: bool, start: Origin, run0: seq<Label>, s0: State, path: RelPath)
    returns (run: seq<Label>, s: State)
    requires On(c, ok, start, run0, s0) && path in s0.disk.names && !NotBatched(s0, path)
    requires TurnToCome(s0, path.project) && InCalendar(s0)
    ensures On(c, ok, start, run, s) && path !in s.disk.names
  {
    OnInv(c, ok, start, run0, s0);
    RepresentableBefore(s0.now, s0.now + LONGEST);
    if MidFlush(s0.phase) {
      run, s := InsertAll(c, ok, start, run0, s0);
    } else {
      run, s := BecomesIdle(c, ok, start, run0, s0);
      if NotStored(s, path) {
        run, s := FlushOnTick(c, ok, start, run, s);
      }
    }
    run, s := RemoveStored(c, ok, start, run, s, path);
  }

  lemma {:induction false} FlushOnTick(c: Config, ok: bool, start: Origin, run0: seq<Label>, s0: State)
    returns (run: seq<Label>, s: State)
    requires On(c, ok, start, run0, s0) && s0.phase.Idle? && s0.batch != [] && Representable(s0.now)
    ensures On(c, ok, start, run, s) && s.batch == [] && s.disk.names == s0.disk.names && KeepsReferences(s0, s)
    ensures Meanwhile(s0, s)
  {
    run, s := Take(c, ok, start, run0, s0, Tick);
    run, s := InsertAll(c, ok, start, run, s);
  }

  lemma {:induction false} ReceiveNext(c: Config, ok: bool, start: Origin, run0: seq<Label>, s0: State, path: RelPath)
    returns (run: seq<Label>, s: State)
    requires On(c, ok, start, run0, s0) && s0.phase.Idle? && s0.queue != []
    ensures On(c, ok, start, run, s) && s.phase.InHand? && s.phase.entry == s0.queue[0] && s.queue == s0.queue[1..]
    ensures s.closing == s0.closing && Meanwhile(s0, s) && s.disk == s0.disk
    ensures Pending(s0, path) ==> Pending(s, path)
  {
    run, s := Take(c, ok, start, run0, s0, Receive);
    if !s0.closing {
    } else if Pending(s0, path) {
      var k :| 0 <= k < |s0.queue| && WritesTo(s0.queue[k], path);
      assert k > 0 ==> s.queue[k - 1] == s0.queue[k];
    }
  }

  /** The consumer gets to an entry for the path's project. */
  lemma {:induction false} GetsEntry(c: Config, ok: bool, start: Origin, run0: seq<Label>, s0: State, path: RelPath)
    returns (run: seq<Label>, s: State)
    requires On(c, ok, start, run0, s0) && Pending(s0, path) && Representable(s0.now)
    ensures On(c, ok, start, run, s) && s.phase.InHand? && WritesTo(s.phase.entry, path)
    ensures Meanwhile(s0, s) && s.disk.names == s0.disk.names
    decreases |s0.queue|
  {
    run, s := run0, s0;
    if s.phase.InHand? && WritesTo(s.phase.entry, path) {
      return;
    }
    OnInv(c, ok, start, run0, s0);
    run, s := BecomesIdle(c, ok, start, run, s);
    if s.queue == [] {
      var e := Entry("", path.project, "", "", "", "", false, false, 0, 0, None, None, None, None, None, false);
      run, s := Take(c, ok, start, run, s, Submit(e));
      run, s := ReceiveNext(c, ok, start, run, s, path);
    } else {
      run, s := ReceiveNext(c, ok, start, run, s, path);
      run, s := GetsEntry(c, ok, start, run, s, path);
    }
  }

  lemma {:induction false} FaultlessWrite(p: Pool, d: Disk, path: RelPath, line: seq<char>, now: nat, offset: nat,
                                          w: WriteResult)
    requires FilesOk(p, d, now, offset) && path.hour == HourOf(now, offset)
    requires w == Write(p, d, path, line, now, NoFault, true)
    ensures w.place != None && w.place.value.path == path && !w.lost && Grows(d, w.disk)
    ensures path in w.disk.names
  {
    PoolGetFiles(p, d, path, now, offset, true, true, PoolGet(p, d, path, now, true, true));
    WriteFiles(p, d, path, line, now, offset, NoFault, true, w);
  }

  /** An entry in hand is written without a fault. */
  lemma {:induction false} WriteEntry(c: Config, ok: bool, start: Origin, run0: seq<Label>, s0: State)
    returns (run: seq<Label>, s: State)
    requires On(c, ok, start, run0, s0) && s0.phase.InHand? && !s0.phase.entry.bodySkipped
    ensures On(c, ok, start, run, s)
    ensures var path := BuildRelPath(s0.phase.entry.projectId, s0.now, c.offset);
            path in s.disk.names && !NotBatched(s, path)
    ensures Meanwhile(s0, s)
  {
    OnInv(c, ok, start, run0, s0);
    var e := s0.phase.entry;
    var path, line := BuildRelPath(e.projectId, s0.now, c.offset), MarshalJsonl(c.codec, e, c.stamp(s0.now));
    var w := Write(s0.pool, s0.disk, path, line, s0.now, NoFault, true);
    FaultlessWrite(s0.pool, s0.disk, path, line, s0.now, c.offset, w);
    run, s := Take(c, ok, start, run0, s0, TakeWritten(NoFault, true));
    assert s == AfterWrite(c, s0, line, w);
    assert s.batch[|s0.batch|].rec.filePath == Some(path);
  }

  /** A file that exists is of an hour that has begun. */
  lemma {:induction false} HourHasBegun(c: Config, s: State, path: RelPath)
    requires FilesInv(c, s) && path in s.disk.names
    ensures path.hour <= HourOf(s.now, c.offset)
  {
    var mtime := s.disk.inodes[s.disk.names[path]].mtime;
    assert HourOf(mtime, c.offset) == path.hour && mtime <= s.now;
  }

  /** A file that may still be written to: a record of it is written, and removed with it later. */
  lemma {:induction false} RemoveWritten(c: Config, ok: bool, start: Origin, run0: seq<Label>, s0: State, path: RelPath)
    returns (run: seq<Label>, s: State)
    requires On(c, ok, start, run0, s0) && path in s0.disk.names && MayBeWritten(c, s0, path)
    requires TurnToCome(s0, path.project) && InCalendar(s0)
    ensures On(c, ok, start, run, s) && path !in s.disk.names
  {
    OnInv(c, ok, start, run0, s0);
    HourHasBegun(c, s0, path);
    RepresentableBefore(s0.now, s0.now + LONGEST);
    run, s := GetsEntry(c, ok, start, run0, s0, path);
    assert BuildRelPath(s.phase.entry.projectId, s.now, c.offset) == path;
    run, s := WriteEntry(c, ok, start, run, s);
    run, s := RemoveBatched(c, ok, start, run, s, path);
  }

  /**
   Exactly the stranded files stay for ever: whatever their age and the retention of their project, no step of any run
   removes them. Any other file is removed by some run, in which the cutoffs are those of retentions the project has had
   or is given; this half needs a clock that is not about to leave the years of the index's texts.
   */
  lemma {:induction false} StaysIffStranded(c: Config, begin: nat, before: seq<Label>, s: State, path: RelPath)
    requires Reached(c, begin, before, s) && path in s.disk.names
    ensures Stranded(c, s, path) ==> forall run, t :: Steps(c, s, run, t) ==> path in t.disk.names
    ensures !Stranded(c, s, path) && InCalendar(s) ==>
      exists run, t :: Steps(c, s, run, t) && path !in t.disk.names
  {
    ReachedInv(c, begin, before, s);
    if Stranded(c, s, path) {
      forall run, t | Steps(c, s, run, t)
        ensures path in t.disk.names
      {
        StrandedAlways(c, s, run, t, path);
      }
    } else if InCalendar(s) {
      var run, t := Removes(c, false, begin, before, s, path);
    }
  }

  /**
   The same for runs in which every count query is answered: in these a file stays as well when the cleaner has it in
   hand while its project still has a record. It is dropped from the cleaner's list and nothing leads back to it.
   */
  lemma {:induction false} StaysIfAnsweredIffStranded(c: Config, begin: nat, before: seq<Label>, s: State,
                                                      path: RelPath)
    requires Reached(c, begin, before, s) && path in s.disk.names
    ensures StrandedIfAnswered(c, s, path) ==>
      forall run, t :: Steps(c, s, run, t) && Answered(run) ==> path in t.disk.names
    ensures !StrandedIfAnswered(c, s, path) && InCalendar(s) ==>
      exists run, t :: Steps(c, s, run, t) && Answered(run) && path !in t.disk.names
  {
    ReachedInv(c, begin, before, s);
    if StrandedIfAnswered(c, s, path) {
      forall run, t | Steps(c, s, run, t) && Answered(run)
        ensures path in t.disk.names
      {
        StrandedIfAnsweredAlways(c, s, run, t, path);
      }
    } else if InCalendar(s) {
      var run, t := Removes(c, true, begin, before, s, path);
    }
  }

  lemma {:induction false} Removes(c: Config, ok: bool, begin: nat, before: seq<Label>, s: State, path: RelPath)
    returns (run: seq<Label>, t: State)
    requires Reached(c, begin, before, s) && path in s.disk.names && InCalendar(s)
    requires if ok then !StrandedIfAnswered(c, s, path) else !Stranded(c, s, path)
    ensures Steps(c, s, run, t) && (ok ==> Answered(run)) && path !in t.disk.names
  {
    var start := Origin(begin, before);
    assert before + [] == before;
    assert On(c, ok, start, [], s);
    if OutOfReach(c, s, path) {
      run, t := RemoveFromCleaner(c, ok, start, [], s, path);
    } else if !NotStored(s, path) {
      run, t := RemoveStored(c, ok, start, [], s, path);
    } else if !NotBatched(s, path) {
      run, t := RemoveBatched(c, ok, start, [], s, path);
    } else {
      run, t := RemoveWritten(c, ok, start, [], s, path);
    }
    StepsFrom(c, Initial(c, begin), before, s, run, t);
  }

  // Records

  /** The record has expired for a deletion that is to come next. */
  predicate RecordInHand(s: State, r: Row) {
    s.cleaner.Selected? && Expired(r, s.cleaner.project, s.cleaner.before)
  }

  /** No cleanup will come to the record's project any more. */
  predicate KeptForGood(s: State, r: Row) {
    !TurnToCome(s, r.rec.projectId) && !RecordInHand(s, r)
  }

  /** Another project's turn does not select the record. */
  lemma {:induction false} SelectsOther(c: Config, s: State, selects: bool, t: State, r: Row)
    requires KeptForGood(s, r) && IsStep(c, s, CleanSelect(selects), t)
    ensures !RecordInHand(t, r)
  {
    assert s.listed[0] in s.listed;
    if selects && NextCutoff(s) != None {
      assert t == SelectExpired(s, NextCutoff(s).value);
    }
  }

  lemma {:induction false} KeptForGoodStep(c: Config, s: State, l: Label, t: State, r: Row)
    requires KeptForGood(s, r) && IsStep(c, s, l, t)
    ensures KeptForGood(t, r)
  {
    NoTurnStep(c, s, l, t, r.rec.projectId);
    if l.CleanSelect? {
      SelectsOther(c, s, l.selects, t, r);
    } else if IsCleaning(l) {
      CleaningLeaves(c, s, l, t);
    } else {
      StepLeaves(c, s, l, t);
    }
  }

  lemma {:induction false} RecordStaysAlways(c: Config, s: State, run: seq<Label>, t: State, r: Row)
    requires KeptForGood(s, r) && r in s.table && r.id <= |s.log| && Steps(c, s, run, t)
    ensures r in t.table
    decreases |run|
  {
    if run != [] {
      var u := Apply(c, s, run[0]);
      RecordStep(c, s, run[0], u, r);
      KeptForGoodStep(c, s, run[0], u, r);
      RecordStaysAlways(c, u, run[1..], t, r);
    }
  }

  lemma {:induction false} DeleteRecord(c: Config, start: Origin, run0: seq<Label>, s0: State, r: Row)
    returns (run: seq<Label>, s: State)
    requires On(c, true, start, run0, s0) && r in s0.table && TurnToCome(s0, r.rec.projectId) && InCalendar(s0)
    ensures On(c, true, start, run, s) && r !in s.table
  {
    run, s := TurnComes(c, true, start, run0, s0, r.rec.projectId);
    run, s := WaitForCutoff(c, true, start, run, s);
    AllExpire(s.table, r.rec.projectId, NextCutoff(s).value);
    run, s := SelectRecord(c, start, run, s, r);
    run, s := DeleteInHand(c, start, run, s, r);
  }

  lemma {:induction false} SelectRecord(c: Config, start: Origin, run0: seq<Label>, s0: State, r: Row)
    returns (run: seq<Label>, s: State)
    requires On(c, true, start, run0, s0) && BetweenProjects(s0.cleaner) && s0.listed != [] && NextCutoff(s0) != None
    requires Expired(r, s0.listed[0].id, NextCutoff(s0).value)
    ensures On(c, true, start, run, s) && RecordInHand(s, r)
  {
    run, s := Take(c, true, start, run0, s0, CleanSelect(true));
  }

  lemma {:induction false} DeleteInHand(c: Config, start: Origin, run0: seq<Label>, s0: State, r: Row)
    returns (run: seq<Label>, s: State)
    requires On(c, true, start, run0, s0) && RecordInHand(s0, r)
    ensures On(c, true, start, run, s) && r !in s.table
  {
    KeptMembers(s0.table, s0.cleaner.project, s0.cleaner.before);
    run, s := Take(c, true, start, run0, s0, CleanDelete(true));
  }

  /**
   A stored record stays in the index for ever, whatever its age, exactly when its project is deleted and not listed,
   and the record not about to be deleted. Any other is deleted by some run.
   */
  lemma {:induction false} RecordStaysIff(c: Config, begin: nat, before: seq<Label>, s: State, r: Row)
    requires Reached(c, begin, before, s) && r in s.table
    ensures KeptForGood(s, r) ==> forall run, t :: Steps(c, s, run, t) ==> r in t.table
    ensures !KeptForGood(s, r) && InCalendar(s) ==> exists run, t :: Steps(c, s, run, t) && r !in t.table
  {
    ReachedInv(c, begin, before, s);
    var k :| 0 <= k < |s.table| && s.table[k] == r;
    if KeptForGood(s, r) {
      forall run, t | Steps(c, s, run, t)
        ensures r in t.table
      {
        RecordStaysAlways(c, s, run, t, r);
      }
    } else if InCalendar(s) {
      var run, t := DeletesRecord(c, begin, before, s, r);
    }
  }

  lemma {:induction false} DeletesRecord(c: Config, begin: nat, before: seq<Label>, s: State, r: Row)
    returns (run: seq<Label>, t: State)
    requires Reached(c, begin, before, s) && r in s.table && !KeptForGood(s, r) && InCalendar(s)
    ensures Steps(c, s, run, t) && r !in t.table
  {
    var start := Origin(begin, before);
    assert before + [] == before;
    assert On(c, true, start, [], s);
    if RecordInHand(s, r) {
      run, t := DeleteInHand(c, start, [], s, r);
    } else {
      run, t := DeleteRecord(c, start, [], s, r);
    }
    StepsFrom(c, Initial(c, begin), before, s, run, t);
  }
}
