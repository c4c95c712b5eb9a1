/** The hourly cleanup: records past their retention, and the files no project refers to any more. */
module CaptureCleanup {
  import opened Json
  import opened Calendar
  import opened CaptureStore
  import opened CaptureDisk
  import opened CapturePipeline
  import opened PipelineGuarantees
  import opened CaptureService
  import opened CleanupRules
  import opened Projects

  /** The consumer, the projects and the list of the cleanup are as before. */
  predicate Aside(s: State, t: State) {
    t.phase == s.phase && t.projects == s.projects && t.listed == s.listed
  }

  /** The first of the listed projects has had its turn. */
  predicate TurnTaken(s: State, t: State) {
    t.phase == s.phase && t.projects == s.projects && s.listed != [] && t.listed == s.listed[1..]
  }

  /**
   A path whose records have expired: its file loses its name exactly when it can be looked up, has not been written to
   for an hour, no record of the project is left or the count is not answered, and it can be removed. No other file is
   touched. The steps are those the state calls for: a count is enabled only for an aged file, a removal only after a
   count of zero.
   */
  method CheckPath(svc: Service, project: int, path: Option<RelPath>, a: CheckAnswers)
    requires svc.Valid() && svc.model.cleaner.Checking? && svc.model.cleaner.project == project
    requires svc.model.cleaner.todo != [] && svc.model.cleaner.todo[0] == path
    modifies svc`clock, svc`model, svc`trace, svc.writer.pool.files`disk
    ensures svc.Valid() && svc.store.table == old(svc.store.table)
    ensures svc.model.cleaner == Checking(project, old(svc.model).cleaner.todo[1..])
    ensures Aside(old(svc.model), svc.model) && svc.clock == old(svc.clock) + a.elapsed
    ensures var d := old(svc.writer.pool.files.disk);
            svc.writer.pool.files.disk
            == if path != None && Goes(d, svc.store.table, project, svc.clock, path.value, a)
               then d.(names := d.names - {path.value}) else d
    ensures var stat := old(svc.trace) + [Advance(old(svc.clock) + a.elapsed)] + [CleanStat(a.stat)];
            svc.trace == stat || svc.trace == stat + [CleanCount(a.count)]
            || svc.trace == stat + [CleanCount(a.count)] + [CleanRemove(a.remove)]
  {
    var now := svc.ReadClock(a.elapsed);
    var aged := IsAnHourOld(svc, path, a.stat);
    if aged {
      RemoveIfUnused(svc, project, path, a);
    }
  }

  /** The empty path of skipped bodies is the base directory, whose age says nothing about capture files. */
  method IsAnHourOld(svc: Service, path: Option<RelPath>, answers: bool) returns (aged: bool)
    requires svc.Valid() && svc.model.cleaner.Checking?
    requires svc.model.cleaner.todo != [] && svc.model.cleaner.todo[0] == path
    modifies svc`model, svc`trace
    ensures svc.Valid() && Aside(old(svc.model), svc.model) && svc.trace == old(svc.trace) + [CleanStat(answers)]
    ensures path != None ==> aged == (answers && FileAged(svc.writer.pool.files.disk, path.value, svc.clock))
    ensures var before := old(svc.model).cleaner;
            svc.model.cleaner == if aged then Aged(before.project, path, before.todo[1..])
                                 else Checking(before.project, before.todo[1..])
  {
    aged := answers;
    if path != None {
      var mtime := svc.writer.pool.files.Stat(path.value, answers);
      aged := mtime != None && mtime.value + HOUR <= svc.clock;
    }
    StepStat(svc, answers, aged, path);
  }

  ghost method StepStat(svc: Service, answers: bool, aged: bool, path: Option<RelPath>)
    requires Reached(svc.config, svc.startedAt, svc.trace, svc.model)
    requires svc.model.cleaner.Checking? && svc.model.cleaner.todo != [] && svc.model.cleaner.todo[0] == path
    requires aged == (answers && IsAged(svc.model, path))
    modifies svc`model, svc`trace
    ensures Reached(svc.config, svc.startedAt, svc.trace, svc.model)
    ensures svc.trace == old(svc.trace) + [CleanStat(answers)]
    ensures var s := old(svc.model);
            svc.model == s.(cleaner := if aged then Aged(s.cleaner.project, path, s.cleaner.todo[1..])
                                       else Checking(s.cleaner.project, s.cleaner.todo[1..]))
  {
    svc.Step(CleanStat(answers));
  }

  method RemoveIfUnused(svc: Service, project: int, path: Option<RelPath>, a: CheckAnswers)
    requires svc.Valid() && svc.model.cleaner.Aged? && svc.model.cleaner.project == project
    requires svc.model.cleaner.path == path
    modifies svc`model, svc`trace, svc.writer.pool.files`disk
    ensures svc.Valid()
    ensures svc.model.cleaner == Checking(project, old(svc.model).cleaner.todo)
    ensures Aside(old(svc.model), svc.model)
    ensures var d := old(svc.writer.pool.files.disk);
            svc.writer.pool.files.disk
            == if path != None && (!a.count || NoRowOf(svc.store.table, project)) && a.remove
               then Remove(d, path.value) else d
    ensures var count := old(svc.trace) + [CleanCount(a.count)];
            svc.trace == count || svc.trace == count + [CleanRemove(a.remove)]
  {
    var remaining := svc.store.CountOf(project, a.count);
    svc.Step(CleanCount(a.count));
    if remaining == 0 {
      RemoveUnused(svc, path, a.remove);
    }
  }

  method RemoveUnused(svc: Service, path: Option<RelPath>, removes: bool)
    requires svc.Valid() && svc.model.cleaner.Unused? && svc.model.cleaner.path == path
    modifies svc`model, svc`trace, svc.writer.pool.files`disk
    ensures svc.Valid() && Aside(old(svc.model), svc.model)
    ensures svc.trace == old(svc.trace) + [CleanRemove(removes)]
    ensures svc.model.cleaner == Checking(old(svc.model).cleaner.project, old(svc.model).cleaner.todo)
    ensures var d := old(svc.writer.pool.files.disk);
            svc.writer.pool.files.disk == if path != None && removes then Remove(d, path.value) else d
  {
    if path != None {
      svc.writer.pool.files.RemoveFile(path.value, removes);
    }
    svc.Step(CleanRemove(removes));
  }

  /** The expired paths are selected, then the records deleted; either may fail, and then nothing comes of it. */
  method DeleteExpired(svc: Service, project: Listing, cutoff: Instant, selects: bool, deletes: bool)
    returns (ok: bool, paths: seq<Option<RelPath>>)
    requires svc.Valid() && BetweenProjects(svc.model.cleaner) && svc.model.listed != []
    requires svc.model.listed[0] == project && Cutoff(svc.clock, project.days) == Some(cutoff)
    modifies svc`model, svc`trace, svc.store
    ensures svc.Valid() && TurnTaken(old(svc.model), svc.model) && ok == (selects && deletes)
    ensures ok ==> svc.model.cleaner == Checking(project.id, paths)
    ensures ok ==> paths == ExpiredPaths(old(svc.store.table), project.id, cutoff)
    ensures !ok ==> BetweenProjects(svc.model.cleaner)
    ensures svc.store.table == if ok then Kept(old(svc.store.table), project.id, cutoff) else old(svc.store.table)
  {
    ReachedStore(svc.config, svc.startedAt, svc.trace, svc.model, svc.store);
    var deleted;
    ok, paths, deleted := svc.store.DeleteByProjectBefore(project.id, cutoff, selects, deletes);
    StepTurn(svc, project, cutoff, selects, deletes);
  }

  ghost method StepTurn(svc: Service, project: Listing, cutoff: Instant, selects: bool, deletes: bool)
    requires Reached(svc.config, svc.startedAt, svc.trace, svc.model) && BetweenProjects(svc.model.cleaner)
    requires svc.model.listed != [] && svc.model.listed[0] == project && NextCutoff(svc.model) == Some(cutoff)
    modifies svc`model, svc`trace
    ensures Reached(svc.config, svc.startedAt, svc.trace, svc.model)
    ensures var s, paths := old(svc.model), ExpiredPaths(old(svc.model).table, project.id, cutoff);
            svc.model == s.(listed := s.listed[1..],
                            table := if selects && deletes then Kept(s.table, project.id, cutoff) else s.table,
                            cleaner := if !selects then s.cleaner
                                       else Checking(project.id, if deletes then paths else []))
  {
    StepSelect(svc, project, cutoff, selects);
    if selects {
      svc.Step(CleanDelete(deletes));
    }
  }

  ghost method StepSelect(svc: Service, project: Listing, cutoff: Instant, selects: bool)
    requires Reached(svc.config, svc.startedAt, svc.trace, svc.model) && BetweenProjects(svc.model.cleaner)
    requires svc.model.listed != [] && svc.model.listed[0] == project && NextCutoff(svc.model) == Some(cutoff)
    modifies svc`model, svc`trace
    ensures Reached(svc.config, svc.startedAt, svc.trace, svc.model)
    ensures var s := old(svc.model);
            svc.model == if selects then SelectExpired(s, cutoff) else s.(listed := s.listed[1..])
  {
    svc.Step(CleanSelect(selects));
  }

  /**
   The paths of deleted records are looked at one by one; the files that go are exactly those that `RemovesAt`
   names.
   */
  method CheckPaths(svc: Service, project: int, paths: seq<Option<RelPath>>, checks: nat -> CheckAnswers)
    requires svc.Valid() && svc.model.cleaner == Checking(project, paths)
    modifies svc`clock, svc`model, svc`trace, svc.writer.pool.files`disk
    ensures svc.Valid() && BetweenProjects(svc.model.cleaner) && Aside(old(svc.model), svc.model)
    ensures svc.store.table == old(svc.store.table) && svc.clock >= old(svc.clock)
    ensures svc.writer.pool.files.disk
         == FilesAfter(old(svc.writer.pool.files.disk), paths, svc.store.table, project, old(svc.clock), checks,
                       |paths|)
  {
    ghost var d, clock := svc.writer.pool.files.disk, svc.clock;
    FilesAfterNone(d, paths, svc.store.table, project, clock, checks);
    for i := 0 to |paths|
      invariant svc.Valid() && svc.model.cleaner == Checking(project, paths[i..])
      invariant svc.store.table == old(svc.store.table)
      invariant Aside(old(svc.model), svc.model) && svc.clock == ClockAfter(clock, checks, i)
      invariant svc.writer.pool.files.disk == FilesAfter(d, paths, svc.store.table, project, clock, checks, i)
    {
      CheckNext(svc, project, paths, i, checks, d, clock);
    }
  }

  method CheckNext(svc: Service, project: int, paths: seq<Option<RelPath>>, i: nat, checks: nat -> CheckAnswers,
                   ghost d: Disk, ghost clock: nat)
    requires svc.Valid() && i < |paths| && svc.model.cleaner == Checking(project, paths[i..])
    requires svc.clock == ClockAfter(clock, checks, i)
    requires svc.writer.pool.files.disk == FilesAfter(d, paths, svc.store.table, project, clock, checks, i)
    modifies svc`clock, svc`model, svc`trace, svc.writer.pool.files`disk
    ensures svc.Valid() && svc.model.cleaner == Checking(project, paths[i + 1..])
    ensures Aside(old(svc.model), svc.model) && svc.store.table == old(svc.store.table)
    ensures svc.clock == ClockAfter(clock, checks, i + 1)
    ensures svc.writer.pool.files.disk == FilesAfter(d, paths, svc.store.table, project, clock, checks, i + 1)
  {
    FilesAfterNext(d, paths, svc.store.table, project, clock, checks, i, svc.writer.pool.files.disk);
    assert paths[i..][1..] == paths[i + 1..];
    CheckPath(svc, project, paths[i], checks(i));
  }

  /** The records of a project from before its cutoff go, and then the files that may. */
  method CleanProject(svc: Service, project: Listing, cutoff: Instant, turn: Turn)
    requires svc.Valid() && BetweenProjects(svc.model.cleaner) && svc.model.listed != []
    requires svc.model.listed[0] == project && Cutoff(svc.clock, project.days) == Some(cutoff)
    modifies svc`clock, svc`model, svc`trace, svc.store, svc.writer.pool.files`disk
    ensures svc.Valid() && BetweenProjects(svc.model.cleaner) && TurnTaken(old(svc.model), svc.model)
    ensures svc.clock >= old(svc.clock)
    ensures !turn.selects || !turn.deletes ==>
      svc.store.table == old(svc.store.table) && svc.writer.pool.files.disk == old(svc.writer.pool.files.disk)
    ensures turn.selects && turn.deletes ==>
      svc.store.table == Kept(old(svc.store.table), project.id, cutoff)
      && var paths := ExpiredPaths(old(svc.store.table), project.id, cutoff);
         svc.writer.pool.files.disk == FilesAfter(old(svc.writer.pool.files.disk), paths, svc.store.table, project.id,
                                                  old(svc.clock), turn.checks, |paths|)
  {
    var ok, paths := DeleteExpired(svc, project, cutoff, turn.selects, turn.deletes);
    if ok {
      CheckPaths(svc, project.id, paths, turn.checks);
    }
  }

  /** A cutoff that has no text of fixed width leaves the project alone. */
  method SkipProject(svc: Service, project: Listing, turn: Turn)
    requires svc.Valid() && BetweenProjects(svc.model.cleaner) && svc.model.listed != []
    requires svc.model.listed[0] == project && Cutoff(svc.clock, project.days) == None
    modifies svc`model, svc`trace
    ensures svc.Valid() && BetweenProjects(svc.model.cleaner) && TurnTaken(old(svc.model), svc.model)
  {
    svc.Step(CleanSelect(turn.selects));
  }

  /** One project's turn: its expired records go, and the files that `TurnRemoves` names. */
  method CleanInTurn(svc: Service, project: Listing, turn: Turn) returns (now: nat)
    requires svc.Valid() && BetweenProjects(svc.model.cleaner)
    requires svc.model.listed != [] && svc.model.listed[0] == project
    modifies svc`clock, svc`model, svc`trace, svc.store, svc.writer.pool.files`disk
    ensures svc.Valid() && BetweenProjects(svc.model.cleaner) && TurnTaken(old(svc.model), svc.model)
    ensures old(svc.clock) <= now <= svc.clock
    ensures svc.store.table == AfterTurn(old(svc.store.table), project, now, turn)
    ensures svc.writer.pool.files.disk
         == FilesAfterTurn(old(svc.writer.pool.files.disk), old(svc.store.table), project, now, turn)
  {
    ghost var d, rows := svc.writer.pool.files.disk, svc.store.table;
    now := svc.ReadClock(turn.elapsed);
    var cutoff := Cutoff(now, project.days);
    if cutoff != None {
      CleanProject(svc, project, cutoff.value, turn);
    } else {
      SkipProject(svc, project, turn);
    }
    FilesOfTurn(d, rows, project, now, turn);
  }

  /**
   All projects that are not deleted and have a retention have their turn. Left are exactly the records that expire in
   no turn, and of the files exactly those that no turn removes. Without a list nothing happens.
   */
  method RunCaptureCleanup(svc: Service, projects: ProjectService, lists: bool, turns: nat -> Turn)
    returns (ghost times: seq<nat>)
    requires svc.Valid() && projects.Valid() && svc.model.projects == RetentionsOf(projects.rows)
    requires BetweenProjects(svc.model.cleaner) && svc.model.listed == []
    modifies svc`clock, svc`model, svc`trace, svc.store, svc.writer.pool.files`disk
    ensures svc.Valid() && BetweenProjects(svc.model.cleaner) && Aside(old(svc.model), svc.model)
    ensures !lists ==> svc.store.table == old(svc.store.table)
    ensures !lists ==> svc.writer.pool.files.disk == old(svc.writer.pool.files.disk)
    ensures lists ==>
      var list := Listed(RetentionsOf(projects.rows));
      |times| == |list| && Within(times, old(svc.clock), svc.clock)
      && (forall r :: r in svc.store.table <==> r in old(svc.store.table) && Survives(r, list, times, turns))
      && svc.writer.pool.files.disk
         == FilesCleaned(old(svc.writer.pool.files.disk), old(svc.store.table), list, times, turns)
  {
    times := [];
    var list := projects.ListWithRetention(lists);
    if list != None {
      times := CleanListed(svc, list.value, turns);
    }
  }

  method CleanListed(svc: Service, list: seq<Listing>, turns: nat -> Turn) returns (ghost times: seq<nat>)
    requires svc.Valid() && BetweenProjects(svc.model.cleaner) && svc.model.listed == []
    requires list == Listed(svc.model.projects)
    modifies svc`clock, svc`model, svc`trace, svc.store, svc.writer.pool.files`disk
    ensures svc.Valid() && BetweenProjects(svc.model.cleaner) && Cleaned(old(svc.model), svc.model, [])
    ensures |times| == |list| && Within(times, old(svc.clock), svc.clock)
    ensures forall r :: r in svc.store.table <==> r in old(svc.store.table) && Survives(r, list, times, turns)
    ensures svc.writer.pool.files.disk
         == FilesCleaned(old(svc.writer.pool.files.disk), old(svc.store.table), list, times, turns)
  {
    ghost var rows := svc.store.table;
    svc.Step(CleanList);
    times := CleanEach(svc, list, turns);
    CleanedUpMembers(rows, list, times, turns);
  }

  method CleanEach(svc: Service, projects: seq<Listing>, turns: nat -> Turn) returns (ghost times: seq<nat>)
    requires svc.Valid() && BetweenProjects(svc.model.cleaner) && svc.model.listed == projects
    modifies svc`clock, svc`model, svc`trace, svc.store, svc.writer.pool.files`disk
    ensures svc.Valid() && BetweenProjects(svc.model.cleaner) && Cleaned(old(svc.model), svc.model, [])
    ensures |times| == |projects| && Within(times, old(svc.clock), svc.clock)
    ensures svc.store.table == CleanedUp(old(svc.store.table), projects, times, turns)
    ensures svc.writer.pool.files.disk
         == FilesCleaned(old(svc.writer.pool.files.disk), old(svc.store.table), projects, times, turns)
  {
    times := [];
    ghost var rows, d, first := svc.store.table, svc.writer.pool.files.disk, svc.clock;
    FilesCleanedNone(d, rows, turns);
    for i := 0 to |projects|
      invariant svc.Valid() && BetweenProjects(svc.model.cleaner) && Cleaned(old(svc.model), svc.model, projects[i..])
      invariant |times| == i && first <= svc.clock && Within(times, first, svc.clock)
      invariant svc.store.table == CleanedUp(rows, projects[..i], times, turns)
      invariant svc.writer.pool.files.disk == FilesCleaned(d, rows, projects[..i], times, turns)
    {
      times := CleanNext(svc, projects, i, turns, times, rows, d);
    }
    assert projects[..|projects|] == projects;
  }

  /** The projects of `left` have not had their turn. */
  predicate Cleaned(s: State, t: State, left: seq<Listing>) {
    t.phase == s.phase && t.projects == s.projects && t.listed == left
  }

  method CleanNext(svc: Service, projects: seq<Listing>, i: nat, turns: nat -> Turn, ghost times: seq<nat>,
                   ghost rows: seq<Row>, ghost d: Disk)
    returns (ghost more: seq<nat>)
    requires svc.Valid() && BetweenProjects(svc.model.cleaner) && i < |projects| && |times| == i
    requires svc.model.listed == projects[i..]
    requires svc.store.table == CleanedUp(rows, projects[..i], times, turns)
    requires svc.writer.pool.files.disk == FilesCleaned(d, rows, projects[..i], times, turns)
    modifies svc`clock, svc`model, svc`trace, svc.store, svc.writer.pool.files`disk
    ensures svc.Valid() && BetweenProjects(svc.model.cleaner)
    ensures Cleaned(old(svc.model), svc.model, projects[i + 1..])
    ensures |more| == i + 1 && svc.clock >= old(svc.clock)
    ensures forall first: nat :: first <= old(svc.clock) && Within(times, first, old(svc.clock)) ==>
              Within(more, first, svc.clock)
    ensures svc.store.table == CleanedUp(rows, projects[..i + 1], more, turns)
    ensures svc.writer.pool.files.disk == FilesCleaned(d, rows, projects[..i + 1], more, turns)
  {
    ghost var e := svc.writer.pool.files.disk;
    assert projects[i..][1..] == projects[i + 1..];
    var now := CleanInTurn(svc, projects[i], turns(i));
    FilesCleanedNext(d, rows, projects, i, times, now, turns, e);
    CleanedUpNext(rows, projects, i, times, now, turns);
    more := times + [now];
  }

  predicate Within(times: seq<nat>, first: nat, last: nat) {
    forall k :: 0 <= k < |times| ==> first <= times[k] <= last
  }
}
