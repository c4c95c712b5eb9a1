/** What a cleanup does to the index and to the files: which records go, and which files go with them. */
module CleanupRules {
  import opened Json
  import opened Calendar
  import opened CaptureStore
  import opened CaptureDisk
  import opened Projects

  /** For one path: the time passed, and whether the file and the index answer, and the file can be removed. */
  datatype CheckAnswers = CheckAnswers(elapsed: nat, stat: bool, count: bool, remove: bool)

  /**
   For one project: the time passed, whether its paths are selected and its records deleted, and the answers for
   each path.
   */
  datatype Turn = Turn(elapsed: nat, selects: bool, deletes: bool, checks: nat -> CheckAnswers)

  // Records

  /** The project's records are deleted in its turn, up to a cutoff. */
  predicate Deletes(project: Listing, now: nat, turn: Turn) {
    turn.selects && turn.deletes && Cutoff(now, project.days) != None
  }

  function AfterTurn(rows: seq<Row>, project: Listing, now: nat, turn: Turn): seq<Row> {
    if Deletes(project, now, turn) then Kept(rows, project.id, Cutoff(now, project.days).value) else rows
  }

  /** The records left after each project had its turn at one of the `times`. */
  function CleanedUp(rows: seq<Row>, projects: seq<Listing>, times: seq<nat>, turns: nat -> Turn): seq<Row>
    requires |times| == |projects|
    decreases |projects|
  {
    if projects == [] then rows
    else
      var n := |projects| - 1;
      AfterTurn(CleanedUp(rows, projects[..n], times[..n], turns), projects[n], times[n], turns(n))
  }

  lemma {:induction false} CleanedUpNext(rows: seq<Row>, projects: seq<Listing>, i: nat, times: seq<nat>, now: nat,
                                         turns: nat -> Turn)
    requires i < |projects| && |times| == i
    ensures CleanedUp(rows, projects[..i + 1], times + [now], turns)
         == AfterTurn(CleanedUp(rows, projects[..i], times, turns), projects[i], now, turns(i))
  {
    assert projects[..i + 1][..i] == projects[..i];
    assert (times + [now])[..i] == times;
  }

  /** The record expires in a project's turn. */
  predicate ExpiresIn(row: Row, project: Listing, now: nat, turn: Turn) {
    Deletes(project, now, turn) && Expired(row, project.id, Cutoff(now, project.days).value)
  }

  /** The record expires in none of the turns. */
  predicate Survives(row: Row, projects: seq<Listing>, times: seq<nat>, turns: nat -> Turn)
    requires |times| == |projects|
  {
    forall k: nat :: k < |projects| ==> !ExpiresIn(row, projects[k], times[k], turns(k))
  }

  lemma {:induction false} SurvivesLast(row: Row, projects: seq<Listing>, times: seq<nat>, turns: nat -> Turn, n: nat)
    requires |times| == |projects| == n + 1
    ensures Survives(row, projects, times, turns)
       <==> Survives(row, projects[..n], times[..n], turns) && !ExpiresIn(row, projects[n], times[n], turns(n))
  {
    assert forall k: nat :: k < n ==> projects[..n][k] == projects[k] && times[..n][k] == times[k];
  }

  lemma {:induction false} AfterTurnMembers(rows: seq<Row>, project: Listing, now: nat, turn: Turn)
    ensures forall r :: r in AfterTurn(rows, project, now, turn) <==> r in rows && !ExpiresIn(r, project, now, turn)
    ensures Ascending(rows) ==> Ascending(AfterTurn(rows, project, now, turn))
  {
    if Deletes(project, now, turn) {
      KeptMembers(rows, project.id, Cutoff(now, project.days).value);
    }
  }

  /** The records that a cleanup leaves are exactly those that expire in no turn, and they keep their order. */
  lemma {:induction false} CleanedUpMembers(rows: seq<Row>, projects: seq<Listing>, times: seq<nat>, turns: nat -> Turn)
    requires |times| == |projects|
    ensures forall r :: r in CleanedUp(rows, projects, times, turns)
              <==> r in rows && Survives(r, projects, times, turns)
    ensures Ascending(rows) ==> Ascending(CleanedUp(rows, projects, times, turns))
    decreases |projects|
  {
    if projects != [] {
      var n := |projects| - 1;
      CleanedUpMembers(rows, projects[..n], times[..n], turns);
      AfterTurnMembers(CleanedUp(rows, projects[..n], times[..n], turns), projects[n], times[n], turns(n));
      forall r
        ensures r in CleanedUp(rows, projects, times, turns) <==> r in rows && Survives(r, projects, times, turns)
      {
        SurvivesLast(r, projects, times, turns, n);
      }
    }
  }

  /** A record expires by the UTC days of its creation and of the cutoff. */
  lemma {:induction false} ExpiresByCutoff(r: Row, project: Listing, now: nat, turn: Turn)
    requires r.rec.projectId == project.id && Deletes(project, now, turn)
    ensures r.createdAt <= now + Shift(project.days) ==> ExpiresIn(r, project, now, turn)
    ensures ExpiresIn(r, project, now, turn) ==> r.createdAt < now + Shift(project.days) + DAY
  {
    TextComparesDays(r.createdAt, Cutoff(now, project.days).value);
  }

  /**
   The ages after a cleanup. When a project's turn deletes, none of its records that is left was created up to the
   cutoff. A record that is gone was, at a turn of its project, created less than a day after the cutoff, or before it.
   With a retention of up to 292 years the cutoff lies that many days before the turn.
   */
  lemma {:induction false} CleanedUpAges(rows: seq<Row>, projects: seq<Listing>, times: seq<nat>, turns: nat -> Turn,
                                         r: Row)
    requires |times| == |projects| && r in rows
    ensures r in CleanedUp(rows, projects, times, turns) ==>
              forall k: nat ::
                k < |projects| && r.rec.projectId == projects[k].id && Deletes(projects[k], times[k], turns(k)) ==>
                  r.createdAt > times[k] + Shift(projects[k].days)
    ensures r !in CleanedUp(rows, projects, times, turns) ==>
              exists k: nat :: k < |projects| && r.rec.projectId == projects[k].id
                && Deletes(projects[k], times[k], turns(k)) && r.createdAt < times[k] + Shift(projects[k].days) + DAY
  {
    CleanedUpMembers(rows, projects, times, turns);
    forall k: nat | k < |projects| && r.rec.projectId == projects[k].id && Deletes(projects[k], times[k], turns(k))
      ensures r.createdAt <= times[k] + Shift(projects[k].days) ==> ExpiresIn(r, projects[k], times[k], turns(k))
      ensures ExpiresIn(r, projects[k], times[k], turns(k)) ==> r.createdAt < times[k] + Shift(projects[k].days) + DAY
    {
      ExpiresByCutoff(r, projects[k], times[k], turns(k));
    }
  }

  /**
   The number of nanoseconds of a long retention overflows. One of 213503 days puts the cutoff almost a day after now:
   not even the records of this moment stay.
   */
  lemma {:induction false} LongRetentionKeepsNothing(r: Row, project: int, now: nat, turn: Turn)
    requires r.rec.projectId == project && r.createdAt <= now && Deletes(Listing(project, 213_503), now, turn)
    ensures ExpiresIn(r, Listing(project, 213_503), now, turn)
  {
    assert Wrap(-213_503 * NANOS_PER_DAY) == 84_873_709_551_616;
    ExpiresByCutoff(r, Listing(project, 213_503), now, turn);
  }

  // Files

  /** The file goes: it is found aged, no record is counted, and it can be removed. */
  predicate Goes(d: Disk, rows: seq<Row>, project: int, now: nat, path: RelPath, a: CheckAnswers) {
    a.stat && FileAged(d, path, now) && (!a.count || NoRowOf(rows, project)) && a.remove
  }

  /** The clock after the first `n` paths have been looked at. */
  function ClockAfter(clock: nat, checks: nat -> CheckAnswers, n: nat): (now: nat)
    ensures now >= clock
  {
    if n == 0 then clock else ClockAfter(clock, checks, n - 1) + checks(n - 1).elapsed
  }

  /** Looking at the `k`-th of the paths removes the file `p`. */
  predicate RemovesAt(d: Disk, paths: seq<Option<RelPath>>, rows: seq<Row>, project: int, clock: nat,
                      checks: nat -> CheckAnswers, k: nat, p: RelPath)
    requires k < |paths|
  {
    paths[k] == Some(p) && Goes(d, rows, project, ClockAfter(clock, checks, k + 1), p, checks(k))
  }

  predicate RemovedBefore(d: Disk, paths: seq<Option<RelPath>>, rows: seq<Row>, project: int, clock: nat,
                          checks: nat -> CheckAnswers, n: nat, p: RelPath)
    requires n <= |paths|
  {
    exists k: nat :: k < n && RemovesAt(d, paths, rows, project, clock, checks, k, p)
  }

  ghost function RemovedOf(d: Disk, paths: seq<Option<RelPath>>, rows: seq<Row>, project: int, clock: nat,
                           checks: nat -> CheckAnswers, n: nat): set<RelPath>
    requires n <= |paths|
  {
    set p | p in d.names && RemovedBefore(d, paths, rows, project, clock, checks, n, p)
  }

  /** The disk after looking at `n` of the paths: the names of exactly the files removed have gone, and nothing else. */
  ghost function FilesAfter(d: Disk, paths: seq<Option<RelPath>>, rows: seq<Row>, project: int, clock: nat,
                            checks: nat -> CheckAnswers, n: nat): Disk
    requires n <= |paths|
  {
    d.(names := d.names - RemovedOf(d, paths, rows, project, clock, checks, n))
  }

  lemma {:induction false} FilesAfterNone(d: Disk, paths: seq<Option<RelPath>>, rows: seq<Row>, project: int,
                                          clock: nat, checks: nat -> CheckAnswers)
    ensures FilesAfter(d, paths, rows, project, clock, checks, 0) == d
  {
    assert RemovedOf(d, paths, rows, project, clock, checks, 0) == {};
  }

  /** One path more. */
  lemma {:induction false} FilesAfterNext(d: Disk, paths: seq<Option<RelPath>>, rows: seq<Row>, project: int,
                                          clock: nat, checks: nat -> CheckAnswers, n: nat, e: Disk)
    requires n < |paths| && e == FilesAfter(d, paths, rows, project, clock, checks, n)
    ensures FilesAfter(d, paths, rows, project, clock, checks, n + 1)
         == if paths[n] != None && Goes(e, rows, project, ClockAfter(clock, checks, n + 1), paths[n].value, checks(n))
            then Remove(e, paths[n].value) else e
  {
    var more := RemovedOf(d, paths, rows, project, clock, checks, n + 1);
    var one := if paths[n] != None && RemovesAt(d, paths, rows, project, clock, checks, n, paths[n].value)
                 && paths[n].value in d.names then {paths[n].value} else {};
    assert more == RemovedOf(d, paths, rows, project, clock, checks, n) + one by {
      forall p
        ensures RemovedBefore(d, paths, rows, project, clock, checks, n + 1, p)
           <==> RemovedBefore(d, paths, rows, project, clock, checks, n, p)
                || RemovesAt(d, paths, rows, project, clock, checks, n, p)
      {
        if RemovedBefore(d, paths, rows, project, clock, checks, n + 1, p) {
          var k: nat :| k < n + 1 && RemovesAt(d, paths, rows, project, clock, checks, k, p);
        }
      }
    }
    assert d.names - more == e.names - one;
  }

  /** The turn of a project removes the file `p`, where `rows` are the records before it. */
  ghost predicate TurnRemoves(d: Disk, rows: seq<Row>, project: Listing, now: nat, turn: Turn, p: RelPath) {
    && Deletes(project, now, turn)
    && var cutoff := Cutoff(now, project.days).value;
       var paths := ExpiredPaths(rows, project.id, cutoff);
       RemovedBefore(d, paths, Kept(rows, project.id, cutoff), project.id, now, turn.checks, |paths|, p)
  }

  /** All questions of the turn are answered and no time passes in it. */
  ghost predicate Faultless(turn: Turn) {
    turn.selects && turn.deletes
    && forall k: nat ::
      turn.checks(k).elapsed == 0 && turn.checks(k).stat && turn.checks(k).count && turn.checks(k).remove
  }

  lemma {:induction false} ClockStands(clock: nat, checks: nat -> CheckAnswers, n: nat)
    requires forall k: nat :: checks(k).elapsed == 0
    ensures ClockAfter(clock, checks, n) == clock
  {
    if n > 0 {
      ClockStands(clock, checks, n - 1);
    }
  }

  /**
   Without faults a turn removes a file exactly when a record expiring in it referred to the file, the file has not been
   written to for an hour, and no record of the whole project is left. A file for which the last part fails is dropped.
   */
  lemma {:induction false} FaultlessTurnRemoves(d: Disk, rows: seq<Row>, project: Listing, now: nat, turn: Turn,
                                                p: RelPath)
    requires Faultless(turn) && Cutoff(now, project.days) != None
    ensures TurnRemoves(d, rows, project, now, turn, p)
       <==> (exists r :: r in rows && ExpiresIn(r, project, now, turn) && r.rec.filePath == Some(p))
            && FileAged(d, p, now)
            && NoRowOf(Kept(rows, project.id, Cutoff(now, project.days).value), project.id)
  {
    var cutoff := Cutoff(now, project.days).value;
    var paths, kept := ExpiredPaths(rows, project.id, cutoff), Kept(rows, project.id, cutoff);
    ExpiredPathsMembers(rows, project.id, cutoff);
    forall k: nat | k < |paths|
      ensures RemovesAt(d, paths, kept, project.id, now, turn.checks, k, p)
         <==> paths[k] == Some(p) && FileAged(d, p, now) && NoRowOf(kept, project.id)
    {
      ClockStands(now, turn.checks, k + 1);
    }
    if exists r :: r in rows && ExpiresIn(r, project, now, turn) && r.rec.filePath == Some(p) {
      assert Some(p) in paths;
      var k :| 0 <= k < |paths| && paths[k] == Some(p);
      assert RemovesAt(d, paths, kept, project.id, now, turn.checks, k, p)
        <==> FileAged(d, p, now) && NoRowOf(kept, project.id);
    }
    if TurnRemoves(d, rows, project, now, turn, p) {
      var k: nat :| k < |paths| && RemovesAt(d, paths, kept, project.id, now, turn.checks, k, p);
      assert paths[k] in paths;
    }
  }

  /** One of the projects' turns removes the file `p`. */
  ghost predicate CleanupRemoves(d: Disk, rows: seq<Row>, projects: seq<Listing>, times: seq<nat>, turns: nat -> Turn,
                                 p: RelPath)
    requires |times| == |projects|
  {
    exists k: nat :: k < |projects|
      && TurnRemoves(d, CleanedUp(rows, projects[..k], times[..k], turns), projects[k], times[k], turns(k), p)
  }

  /** Where only names have gone, a file that still has its name goes as it did before. */
  lemma {:induction false} TurnRemovesSame(d: Disk, e: Disk, rows: seq<Row>, project: Listing, now: nat, turn: Turn,
                                           p: RelPath)
    requires e.inodes == d.inodes && p in e.names && p in d.names && e.names[p] == d.names[p]
    ensures TurnRemoves(e, rows, project, now, turn, p) <==> TurnRemoves(d, rows, project, now, turn, p)
  {
    if Deletes(project, now, turn) {
      var cutoff := Cutoff(now, project.days).value;
      var paths, kept := ExpiredPaths(rows, project.id, cutoff), Kept(rows, project.id, cutoff);
      forall k: nat | k < |paths|
        ensures RemovesAt(e, paths, kept, project.id, now, turn.checks, k, p)
           <==> RemovesAt(d, paths, kept, project.id, now, turn.checks, k, p)
      {
      }
    }
  }

  ghost function TurnRemoved(d: Disk, rows: seq<Row>, project: Listing, now: nat, turn: Turn): set<RelPath> {
    set p | p in d.names && TurnRemoves(d, rows, project, now, turn, p)
  }

  /** The disk after a turn: exactly the files that it removes have lost their names. */
  ghost function FilesAfterTurn(d: Disk, rows: seq<Row>, project: Listing, now: nat, turn: Turn): Disk {
    d.(names := d.names - TurnRemoved(d, rows, project, now, turn))
  }

  ghost function CleanupRemoved(d: Disk, rows: seq<Row>, projects: seq<Listing>, times: seq<nat>,
                                turns: nat -> Turn): set<RelPath>
    requires |times| == |projects|
  {
    set p | p in d.names && CleanupRemoves(d, rows, projects, times, turns, p)
  }

  /** The disk after a cleanup: exactly the files that some turn removes have lost their names. */
  ghost function FilesCleaned(d: Disk, rows: seq<Row>, projects: seq<Listing>, times: seq<nat>,
                              turns: nat -> Turn): Disk
    requires |times| == |projects|
  {
    d.(names := d.names - CleanupRemoved(d, rows, projects, times, turns))
  }

  /** What a turn does to the files, put together from looking at its paths. */
  lemma {:induction false} FilesOfTurn(d: Disk, rows: seq<Row>, project: Listing, now: nat, turn: Turn)
    ensures !Deletes(project, now, turn) ==> FilesAfterTurn(d, rows, project, now, turn) == d
    ensures Deletes(project, now, turn) ==>
              var cutoff := Cutoff(now, project.days).value;
              var paths := ExpiredPaths(rows, project.id, cutoff);
              FilesAfterTurn(d, rows, project, now, turn)
              == FilesAfter(d, paths, Kept(rows, project.id, cutoff), project.id, now, turn.checks, |paths|)
  {
    if !Deletes(project, now, turn) {
      assert TurnRemoved(d, rows, project, now, turn) == {};
    }
  }

  lemma {:induction false} FilesCleanedNone(d: Disk, rows: seq<Row>, turns: nat -> Turn)
    ensures FilesCleaned(d, rows, [], [], turns) == d
  {
    assert CleanupRemoved(d, rows, [], [], turns) == {};
  }

  /** A path goes by the end of a turn when it had gone before it or goes in it. */
  lemma {:induction false} RemovedByTurn(d: Disk, rows: seq<Row>, projects: seq<Listing>, i: nat, times: seq<nat>,
                                         now: nat, turns: nat -> Turn, e: Disk, p: RelPath)
    requires i < |projects| && |times| == i && p in d.names
    requires e.inodes == d.inodes && (p in e.names <==> !CleanupRemoves(d, rows, projects[..i], times, turns, p))
    requires p in e.names ==> e.names[p] == d.names[p]
    ensures p in CleanupRemoved(d, rows, projects[..i + 1], times + [now], turns)
       <==> p in CleanupRemoved(d, rows, projects[..i], times, turns)
            || p in TurnRemoved(e, CleanedUp(rows, projects[..i], times, turns), projects[i], now, turns(i))
  {
    RemovesNext(d, rows, projects, i, times, now, turns, p);
    if p in e.names {
      TurnRemovesSame(d, e, CleanedUp(rows, projects[..i], times, turns), projects[i], now, turns(i), p);
    }
  }

  lemma {:induction false} MinusTwice(names: map<RelPath, nat>, first: set<RelPath>, second: set<RelPath>,
                                      all: set<RelPath>)
    requires forall p :: p in names ==> (p in all <==> p in first || p in second)
    ensures names - all == names - first - second
  {
  }

  lemma {:induction false} FilesCleanedNext(d: Disk, rows: seq<Row>, projects: seq<Listing>, i: nat, times: seq<nat>,
                                            now: nat, turns: nat -> Turn, e: Disk)
    requires i < |projects| && |times| == i && e == FilesCleaned(d, rows, projects[..i], times, turns)
    ensures FilesCleaned(d, rows, projects[..i + 1], times + [now], turns)
         == FilesAfterTurn(e, CleanedUp(rows, projects[..i], times, turns), projects[i], now, turns(i))
  {
    var before := CleanedUp(rows, projects[..i], times, turns);
    forall p | p in d.names
      ensures p in CleanupRemoved(d, rows, projects[..i + 1], times + [now], turns)
         <==> p in CleanupRemoved(d, rows, projects[..i], times, turns)
              || p in TurnRemoved(e, before, projects[i], now, turns(i))
    {
      RemovedByTurn(d, rows, projects, i, times, now, turns, e, p);
    }
    MinusTwice(d.names, CleanupRemoved(d, rows, projects[..i], times, turns),
               TurnRemoved(e, before, projects[i], now, turns(i)),
               CleanupRemoved(d, rows, projects[..i + 1], times + [now], turns));
  }

  lemma {:induction false} RemovesNext(d: Disk, rows: seq<Row>, projects: seq<Listing>, i: nat, times: seq<nat>,
                                       now: nat, turns: nat -> Turn, p: RelPath)
    requires i < |projects| && |times| == i
    ensures CleanupRemoves(d, rows, projects[..i + 1], times + [now], turns, p)
       <==> CleanupRemoves(d, rows, projects[..i], times, turns, p)
            || TurnRemoves(d, CleanedUp(rows, projects[..i], times, turns), projects[i], now, turns(i), p)
  {
    var ps, ts := projects[..i + 1], times + [now];
    forall k: nat | k < |ps|
      ensures ps[..k] == projects[..k] && ts[..k] == times[..k]
      ensures k < i ==> projects[..i][..k] == projects[..k] && ps[k] == projects[..i][k] && ts[k] == times[k]
    {
    }
    assert times[..i] == times;
    if CleanupRemoves(d, rows, projects[..i], times, turns, p) {
      var k: nat :| k < i && TurnRemoves(d, CleanedUp(rows, projects[..i][..k], times[..k], turns), projects[..i][k],
                                         times[k], turns(k), p);
      assert TurnRemoves(d, CleanedUp(rows, ps[..k], ts[..k], turns), ps[k], ts[k], turns(k), p);
    }
    if TurnRemoves(d, CleanedUp(rows, projects[..i], times, turns), projects[i], now, turns(i), p) {
      assert TurnRemoves(d, CleanedUp(rows, ps[..i], ts[..i], turns), ps[i], ts[i], turns(i), p);
    }
  }

  /** A file that goes in a cleanup was referred to by a record that expired in it. */
  lemma {:induction false} RemovedWasExpired(d: Disk, rows: seq<Row>, projects: seq<Listing>, times: seq<nat>,
                                             turns: nat -> Turn, p: RelPath)
    requires |times| == |projects| && CleanupRemoves(d, rows, projects, times, turns, p)
    ensures exists r :: r in rows && r.rec.filePath == Some(p) && r !in CleanedUp(rows, projects, times, turns)
  {
    var k: nat :| k < |projects|
      && TurnRemoves(d, CleanedUp(rows, projects[..k], times[..k], turns), projects[k], times[k], turns(k), p);
    var before := CleanedUp(rows, projects[..k], times[..k], turns);
    var cutoff := Cutoff(times[k], projects[k].days).value;
    var paths := ExpiredPaths(before, projects[k].id, cutoff);
    var j: nat :| j < |paths|
      && RemovesAt(d, paths, Kept(before, projects[k].id, cutoff), projects[k].id, times[k], turns(k).checks, j, p);
    assert paths[j] in paths;
    ExpiredPathsMembers(before, projects[k].id, cutoff);
    var r :| r in before && Expired(r, projects[k].id, cutoff) && r.rec.filePath == Some(p);
    CleanedUpMembers(rows, projects[..k], times[..k], turns);
    CleanedUpMembers(rows, projects, times, turns);
    assert ExpiresIn(r, projects[k], times[k], turns(k));
  }
}
