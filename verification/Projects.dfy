/** The table of projects: the retention of each, and the list that a cleanup works on. */
module Projects {
  import opened Json
  import opened Calendar
  import ProjectCache

  /** A project of the list, with the retention it had when the list was made. */
  datatype Listing = Listing(id: int, days: int)

  /** The retention of every project ever created, `None` once it is deleted; identifiers are positions from 1 on. */
  type Retentions = seq<Option<int>>

  predicate Live(rs: Retentions, id: int) {
    1 <= id <= |rs| && rs[id - 1] != None
  }

  /** The project is deleted, or has an identifier that no project will ever have. */
  predicate Gone(rs: Retentions, id: int) {
    id < 1 || (id <= |rs| && rs[id - 1] == None)
  }

  /** A new project's negative retention is replaced, a changed one's is not. */
  function CreatedDays(days: int): int {
    if days < 0 then 30 else days
  }

  function Updated(rs: Retentions, id: int, days: int): Retentions {
    if Live(rs, id) then rs[id - 1 := Some(days)] else rs
  }

  /** A deleted project keeps its row. */
  function Deleted(rs: Retentions, id: int): Retentions {
    if Live(rs, id) then rs[id - 1 := None] else rs
  }

  /** The projects that are not deleted and have a retention. */
  function Listed(rs: Retentions): seq<Listing> {
    if rs == [] then []
    else
      var n := |rs| - 1;
      Listed(rs[..n]) + if rs[n] != None && rs[n].value > 0 then [Listing(n + 1, rs[n].value)] else []
  }

  lemma {:induction false} ListedMembers(rs: Retentions)
    ensures forall l :: l in Listed(rs) <==> Live(rs, l.id) && rs[l.id - 1] == Some(l.days) && l.days > 0
  {
    if rs != [] {
      var n := |rs| - 1;
      ListedMembers(rs[..n]);
      forall l
        ensures l in Listed(rs) <==> Live(rs, l.id) && rs[l.id - 1] == Some(l.days) && l.days > 0
      {
        assert l in Listed(rs) <==>
               l in Listed(rs[..n]) || (rs[n] != None && rs[n].value > 0 && l == Listing(n + 1, rs[n].value));
      }
    }
  }

  // Cutoffs

  const NANOS_PER_SECOND: int := 1_000_000_000

  const NANOS_PER_DAY: int := 86_400_000_000_000

  /** The longest retention whose nanoseconds fit 64 bits. */
  const MAX_DAYS: int := 106_751

  /** No 64-bit number of nanoseconds stands for more seconds. */
  const LONGEST: int := 9_223_372_037

  /** A 64-bit integer after an overflow. */
  function Wrap(n: int): int {
    (n + 0x8000_0000_0000_0000) % 0x1_0000_0000_0000_0000 - 0x8000_0000_0000_0000
  }

  /** What is added to the time, in whole seconds, to get from a retention to its cutoff. */
  function Shift(days: int): int {
    Wrap(-days * NANOS_PER_DAY) / NANOS_PER_SECOND
  }

  /** A cutoff lies the retention before now exactly for retentions up to 292 years. */
  lemma {:induction false} ShiftIsDays(days: int)
    ensures Shift(days) == -days * DAY <==> -MAX_DAYS <= days <= MAX_DAYS
    ensures -LONGEST <= Shift(days) <= LONGEST
  {
    var nanos := -days * NANOS_PER_DAY;
    assert nanos == -days * DAY * NANOS_PER_SECOND;
    if -MAX_DAYS <= days <= MAX_DAYS {
      assert Wrap(nanos) == nanos;
    }
  }

  /** Where the cutoff of a retention lies, if in the years that the index's texts can express. */
  function Cutoff(now: nat, days: int): (cutoff: Option<Instant>)
    ensures cutoff != None ==> cutoff.value == now + Shift(days)
  {
    var t := now + Shift(days);
    if 0 <= t && Representable(t) then Some(t) else None
  }

  // The table

  function RetentionsOf(rows: seq<Option<ProjectCache.Project>>): (rs: Retentions)
    ensures |rs| == |rows|
    ensures forall k :: 0 <= k < |rs| ==>
              rs[k] == if rows[k] == None then None else Some(rows[k].value.retentionDays)
  {
    seq(|rows|, (k: nat) requires k < |rows| => if rows[k] == None then None else Some(rows[k].value.retentionDays))
  }

  function Clamped(rate: real): real {
    if rate < 0.0 then 0.0 else if rate > 1.0 then 1.0 else rate
  }

  /** The rows of the projects, `None` for a deleted one. */
  class ProjectService {
    var rows: seq<Option<ProjectCache.Project>>

    ghost predicate Valid()
      reads this
    {
      forall k :: 0 <= k < |rows| && rows[k] != None ==> rows[k].value.id == k + 1
    }

    constructor ()
      ensures Valid() && rows == []
    {
      rows := [];
    }

    method Create(p: ProjectCache.Project) returns (id: int)
      requires Valid()
      modifies this
      ensures Valid() && id == old(|rows|) + 1 && Live(RetentionsOf(rows), id)
      ensures RetentionsOf(rows)
           == RetentionsOf(old(rows)) + [Some(if p.retentionDays < 0 then 30 else p.retentionDays)]
      ensures |rows| == |old(rows)| + 1 && rows[..|old(rows)|] == old(rows) && rows[|old(rows)|] != None
      ensures var q := rows[|old(rows)|].value;
              q.captureEnabled == p.captureEnabled
              && q.sampleRate == if p.sampleRate < 0.0 then 0.0 else if p.sampleRate > 1.0 then 1.0 else p.sampleRate
    {
      id := |rows| + 1;
      var days := if p.retentionDays < 0 then 30 else p.retentionDays;
      rows := rows + [Some(p.(id := id, sampleRate := Clamped(p.sampleRate), retentionDays := days))];
    }

    method Update(id: int, p: ProjectCache.Project)
      requires Valid()
      modifies this
      ensures Valid() && RetentionsOf(rows) == Updated(RetentionsOf(old(rows)), id, p.retentionDays)
      ensures Live(RetentionsOf(old(rows)), id) ==>
        var q := rows[id - 1].value;
        q.captureEnabled == p.captureEnabled && q.retentionDays == p.retentionDays
        && q.sampleRate == if p.sampleRate < 0.0 then 0.0 else if p.sampleRate > 1.0 then 1.0 else p.sampleRate
      ensures |rows| == |old(rows)| && forall k :: 0 <= k < |rows| && k != id - 1 ==> rows[k] == old(rows)[k]
    {
      if 1 <= id <= |rows| && rows[id - 1] != None {
        rows := rows[id - 1 := Some(p.(id := id, sampleRate := Clamped(p.sampleRate)))];
      }
    }

    method Delete(id: int)
      requires Valid()
      modifies this
      ensures Valid() && RetentionsOf(rows) == Deleted(RetentionsOf(old(rows)), id)
      ensures |rows| == |old(rows)|
      ensures forall k :: 0 <= k < |rows| ==> rows[k] == if k == id - 1 then None else old(rows)[k]
    {
      if 1 <= id <= |rows| {
        rows := rows[id - 1 := None];
      }
    }

    /** The list a cleanup works on: exactly the projects not deleted that have a retention; nothing if it fails. */
    method ListWithRetention(answers: bool) returns (list: Option<seq<Listing>>)
      requires Valid()
      ensures list == if answers then Some(Listed(RetentionsOf(rows))) else None
      ensures answers ==> forall l :: l in list.value <==>
                1 <= l.id <= |rows| && rows[l.id - 1] != None
                && l.days == rows[l.id - 1].value.retentionDays && l.days > 0
    {
      if !answers {
        return None;
      }
      ghost var rs := RetentionsOf(rows);
      var listed := [];
      for i := 0 to |rows|
        invariant listed == Listed(rs[..i])
      {
        assert rs[..i + 1][..i] == rs[..i];
        if rows[i] != None && rows[i].value.retentionDays > 0 {
          listed := listed + [Listing(rows[i].value.id, rows[i].value.retentionDays)];
        }
      }
      assert rs[..|rows|] == rs;
      ListedMembers(rs);
      list := Some(listed);
    }
  }
}
