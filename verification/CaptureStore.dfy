/** The capture index: an ordered table with atomic batch inserts, cursor queries and retention deletes. */
module CaptureStore {
  import opened Sequences
  import opened Json
  import opened Calendar

  /** A capture file: one per project and hour of the server's clock. */
  datatype RelPath = RelPath(project: int, hour: nat)

  /** The columns the pipeline fills in; a skipped body has no file. */
  datatype Record = Record(
    requestId: string,
    projectId: int,
    publicModelName: string,
    stream: bool,
    statusCode: int,
    bodySkipped: bool,
    filePath: Option<RelPath>,
    fileOffset: nat,
    requestSize: nat,
    responseSize: nat)

  datatype Row = Row(id: nat, rec: Record, createdAt: Instant)

  predicate Ascending(rows: seq<Row>) {
    forall i, j :: 0 <= i < j < |rows| ==> rows[i].id < rows[j].id
  }

  predicate PositiveIds(rows: seq<Row>) {
    forall i :: 0 <= i < |rows| ==> rows[i].id > 0
  }

  // Queries

  datatype Filter = Filter(
    since: Option<Instant>,
    until: Option<Instant>,
    stream: Option<bool>,
    model: string,
    statusCode: Option<int>)

  /** One conjunct of a `WHERE` clause, with its argument. */
  datatype Condition =
    | ProjectIs(project: int)
    | IdAbove(cursor: int)
    | CreatedFrom(text: string)
    | CreatedUpTo(text: string)
    | StreamIs(flag: bool)
    | ModelIs(model: string)
    | StatusIs(status: int)

  predicate Holds(c: Condition, row: Row) {
    match c
    case ProjectIs(project) => row.rec.projectId == project
    case IdAbove(cursor) => row.id > cursor
    case CreatedFrom(text) => !TextLess(StoredText(row.createdAt), text)
    case CreatedUpTo(text) => TextLess(StoredText(row.createdAt), text) || StoredText(row.createdAt) == text
    case StreamIs(flag) => row.rec.stream == flag
    case ModelIs(model) => row.rec.publicModelName == model
    case StatusIs(status) => row.rec.statusCode == status
  }

  function SinceConditions(f: Filter): seq<Condition> {
    if f.since == None then [] else [CreatedFrom(BoundText(f.since.value))]
  }

  function UntilConditions(f: Filter): seq<Condition> {
    if f.until == None then [] else [CreatedUpTo(BoundText(f.until.value))]
  }

  function StreamConditions(f: Filter): seq<Condition> {
    if f.stream == None then [] else [StreamIs(f.stream.value)]
  }

  function ModelConditions(f: Filter): seq<Condition> {
    if f.model == "" then [] else [ModelIs(f.model)]
  }

  function StatusConditions(f: Filter): seq<Condition> {
    if f.statusCode == None then [] else [StatusIs(f.statusCode.value)]
  }

  function FilterConditions(f: Filter): seq<Condition> {
    SinceConditions(f) + (UntilConditions(f) + (StreamConditions(f) + (ModelConditions(f) + StatusConditions(f))))
  }

  function ListConditions(project: int, cursor: int, f: Filter): seq<Condition> {
    [ProjectIs(project)] + (if cursor > 0 then [IdAbove(cursor)] else []) + FilterConditions(f)
  }

  function CountConditions(project: int, f: Filter): seq<Condition> {
    [ProjectIs(project)] + FilterConditions(f)
  }

  predicate AllHold(cs: seq<Condition>, row: Row) {
    forall k :: 0 <= k < |cs| ==> Holds(cs[k], row)
  }

  function Select(rows: seq<Row>, cs: seq<Condition>): seq<Row> {
    if rows == [] then []
    else if AllHold(cs, rows[0]) then [rows[0]] + Select(rows[1..], cs)
    else Select(rows[1..], cs)
  }

  function Limit(rows: seq<Row>, n: nat): (page: seq<Row>)
    ensures |page| <= n && page <= rows
    ensures |page| < n ==> page == rows
  {
    if |rows| <= n then rows else rows[..n]
  }

  function ListAfterCursor(table: seq<Row>, project: int, cursor: int, pageSize: nat, f: Filter): seq<Row> {
    Limit(Select(table, ListConditions(project, cursor, f)), pageSize)
  }

  function CountByProjectFiltered(table: seq<Row>, project: int, f: Filter): nat {
    |Select(table, CountConditions(project, f))|
  }

  function CountByProject(table: seq<Row>, project: int): nat {
    |Select(table, [ProjectIs(project)])|
  }

  /**
   What a filter asks for. Its two bounds are compared by UTC day and not by instant: a record
   of the day of `since` is left out altogether, one of the day of `until` is let in whatever its time.
   */
  predicate Wanted(row: Row, project: int, f: Filter) {
    && row.rec.projectId == project
    && (f.since != None ==> row.createdAt / DAY > f.since.value / DAY)
    && (f.until != None ==> row.createdAt / DAY <= f.until.value / DAY)
    && (f.stream != None ==> row.rec.stream == f.stream.value)
    && (f.model != "" ==> row.rec.publicModelName == f.model)
    && (f.statusCode != None ==> row.rec.statusCode == f.statusCode.value)
  }

  lemma {:induction false} AllHoldAppend(a: seq<Condition>, b: seq<Condition>, row: Row)
    ensures AllHold(a + b, row) <==> AllHold(a, row) && AllHold(b, row)
  {
    if AllHold(a + b, row) {
      forall k | 0 <= k < |a| ensures Holds(a[k], row) { assert (a + b)[k] == a[k]; }
      forall k | 0 <= k < |b| ensures Holds(b[k], row) { assert (a + b)[|a| + k] == b[k]; }
    }
  }

  lemma {:induction false} HoldsOne(c: Condition, row: Row)
    ensures AllHold([c], row) <==> Holds(c, row)
  {
    assert [c][0] == c;
  }

  lemma {:induction false} SinceHolds(row: Row, f: Filter)
    ensures AllHold(SinceConditions(f), row) <==> f.since != None ==> row.createdAt / DAY > f.since.value / DAY
  {
    if f.since != None {
      HoldsOne(CreatedFrom(BoundText(f.since.value)), row);
      TextComparesDays(row.createdAt, f.since.value);
    }
  }

  lemma {:induction false} UntilHolds(row: Row, f: Filter)
    ensures AllHold(UntilConditions(f), row) <==> f.until != None ==> row.createdAt / DAY <= f.until.value / DAY
  {
    if f.until != None {
      HoldsOne(CreatedUpTo(BoundText(f.until.value)), row);
      TextComparesDays(row.createdAt, f.until.value);
    }
  }

  lemma {:induction false} ValuesHold(row: Row, f: Filter)
    ensures AllHold(StreamConditions(f), row) <==> f.stream != None ==> row.rec.stream == f.stream.value
    ensures AllHold(ModelConditions(f), row) <==> f.model != "" ==> row.rec.publicModelName == f.model
    ensures AllHold(StatusConditions(f), row) <==> f.statusCode != None ==> row.rec.statusCode == f.statusCode.value
  {
    if f.stream != None { HoldsOne(StreamIs(f.stream.value), row); }
    if f.model != "" { HoldsOne(ModelIs(f.model), row); }
    if f.statusCode != None { HoldsOne(StatusIs(f.statusCode.value), row); }
  }

  lemma {:induction false} FilterHolds(row: Row, f: Filter)
    ensures AllHold(FilterConditions(f), row) <==> Wanted(row, row.rec.projectId, f)
  {
    var d := ModelConditions(f) + StatusConditions(f);
    var c := StreamConditions(f) + d;
    AllHoldAppend(SinceConditions(f), UntilConditions(f) + c, row);
    AllHoldAppend(UntilConditions(f), c, row);
    AllHoldAppend(StreamConditions(f), d, row);
    AllHoldAppend(ModelConditions(f), StatusConditions(f), row);
    SinceHolds(row, f);
    UntilHolds(row, f);
    ValuesHold(row, f);
  }

  /** The list query selects the wanted rows beyond the cursor, the count query all wanted rows. */
  lemma {:induction false} ConditionsMean(row: Row, project: int, cursor: int, f: Filter)
    requires row.id > 0
    ensures AllHold(ListConditions(project, cursor, f), row) <==> Wanted(row, project, f) && row.id > cursor
    ensures AllHold(CountConditions(project, f), row) <==> Wanted(row, project, f)
  {
    FilterHolds(row, f);
    var p, c, fs := [ProjectIs(project)], if cursor > 0 then [IdAbove(cursor)] else [], FilterConditions(f);
    AllHoldAppend(p, fs, row);
    AllHoldAppend(p, c, row);
    AllHoldAppend(p + c, fs, row);
    HoldsOne(p[0], row);
    if cursor > 0 {
      HoldsOne(c[0], row);
    }
  }

  /** A record stored at any time of the day of `since` is not listed, however long after it; with no `since` it is. */
  lemma {:induction false} SinceLeavesOutItsDay(row: Row, since: Instant)
    requires row.id > 0 && row.createdAt / DAY == since / DAY
    ensures ListAfterCursor([row], row.rec.projectId, 0, 50, Filter(Some(since), None, None, "", None)) == []
    ensures ListAfterCursor([row], row.rec.projectId, 0, 50, Filter(None, None, None, "", None)) == [row]
  {
    ListOne(row, Filter(Some(since), None, None, "", None));
    ListOne(row, Filter(None, None, None, "", None));
  }

  lemma {:induction false} ListOne(row: Row, f: Filter)
    requires row.id > 0
    ensures ListAfterCursor([row], row.rec.projectId, 0, 50, f)
         == if Wanted(row, row.rec.projectId, f) then [row] else []
  {
    ConditionsMean(row, row.rec.projectId, 0, f);
    assert [row][1..] == [] && Select([], ListConditions(row.rec.projectId, 0, f)) == [];
  }

  lemma {:induction false} SelectMembers(rows: seq<Row>, cs: seq<Condition>)
    ensures forall r :: r in Select(rows, cs) <==> r in rows && AllHold(cs, r)
    ensures Ascending(rows) ==> Ascending(Select(rows, cs))
  {
    if rows != [] {
      SelectMembers(rows[1..], cs);
      assert forall r :: r in rows <==> r == rows[0] || r in rows[1..];
      assert Ascending(rows) ==> Ascending(rows[1..]);
      if Ascending(rows) && AllHold(cs, rows[0]) {
        var rest := Select(rows[1..], cs);
        forall j | 0 <= j < |rest| ensures rows[0].id < rest[j].id {
          assert rest[j] in rows[1..];
        }
      }
    }
  }

  lemma {:induction false} SelectAppend(a: seq<Row>, b: seq<Row>, cs: seq<Condition>)
    ensures Select(a + b, cs) == Select(a, cs) + Select(b, cs)
  {
    if a == [] {
      assert a + b == b;
    } else {
      SelectAppend(a[1..], b, cs);
      HeadOfAppend(a, b);
      Associate([a[0]], Select(a[1..], cs), Select(b, cs));
    }
  }

  // Inserts

  function RowsFrom(records: seq<Record>, times: seq<Instant>, firstId: nat): (rows: seq<Row>)
    requires |times| == |records|
    ensures |rows| == |records|
    ensures forall k :: 0 <= k < |rows| ==> rows[k] == Row(firstId + k, records[k], times[k])
  {
    if records == [] then []
    else [Row(firstId, records[0], times[0])] + RowsFrom(records[1..], times[1..], firstId + 1)
  }

  /** The positions of a project's rows. */
  function RowsOf(rows: seq<Row>, project: int): set<nat> {
    set k: nat | k < |rows| && rows[k].rec.projectId == project
  }

  predicate NoRowOf(rows: seq<Row>, project: int) {
    forall k :: 0 <= k < |rows| ==> rows[k].rec.projectId != project
  }

  lemma {:induction false} CountLast(front: seq<Row>, row: Row, project: int)
    ensures CountByProject(front + [row], project)
         == CountByProject(front, project) + if row.rec.projectId == project then 1 else 0
  {
    SelectAppend(front, [row], [ProjectIs(project)]);
    HoldsOne(ProjectIs(project), row);
    assert [row][1..] == [] && Select([row][1..], [ProjectIs(project)]) == [];
  }

  /** The count of a project is the number of its rows, and zero exactly when it has none. */
  lemma {:induction false} CountIsRows(rows: seq<Row>, project: int)
    ensures CountByProject(rows, project) == |RowsOf(rows, project)|
    ensures CountByProject(rows, project) == 0 <==> NoRowOf(rows, project)
  {
    if rows == [] {
      assert RowsOf(rows, project) == {};
    } else {
      var n := |rows| - 1;
      var front, last := rows[..n], [rows[n]];
      CountIsRows(front, project);
      CountLast(front, rows[n], project);
      assert rows == front + last;
      assert RowsOf(rows, project)
          == RowsOf(front, project) + if rows[n].rec.projectId == project then {n} else {};
      assert forall k :: 0 <= k < n ==> rows[k] == front[k];
    }
  }

  /** Whether a batch of `n` records is committed when statement `fault` fails. */
  predicate Commits(n: nat, fault: nat) {
    n == 0 || fault > n + 2
  }

  class Store {
    var table: seq<Row>
    var nextId: nat

    ghost predicate Valid()
      reads this
    {
      Ascending(table) && nextId > 0 && forall i :: 0 <= i < |table| ==> 0 < table[i].id < nextId
    }

    constructor ()
      ensures Valid() && table == [] && nextId == 1
    {
      table, nextId := [], 1;
    }

    /**
     One transaction. `fault` is the statement of it that fails, counting from 0: begin, prepare, one execution for
     each record and the commit; a larger number means that none fails. If one fails nothing has happened.
     */
    method InsertBatch(records: seq<Record>, times: seq<Instant>, fault: nat) returns (ok: bool)
      requires Valid() && |times| == |records|
      modifies this
      ensures Valid()
      ensures ok == Commits(|records|, fault)
      ensures ok ==> table == old(table) + RowsFrom(records, times, old(nextId))
      ensures ok ==> nextId == old(nextId) + |records|
      ensures !ok ==> table == old(table) && nextId == old(nextId)
    {
      if |records| == 0 {
        return true;
      }
      if fault < 2 {
        return false;
      }
      ghost var rows := RowsFrom(records, times, nextId);
      var inserted: seq<Row> := [];
      for i := 0 to |records|
        invariant inserted == rows[..i]
        invariant fault >= i + 2
      {
        if fault == i + 2 {
          return false;
        }
        inserted := inserted + [Row(nextId + i, records[i], times[i])];
      }
      if fault == |records| + 2 {
        return false;
      }
      table, nextId := table + inserted, nextId + |records|;
      return true;
    }

    /** The number of a project's records; 0 as well when the query is not answered. */
    method CountOf(project: int, answers: bool) returns (count: nat)
      ensures answers ==> count == CountByProject(table, project) == |RowsOf(table, project)|
      ensures answers ==> (count == 0 <==> NoRowOf(table, project))
      ensures !answers ==> count == 0
    {
      count := 0;
      if answers {
        count := CountByProject(table, project);
        CountIsRows(table, project);
      }
    }

    /**
     Deletes a project's records from before a moment; the paths they referred to come back once each. Either of
     the two queries may fail: when it is the second, the paths are there and the records too.
     */
    method DeleteByProjectBefore(project: int, before: Instant, selects: bool, deletes: bool)
      returns (ok: bool, paths: seq<Option<RelPath>>, deleted: nat)
      requires Valid()
      modifies this`table
      ensures Valid() && ok == (selects && deletes) && deleted == |old(table)| - |table|
      ensures ok ==> table == Kept(old(table), project, before)
      ensures ok ==> forall r :: r in table <==> r in old(table) && !Expired(r, project, before)
      ensures !ok ==> table == old(table)
      ensures paths == if selects then ExpiredPaths(old(table), project, before) else []
      ensures selects ==> Distinct(paths)
      ensures selects ==>
        forall p :: p in paths <==> exists r :: r in old(table) && Expired(r, project, before) && r.rec.filePath == p
    {
      paths, deleted := [], 0;
      if !selects {
        return false, paths, deleted;
      }
      paths := ExpiredPaths(table, project, before);
      ExpiredPathsDistinct(table, project, before);
      ExpiredPathsMembers(table, project, before);
      if !deletes {
        return false, paths, deleted;
      }
      var kept := Kept(table, project, before);
      KeptMembers(table, project, before);
      deleted := |table| - |kept|;
      forall i | 0 <= i < |kept| ensures 0 < kept[i].id < nextId { assert kept[i] in table; }
      table := kept;
      return true, paths, deleted;
    }
  }

  // Retention

  predicate Expired(row: Row, project: int, before: Instant) {
    row.rec.projectId == project && TextLess(StoredText(row.createdAt), BoundText(before))
  }

  function Kept(rows: seq<Row>, project: int, before: Instant): (kept: seq<Row>)
    ensures |kept| <= |rows|
  {
    if rows == [] then []
    else (if Expired(rows[0], project, before) then [] else [rows[0]]) + Kept(rows[1..], project, before)
  }

  function ExpiredPaths(rows: seq<Row>, project: int, before: Instant): seq<Option<RelPath>> {
    if rows == [] then []
    else
      var earlier := ExpiredPaths(rows[..|rows| - 1], project, before);
      var last := rows[|rows| - 1];
      if Expired(last, project, before) && last.rec.filePath !in earlier then earlier + [last.rec.filePath] else earlier
  }

  lemma {:induction false} KeptMembers(rows: seq<Row>, project: int, before: Instant)
    ensures forall r :: r in Kept(rows, project, before) <==> r in rows && !Expired(r, project, before)
    ensures Ascending(rows) ==> Ascending(Kept(rows, project, before))
  {
    if rows != [] {
      KeptMembers(rows[1..], project, before);
      assert forall r :: r in rows <==> r == rows[0] || r in rows[1..];
      assert Ascending(rows) ==> Ascending(rows[1..]);
      if Ascending(rows) {
        var rest := Kept(rows[1..], project, before);
        forall j | 0 <= j < |rest| ensures rows[0].id < rest[j].id {
          assert rest[j] in rows[1..];
        }
      }
    }
  }

  predicate Distinct<T(==)>(items: seq<T>) {
    forall i, j :: 0 <= i < j < |items| ==> items[i] != items[j]
  }

  lemma {:induction false} ExpiredPathsDistinct(rows: seq<Row>, project: int, before: Instant)
    ensures Distinct(ExpiredPaths(rows, project, before))
  {
    if rows != [] {
      ExpiredPathsDistinct(rows[..|rows| - 1], project, before);
    }
  }

  /** The returned paths are those of the deleted rows. */
  lemma {:induction false} ExpiredPathsMembers(rows: seq<Row>, project: int, before: Instant)
    ensures forall p :: p in ExpiredPaths(rows, project, before)
              <==> exists r :: r in rows && Expired(r, project, before) && r.rec.filePath == p
  {
    if rows != [] {
      var front, last := rows[..|rows| - 1], rows[|rows| - 1];
      ExpiredPathsMembers(front, project, before);
      assert forall r :: r in rows <==> r in front || r == last;
      var paths := ExpiredPaths(rows, project, before);
      forall p | p in paths
        ensures exists r :: r in rows && Expired(r, project, before) && r.rec.filePath == p
      {
        if p !in ExpiredPaths(front, project, before) {
          assert last in rows;
        } else {
          var r :| r in front && Expired(r, project, before) && r.rec.filePath == p;
          assert r in rows;
        }
      }
    }
  }

  /**
   With `days` of retention a cleanup removes every record of age `days` times 24 hours or more, and
   none of a day less; between the two it depends on the UTC dates alone.
   */
  lemma {:induction false} RetentionBound(row: Row, project: int, days: nat, now: nat, cutoff: Instant)
    requires row.rec.projectId == project && cutoff + days * DAY == now
    ensures Expired(row, project, cutoff) <==> row.createdAt / DAY <= cutoff / DAY
    ensures now - row.createdAt >= days * DAY ==> Expired(row, project, cutoff)
    ensures now - row.createdAt <= days * DAY - DAY ==> !Expired(row, project, cutoff)
  {
    TextComparesDays(row.createdAt, cutoff);
  }
}
