/** The export loop: pages through the index and writes out the lines that can be read. */
module CaptureExport {
  import opened Sequences
  import opened Lines
  import opened Json
  import opened CaptureStore
  import opened CapturePaging

  /** The lines an export finds; `None` for a record whose line cannot be read. */
  type LineReader = Row -> Option<Bytes>

  function IfReadable(row: Row, read: LineReader): seq<Row> {
    if read(row) == None then [] else [row]
  }

  function Readable(rows: seq<Row>, read: LineReader): seq<Row> {
    if rows == [] then []
    else IfReadable(rows[0], read) + Readable(rows[1..], read)
  }

  /** One past the last readable row, or 0. */
  function LastReadable(rows: seq<Row>, read: LineReader): (n: nat)
    ensures n <= |rows|
    ensures n > 0 ==> read(rows[n - 1]) != None
    ensures forall k :: n <= k < |rows| ==> read(rows[k]) == None
  {
    if rows == [] then 0
    else if read(rows[|rows| - 1]) != None then |rows|
    else LastReadable(rows[..|rows| - 1], read)
  }

  /** What is left to export after `rounds` rounds, when `rows` were left at first. */
  function Left(rows: seq<Row>, pageSize: nat, read: LineReader, rounds: nat): seq<Row>
    decreases rounds
  {
    if rounds == 0 then rows else Left(NextRows(rows, pageSize, read), pageSize, read, rounds - 1)
  }

  /** The cursor goes to the last readable record of the page and stays where it is when there is none. */
  function NextRows(rows: seq<Row>, pageSize: nat, read: LineReader): seq<Row> {
    rows[LastReadable(Limit(rows, pageSize), read)..]
  }

  function Exported(rows: seq<Row>, pageSize: nat, read: LineReader, rounds: nat): seq<Row>
    decreases rounds
  {
    if rounds == 0 then []
    else Readable(Limit(rows, pageSize), read) + Exported(NextRows(rows, pageSize, read), pageSize, read, rounds - 1)
  }

  lemma {:induction false} ReadableAppend(a: seq<Row>, b: seq<Row>, read: LineReader)
    ensures Readable(a + b, read) == Readable(a, read) + Readable(b, read)
  {
    if a == [] {
      assert a + b == b;
    } else {
      var head, tail := a[0], a[1..];
      ReadableAppend(tail, b, read);
      ReadableCons(head, tail, read);
      ReadableCons(head, tail + b, read);
      assert a == [head] + tail;
      Associate([head], tail, b);
      Associate(IfReadable(head, read), Readable(tail, read), Readable(b, read));
    }
  }

  lemma {:induction false} ReadableCons(head: Row, tail: seq<Row>, read: LineReader)
    ensures Readable([head] + tail, read) == IfReadable(head, read) + Readable(tail, read)
  {
    assert ([head] + tail)[1..] == tail;
  }

  lemma {:induction false} ReadableNone(rows: seq<Row>, read: LineReader)
    requires forall k :: 0 <= k < |rows| ==> read(rows[k]) == None
    ensures Readable(rows, read) == []
  {
    if rows != [] {
      ReadableNone(rows[1..], read);
    }
  }

  lemma {:induction false} RoundExports(rows: seq<Row>, pageSize: nat, read: LineReader)
    ensures Readable(rows, read)
         == Readable(Limit(rows, pageSize), read) + Readable(NextRows(rows, pageSize, read), read)
  {
    var page := Limit(rows, pageSize);
    ReadableBeforeGap(rows, page, LastReadable(page, read), read);
  }

  lemma {:induction false} ReadableBeforeGap(rows: seq<Row>, page: seq<Row>, n: nat, read: LineReader)
    requires page <= rows && n <= |page| && forall k :: n <= k < |page| ==> read(page[k]) == None
    ensures Readable(rows, read) == Readable(page, read) + Readable(rows[n..], read)
  {
    var head, gap, rest := page[..n], page[n..], rows[n..];
    assert page == head + gap;
    assert rows == head + rest;
    ReadableAppend(head, rest, read);
    ReadableNone(gap, read);
    ReadableAppend(head, gap, read);
    assert Readable(head, read) + [] == Readable(head, read);
  }

  /** At every moment the exported records followed by the readable ones left are all the readable ones, in order. */
  lemma {:induction false} ExportInvariant(rows: seq<Row>, pageSize: nat, read: LineReader, rounds: nat)
    ensures Exported(rows, pageSize, read, rounds) + Readable(Left(rows, pageSize, read, rounds), read)
         == Readable(rows, read)
    decreases rounds
  {
    if rounds > 0 {
      RoundExports(rows, pageSize, read);
      ExportInvariant(NextRows(rows, pageSize, read), pageSize, read, rounds - 1);
    }
  }

  /** No record is followed by nothing but unreadable ones up to the end of a page's length or of the list. */
  predicate NoGap(rows: seq<Row>, pageSize: nat, read: LineReader) {
    forall i: nat {:trigger ReadableSoon(rows, pageSize, read, i)} ::
      i < |rows| && read(rows[i]) == None ==> ReadableSoon(rows, pageSize, read, i)
  }

  predicate ReadableSoon(rows: seq<Row>, pageSize: nat, read: LineReader, i: nat) {
    exists j :: i < j < |rows| && j < i + pageSize && read(rows[j]) != None
  }

  lemma {:induction false} RoundProgress(rows: seq<Row>, pageSize: nat, read: LineReader)
    requires pageSize > 0 && rows != [] && NoGap(rows, pageSize, read)
    ensures |NextRows(rows, pageSize, read)| < |rows|
    ensures NoGap(NextRows(rows, pageSize, read), pageSize, read)
  {
    var page := Limit(rows, pageSize);
    var n := LastReadable(page, read);
    if read(rows[0]) != None {
      assert page[0] == rows[0];
    } else {
      assert ReadableSoon(rows, pageSize, read, 0);
      var j :| 0 < j < |rows| && j < pageSize && read(rows[j]) != None;
      assert page[j] == rows[j];
    }
    assert n > 0;
    NoGapSuffix(rows, pageSize, read, n);
  }

  lemma {:induction false} NoGapSuffix(rows: seq<Row>, pageSize: nat, read: LineReader, n: nat)
    requires n <= |rows| && NoGap(rows, pageSize, read)
    ensures NoGap(rows[n..], pageSize, read)
  {
    forall i: nat | i < |rows[n..]| && read(rows[n..][i]) == None
      ensures ReadableSoon(rows[n..], pageSize, read, i)
    {
      assert ReadableSoon(rows, pageSize, read, n + i);
    }
  }

  lemma {:induction false} NoGapFinishes(rows: seq<Row>, pageSize: nat, read: LineReader, rounds: nat)
    requires pageSize > 0 && NoGap(rows, pageSize, read) && |rows| <= rounds
    ensures Left(rows, pageSize, read, rounds) == []
    decreases rounds
  {
    if rows == [] {
      LeftStaysEmpty([], pageSize, read, 0, rounds);
    } else {
      var next := NextAfterProgress(rows, pageSize, read, rounds);
      NoGapFinishes(next, pageSize, read, rounds - 1);
    }
  }

  lemma {:induction false} NextAfterProgress(rows: seq<Row>, pageSize: nat, read: LineReader, rounds: nat)
    returns (next: seq<Row>)
    requires pageSize > 0 && rows != [] && NoGap(rows, pageSize, read) && rounds > 0
    ensures |next| < |rows| && NoGap(next, pageSize, read)
    ensures Left(rows, pageSize, read, rounds) == Left(next, pageSize, read, rounds - 1)
  {
    next := NextRows(rows, pageSize, read);
    RoundProgress(rows, pageSize, read);
  }

  lemma {:induction false} LeftStaysEmpty(rows: seq<Row>, pageSize: nat, read: LineReader, m: nat, n: nat)
    requires m <= n && Left(rows, pageSize, read, m) == []
    ensures Left(rows, pageSize, read, n) == []
    decreases n
  {
    if m > 0 {
      LeftStaysEmpty(NextRows(rows, pageSize, read), pageSize, read, m - 1, n - 1);
    } else if n > 0 {
      LeftStaysEmpty(NextRows(rows, pageSize, read), pageSize, read, 0, n - 1);
    }
  }

  /** A gap is never passed: from some round on nothing is exported and the same page comes again. */
  lemma {:induction false} GapStaysLeft(rows: seq<Row>, pageSize: nat, read: LineReader, i: nat, rounds: nat)
    requires i < |rows| && read(rows[i]) == None && !ReadableSoon(rows, pageSize, read, i)
    ensures Left(rows, pageSize, read, rounds) != []
    decreases rounds
  {
    if rounds > 0 {
      var n := LastReadable(Limit(rows, pageSize), read);
      assert rows[n..][i - n] == rows[i];
      GapStaysLeft(rows[n..], pageSize, read, i - n, rounds - 1);
    }
  }

  /** On a table that does not change, a download comes to its end exactly when no gap lies ahead of it. */
  lemma {:induction false} DownloadEndsIffNoGap(rows: seq<Row>, pageSize: nat, read: LineReader)
    requires pageSize > 0
    ensures (exists rounds :: Left(rows, pageSize, read, rounds) == []) <==> NoGap(rows, pageSize, read)
  {
    if NoGap(rows, pageSize, read) {
      NoGapFinishes(rows, pageSize, read, |rows|);
    } else {
      var i: nat :| i < |rows| && read(rows[i]) == None && !ReadableSoon(rows, pageSize, read, i);
      forall rounds: nat
        ensures Left(rows, pageSize, read, rounds) != []
      {
        GapStaysLeft(rows, pageSize, read, i, rounds);
      }
    }
  }

  /** A last record that cannot be read is enough to keep a download going for ever. */
  lemma {:induction false} UnreadableTailNeverEnds(rows: seq<Row>, pageSize: nat, read: LineReader, rounds: nat)
    requires pageSize > 0 && rows != [] && read(rows[|rows| - 1]) == None
    ensures Left(rows, pageSize, read, rounds) != []
  {
    var i := |rows| - 1;
    assert !ReadableSoon(rows, pageSize, read, i);
    GapStaysLeft(rows, pageSize, read, i, rounds);
  }

  // Changing tables

  /** One round's view of the world: the table it queried and what it could read. */
  datatype Round = Round(table: seq<Row>, read: LineReader)

  function CursorAfter(page: seq<Row>, read: LineReader, cursor: int): int {
    var n := LastReadable(page, read);
    if n == 0 then cursor else page[n - 1].id
  }

  /** All the records a download exports over `rounds`, each of them on its own table and files. */
  function ExportRun(rounds: seq<Round>, project: int, cursor: int, pageSize: nat, f: Filter): seq<Row>
    decreases |rounds|
  {
    if rounds == [] then []
    else
      var page := ListAfterCursor(rounds[0].table, project, cursor, pageSize, f);
      Readable(page, rounds[0].read)
      + ExportRun(rounds[1..], project, CursorAfter(page, rounds[0].read, cursor), pageSize, f)
  }

  lemma {:induction false} ReadableMembers(rows: seq<Row>, read: LineReader)
    ensures forall r :: r in Readable(rows, read) ==> r in rows && read(r) != None
    ensures Ascending(rows) ==> Ascending(Readable(rows, read))
  {
    if rows != [] {
      ReadableMembers(rows[1..], read);
      assert forall r :: r in rows[1..] ==> r in rows;
      assert Ascending(rows) ==> Ascending(rows[1..]);
      if Ascending(rows) {
        var rest := Readable(rows[1..], read);
        forall j | 0 <= j < |rest| ensures rows[0].id < rest[j].id {
          assert rest[j] in rows[1..];
        }
      }
    }
  }

  /** The exported identifiers ascend, whatever subset of the records is unreadable and however the table changes. */
  lemma {:induction false} ExportAscends(rounds: seq<Round>, project: int, cursor: int, pageSize: nat, f: Filter)
    requires forall i :: 0 <= i < |rounds| ==> Ascending(rounds[i].table) && PositiveIds(rounds[i].table)
    ensures Ascending(ExportRun(rounds, project, cursor, pageSize, f))
    ensures forall r :: r in ExportRun(rounds, project, cursor, pageSize, f) ==> r.id > cursor && Wanted(r, project, f)
    decreases |rounds|
  {
    if rounds != [] {
      var table, read := rounds[0].table, rounds[0].read;
      var page := ListAfterCursor(table, project, cursor, pageSize, f);
      BeyondMembers(table, project, cursor, f);
      var next := CursorAfter(page, read, cursor);
      ReadableUpTo(page, read, cursor);
      ExportAscends(rounds[1..], project, next, pageSize, f);
    }
  }

  lemma {:induction false} ReadableUpTo(page: seq<Row>, read: LineReader, cursor: int)
    requires Ascending(page) && forall r :: r in page ==> r.id > cursor
    ensures Ascending(Readable(page, read))
    ensures forall r :: r in Readable(page, read) ==> r in page && r.id <= CursorAfter(page, read, cursor)
    ensures CursorAfter(page, read, cursor) >= cursor
  {
    ReadableMembers(page, read);
    var n := LastReadable(page, read);
    forall r | r in Readable(page, read)
      ensures r.id <= CursorAfter(page, read, cursor)
    {
      var i :| 0 <= i < |page| && page[i] == r;
      assert i < n;
    }
    if n > 0 {
      assert page[n - 1] in page;
    }
  }

  /** Where the cursor stands after `rounds`. */
  function CursorRun(rounds: seq<Round>, project: int, cursor: int, pageSize: nat, f: Filter): int
    decreases |rounds|
  {
    if rounds == [] then cursor
    else
      var page := ListAfterCursor(rounds[0].table, project, cursor, pageSize, f);
      CursorRun(rounds[1..], project, CursorAfter(page, rounds[0].read, cursor), pageSize, f)
  }

  /** A readable record up to where a page moves the cursor has been exported with the page. */
  lemma {:induction false} PageExports(table: seq<Row>, read: LineReader, project: int, cursor: int, pageSize: nat,
                                       f: Filter, page: seq<Row>, r: Row)
    requires Ascending(table) && PositiveIds(table) && page == ListAfterCursor(table, project, cursor, pageSize, f)
    requires r in table && Wanted(r, project, f) && r.id > cursor && read(r) != None
    requires r.id <= CursorAfter(page, read, cursor)
    ensures r in Readable(page, read)
  {
    var all := Beyond(table, project, cursor, f);
    BeyondMembers(table, project, cursor, f);
    var i :| 0 <= i < |all| && all[i] == r;
    var n := LastReadable(page, read);
    assert all[n - 1] == page[n - 1];
    assert page[i] == r;
    ReadableHas(page, read, i);
  }

  lemma {:induction false} ReadableHas(rows: seq<Row>, read: LineReader, i: nat)
    requires i < |rows| && read(rows[i]) != None
    ensures rows[i] in Readable(rows, read)
  {
    if i > 0 {
      ReadableHas(rows[1..], read, i - 1);
    }
  }

  /**
   A wanted record that is there and readable in every round has been exported once a round's page comes back empty.
   With `ExportAscends` it has been exported once.
   */
  lemma {:induction false} ExportCovers(rounds: seq<Round>, last: seq<Row>, project: int, cursor: int, pageSize: nat,
                                        f: Filter, r: Row)
    requires pageSize > 0 && Ascending(last) && PositiveIds(last) && r in last
    requires forall i :: 0 <= i < |rounds| ==>
               Ascending(rounds[i].table) && PositiveIds(rounds[i].table)
               && r in rounds[i].table && rounds[i].read(r) != None
    requires Wanted(r, project, f) && r.id > cursor
    requires ListAfterCursor(last, project, CursorRun(rounds, project, cursor, pageSize, f), pageSize, f) == []
    ensures r in ExportRun(rounds, project, cursor, pageSize, f)
    decreases |rounds|
  {
    if rounds == [] {
      BeyondMembers(last, project, cursor, f);
    } else {
      var table, read := rounds[0].table, rounds[0].read;
      var page := ListAfterCursor(table, project, cursor, pageSize, f);
      var next := CursorAfter(page, read, cursor);
      if r.id <= next {
        PageExports(table, read, project, cursor, pageSize, f, page, r);
      } else {
        ExportCovers(rounds[1..], last, project, next, pageSize, f, r);
      }
    }
  }

  // The text

  /** The lines of the rows that can be read. */
  function Printed(rows: seq<Row>, read: LineReader): Bytes {
    if rows == [] then [] else PrintedRow(rows[0], read) + Printed(rows[1..], read)
  }

  function PrintedRow(row: Row, read: LineReader): Bytes {
    if read(row) == None then [] else read(row).value + [LF]
  }

  /** The lines of the rows that can be read, one for each. */
  function LinesOf(rows: seq<Row>, read: LineReader): seq<Bytes> {
    if rows == [] then []
    else if read(rows[0]) == None then LinesOf(rows[1..], read)
    else [read(rows[0]).value] + LinesOf(rows[1..], read)
  }

  ghost predicate ReadsLines(read: LineReader) {
    forall row :: read(row) != None ==> '\n' !in read(row).value
  }

  /** The printed text splits back into the lines that were read, with nothing after the last line feed. */
  lemma {:induction false} PrintedSplits(rows: seq<Row>, read: LineReader)
    requires ReadsLines(read)
    ensures Split(Printed(rows, read)) == LinesOf(rows, read) + [""]
  {
    if rows != [] {
      PrintedSplits(rows[1..], read);
      if read(rows[0]) == None {
        assert [] + Printed(rows[1..], read) == Printed(rows[1..], read);
      } else {
        var line, rest := read(rows[0]).value, Printed(rows[1..], read);
        assert (line + [LF]) + rest == line + ([LF] + rest);
        SplitLine(line, rest);
        Associate([line], LinesOf(rows[1..], read), [""]);
      }
    }
  }

  lemma {:induction false} PrintedAppend(a: seq<Row>, b: seq<Row>, read: LineReader)
    ensures Printed(a + b, read) == Printed(a, read) + Printed(b, read)
  {
    if a == [] {
      assert a + b == b;
    } else {
      PrintedAppend(a[1..], b, read);
      HeadOfAppend(a, b);
      Associate(PrintedRow(a[0], read), Printed(a[1..], read), Printed(b, read));
    }
  }

  lemma {:induction false} PrintedReadable(rows: seq<Row>, read: LineReader)
    ensures Printed(Readable(rows, read), read) == Printed(rows, read)
  {
    if rows != [] {
      PrintedReadable(rows[1..], read);
      PrintedAppend(IfReadable(rows[0], read), Readable(rows[1..], read), read);
      assert [rows[0]][1..] == [] && Printed([], read) == [];
    }
  }

  function ExportText(rounds: seq<Round>, project: int, cursor: int, pageSize: nat, f: Filter): Bytes
    decreases |rounds|
  {
    if rounds == [] then []
    else
      var page := ListAfterCursor(rounds[0].table, project, cursor, pageSize, f);
      Printed(page, rounds[0].read)
      + ExportText(rounds[1..], project, CursorAfter(page, rounds[0].read, cursor), pageSize, f)
  }

  /** The lines of all rounds, in order. */
  function ExportLines(rounds: seq<Round>, project: int, cursor: int, pageSize: nat, f: Filter): seq<Bytes>
    decreases |rounds|
  {
    if rounds == [] then []
    else
      var page := ListAfterCursor(rounds[0].table, project, cursor, pageSize, f);
      LinesOf(page, rounds[0].read)
      + ExportLines(rounds[1..], project, CursorAfter(page, rounds[0].read, cursor), pageSize, f)
  }

  /** What an export has written, in however many rounds, splits back into the lines of the records it exported. */
  lemma {:induction false} ExportSplits(rounds: seq<Round>, project: int, cursor: int, pageSize: nat, f: Filter)
    requires forall i :: 0 <= i < |rounds| ==> ReadsLines(rounds[i].read)
    ensures Split(ExportText(rounds, project, cursor, pageSize, f))
         == ExportLines(rounds, project, cursor, pageSize, f) + [""]
    ensures |ExportLines(rounds, project, cursor, pageSize, f)| == |ExportRun(rounds, project, cursor, pageSize, f)|
    decreases |rounds|
  {
    if rounds != [] {
      var page, read := ListAfterCursor(rounds[0].table, project, cursor, pageSize, f), rounds[0].read;
      var next := CursorAfter(page, read, cursor);
      ExportSplits(rounds[1..], project, next, pageSize, f);
      PrintedSplits(page, read);
      LinesOfReadable(page, read);
      var text := ExportText(rounds[1..], project, next, pageSize, f);
      SplitConcat(Printed(page, read), text);
      assert Complete(Printed(page, read)) == LinesOf(page, read) && Open(Printed(page, read)) == "";
      assert "" + text == text;
      Associate(LinesOf(page, read), ExportLines(rounds[1..], project, next, pageSize, f), [""]);
    }
  }

  lemma {:induction false} LinesOfReadable(rows: seq<Row>, read: LineReader)
    ensures |LinesOf(rows, read)| == |Readable(rows, read)|
    ensures forall k :: 0 <= k < |LinesOf(rows, read)| ==> Some(LinesOf(rows, read)[k]) == read(Readable(rows, read)[k])
  {
    if rows != [] {
      LinesOfReadable(rows[1..], read);
    }
  }

  /** One round more. */
  lemma {:induction false} ExportSnoc(rounds: seq<Round>, round: Round, project: int, cursor: int, pageSize: nat,
                                      f: Filter, page: seq<Row>)
    requires page == ListAfterCursor(round.table, project, CursorRun(rounds, project, cursor, pageSize, f), pageSize, f)
    ensures ExportRun(rounds + [round], project, cursor, pageSize, f)
         == ExportRun(rounds, project, cursor, pageSize, f) + Readable(page, round.read)
    ensures ExportText(rounds + [round], project, cursor, pageSize, f)
         == ExportText(rounds, project, cursor, pageSize, f) + Printed(page, round.read)
    ensures CursorRun(rounds + [round], project, cursor, pageSize, f)
         == CursorAfter(page, round.read, CursorRun(rounds, project, cursor, pageSize, f))
    decreases |rounds|
  {
    if rounds == [] {
      assert rounds + [round] == [round] && [round][1..] == [];
      assert ExportRun([], project, 0, pageSize, f) == [];
    } else {
      var first, read := ListAfterCursor(rounds[0].table, project, cursor, pageSize, f), rounds[0].read;
      var next := CursorAfter(first, read, cursor);
      ExportSnoc(rounds[1..], round, project, next, pageSize, f, page);
      HeadOfAppend(rounds, [round]);
      Associate(Readable(first, read), ExportRun(rounds[1..], project, next, pageSize, f), Readable(page, round.read));
      Associate(Printed(first, read), ExportText(rounds[1..], project, next, pageSize, f), Printed(page, round.read));
    }
  }

  // The handler's loop

  datatype ExportMeta = ExportMeta(exported: nat, nextCursor: int, hasMore: bool)

  function LastId(rows: seq<Row>, cursor: int): int {
    if rows == [] then cursor else rows[|rows| - 1].id
  }

  lemma {:induction false} OneMoreRow(rows: seq<Row>, i: nat, read: LineReader, cursor: int)
    requires i < |rows|
    ensures Readable(rows[..i + 1], read) == if read(rows[i]) == None then Readable(rows[..i], read)
                                             else Readable(rows[..i], read) + [rows[i]]
    ensures Printed(rows[..i + 1], read) == Printed(rows[..i], read) + PrintedRow(rows[i], read)
    ensures CursorAfter(rows[..i + 1], read, cursor)
         == if read(rows[i]) == None then CursorAfter(rows[..i], read, cursor) else rows[i].id
  {
    assert rows[..i + 1] == rows[..i] + [rows[i]];
    assert rows[..i + 1][..i] == rows[..i];
    ReadableAppend(rows[..i], [rows[i]], read);
    assert Readable([rows[i]], read) == if read(rows[i]) == None then [] else [rows[i]];
    assert Readable(rows[..i], read) + [] == Readable(rows[..i], read);
    PrintedAppend(rows[..i], [rows[i]], read);
    assert [rows[i]][1..] == [] && Printed([rows[i]], read) == PrintedRow(rows[i], read) + [];
  }

  /** Writes the readable lines of one page, counts them and moves the cursor along. */
  method ExportPage(rows: seq<Row>, read: LineReader, written: Bytes, cursor: int, total: nat)
    returns (written': Bytes, cursor': int, total': nat)
    ensures written' == written + Printed(rows, read)
    ensures total' == total + |Readable(rows, read)|
    ensures cursor' == CursorAfter(rows, read, cursor)
  {
    written', cursor', total' := written, cursor, total;
    for i := 0 to |rows|
      invariant written' == written + Printed(rows[..i], read)
      invariant total' == total + |Readable(rows[..i], read)|
      invariant cursor' == CursorAfter(rows[..i], read, cursor)
    {
      OneMoreRow(rows, i, read, cursor);
      var line := read(rows[i]);
      if line != None {
        Associate(written, Printed(rows[..i], read), line.value + [LF]);
        written' := written' + (line.value + [LF]);
        total' := total' + 1;
        cursor' := rows[i].id;
      }
    }
    assert rows[..|rows|] == rows;
  }

  /** The page of a query, when the cursor stands where `rounds` have moved it. */
  function PageAfter(rounds: seq<Round>, round: Round, project: int, cursor: int, pageSize: nat, f: Filter): seq<Row> {
    ListAfterCursor(round.table, project, CursorRun(rounds, project, cursor, pageSize, f), pageSize, f)
  }

  /** The first queries were answered by `rounds`, each with a page that is not empty. */
  ghost predicate Brought(queries: seq<Option<Round>>, rounds: seq<Round>, project: int, cursor: int, pageSize: nat,
                          f: Filter) {
    && |rounds| <= |queries|
    && forall i :: 0 <= i < |rounds| ==>
         queries[i] == Some(rounds[i]) && PageAfter(rounds[..i], rounds[i], project, cursor, pageSize, f) != []
  }

  /** A query that is not answered, or whose page is empty, ends the loop. */
  ghost predicate Stops(query: Option<Round>, rounds: seq<Round>, project: int, cursor: int, pageSize: nat, f: Filter) {
    query.None? || PageAfter(rounds, query.value, project, cursor, pageSize, f) == []
  }

  lemma {:induction false} BroughtNext(queries: seq<Option<Round>>, rounds: seq<Round>, round: Round, project: int,
                                       cursor: int, pageSize: nat, f: Filter)
    requires Brought(queries, rounds, project, cursor, pageSize, f) && |rounds| < |queries|
    requires queries[|rounds|] == Some(round) && PageAfter(rounds, round, project, cursor, pageSize, f) != []
    ensures Brought(queries, rounds + [round], project, cursor, pageSize, f)
  {
    var more := rounds + [round];
    forall i | 0 <= i < |more|
      ensures queries[i] == Some(more[i]) && PageAfter(more[..i], more[i], project, cursor, pageSize, f) != []
    {
      assert more[..i] == rounds[..i];
      assert rounds[..|rounds|] == rounds;
    }
  }

  /** What has been written, how many records, and where the cursor stands, after `rounds`. */
  predicate Exporting(rounds: seq<Round>, project: int, cursor0: int, pageSize: nat, f: Filter, written: Bytes,
                      total: nat, cursor: int)
  {
    && cursor == CursorRun(rounds, project, cursor0, pageSize, f)
    && cursor == LastId(ExportRun(rounds, project, cursor0, pageSize, f), cursor0)
    && written == ExportText(rounds, project, cursor0, pageSize, f)
    && total == |ExportRun(rounds, project, cursor0, pageSize, f)|
  }

  lemma {:induction false} ExportingNext(rounds: seq<Round>, round: Round, project: int, cursor0: int, pageSize: nat,
                                         f: Filter, written: Bytes, total: nat, cursor: int, page: seq<Row>)
    requires Exporting(rounds, project, cursor0, pageSize, f, written, total, cursor)
    requires page == ListAfterCursor(round.table, project, cursor, pageSize, f)
    ensures Exporting(rounds + [round], project, cursor0, pageSize, f, written + Printed(page, round.read),
                      total + |Readable(page, round.read)|, CursorAfter(page, round.read, cursor))
  {
    CursorIsLastId(ExportRun(rounds, project, cursor0, pageSize, f), page, round.read, cursor0);
    ExportSnoc(rounds, round, project, cursor0, pageSize, f, page);
  }

  /**
   The export, as far as the given queries go: each sees the table and the files at its time, or is not answered. The
   first of them, `rounds`, bring a page each. The loop has ended when a query brought none, or after the first
   page if it is no download; otherwise it is still going when the given queries are used up.
   */
  method ExportCaptures(queries: seq<Option<Round>>, project: int, cursor0: int, pageSize: nat, f: Filter,
                        download: bool)
    returns (written: Bytes, meta: ExportMeta, ended: bool, ghost rounds: seq<Round>)
    ensures Brought(queries, rounds, project, cursor0, pageSize, f)
    ensures written == ExportText(rounds, project, cursor0, pageSize, f)
    ensures meta.exported == |ExportRun(rounds, project, cursor0, pageSize, f)|
    ensures meta.nextCursor == LastId(ExportRun(rounds, project, cursor0, pageSize, f), cursor0)
    ensures meta.hasMore == !download
    ensures !download ==> |rounds| <= 1
    ensures ended <==> (!download && |rounds| == 1)
                       || (|rounds| < |queries| && Stops(queries[|rounds|], rounds, project, cursor0, pageSize, f))
    ensures !ended ==> |rounds| == |queries|
  {
    var cursor, total := cursor0, 0;
    written, ended, rounds := [], false, [];
    for i := 0 to |queries|
      invariant |rounds| == i && !ended && (!download ==> i == 0)
      invariant Brought(queries, rounds, project, cursor0, pageSize, f)
      invariant Exporting(rounds, project, cursor0, pageSize, f, written, total, cursor)
    {
      if queries[i].None? {
        ended := true;
        break;
      }
      var round := queries[i].value;
      var rows := ListAfterCursor(round.table, project, cursor, pageSize, f);
      if |rows| == 0 {
        ended := true;
        break;
      }
      BroughtNext(queries, rounds, round, project, cursor0, pageSize, f);
      ExportingNext(rounds, round, project, cursor0, pageSize, f, written, total, cursor, rows);
      written, cursor, total := ExportPage(rows, round.read, written, cursor, total);
      rounds := rounds + [round];
      if !download {
        ended := true;
        break;
      }
    }
    meta := ExportMeta(total, cursor, !download);
  }

  lemma {:induction false} CursorIsLastId(sent: seq<Row>, page: seq<Row>, read: LineReader, cursor: int)
    ensures CursorAfter(page, read, LastId(sent, cursor)) == LastId(sent + Readable(page, read), cursor)
  {
    var n := LastReadable(page, read);
    if n > 0 {
      var head, last, gap := page[..n - 1], [page[n - 1]], page[n..];
      assert page == head + (last + gap);
      ReadableAppend(head, last + gap, read);
      ReadableAppend(last, gap, read);
      ReadableNone(gap, read);
      assert Readable(last, read) == last;
    } else {
      ReadableNone(page, read);
      assert sent + [] == sent;
    }
  }

  /** The query after a round finds what that round has left. */
  lemma {:induction false} CursorRound(table: seq<Row>, project: int, cursor: int, pageSize: nat, f: Filter,
                                       read: LineReader)
    requires Ascending(table) && PositiveIds(table)
    ensures var left := Beyond(table, project, cursor, f);
            Beyond(table, project, CursorAfter(Limit(left, pageSize), read, cursor), f)
            == NextRows(left, pageSize, read)
  {
    var left := Beyond(table, project, cursor, f);
    var rows := Limit(left, pageSize);
    var n := LastReadable(rows, read);
    if n > 0 {
      assert rows[n - 1] == left[n - 1];
      BeyondRow(table, project, cursor, f, n - 1);
    }
  }

  // A table that stays as it is

  /**
   A call without download always says that there is more. That is right exactly when a selected record lies behind the
   last readable one of the page, and so wrong on the last page, unless that ends with unreadable records.
   */
  lemma {:induction false} MoreIsRightIff(table: seq<Row>, project: int, cursor: int, pageSize: nat, f: Filter,
                                          read: LineReader)
    requires Ascending(table) && PositiveIds(table)
    ensures var rows := Beyond(table, project, cursor, f);
            var page := ListAfterCursor(table, project, cursor, pageSize, f);
            Beyond(table, project, CursorAfter(page, read, cursor), f) != [] <==> LastReadable(page, read) < |rows|
  {
    CursorRound(table, project, cursor, pageSize, f, read);
  }

  /** The page of the only record, which can be read, is the last one. */
  lemma {:induction false} NoMoreOnLastPage(row: Row, pageSize: nat, read: LineReader)
    requires row.id > 0 && read(row) != None && pageSize > 0
    ensures var page := ListAfterCursor([row], row.rec.projectId, 0, pageSize, NO_FILTER);
            page == [row] && Beyond([row], row.rec.projectId, CursorAfter(page, read, 0), NO_FILTER) == []
  {
    OnlyRow(row);
    MoreIsRightIff([row], row.rec.projectId, 0, pageSize, NO_FILTER, read);
  }

  function Same(round: Round, n: nat): (rounds: seq<Round>)
    ensures |rounds| == n
    ensures forall i :: 0 <= i < n ==> rounds[i] == round
  {
    if n == 0 then [] else [round] + Same(round, n - 1)
  }

  /** On a fixed table `n` rounds export what they do from the list of selected records, and leave what they do. */
  lemma {:induction false} FixedRounds(round: Round, n: nat, project: int, cursor: int, pageSize: nat, f: Filter)
    requires Ascending(round.table) && PositiveIds(round.table)
    ensures var rows := Beyond(round.table, project, cursor, f);
            ExportRun(Same(round, n), project, cursor, pageSize, f) == Exported(rows, pageSize, round.read, n)
            && Beyond(round.table, project, CursorRun(Same(round, n), project, cursor, pageSize, f), f)
               == Left(rows, pageSize, round.read, n)
    ensures ExportText(Same(round, n), project, cursor, pageSize, f)
         == Printed(ExportRun(Same(round, n), project, cursor, pageSize, f), round.read)
    decreases n
  {
    if n > 0 {
      var read := round.read;
      var rows := Beyond(round.table, project, cursor, f);
      var page := Limit(rows, pageSize);
      var next := CursorAfter(page, read, cursor);
      CursorRound(round.table, project, cursor, pageSize, f, read);
      FixedRounds(round, n - 1, project, next, pageSize, f);
      assert Same(round, n)[1..] == Same(round, n - 1);
      PrintedAppend(Readable(page, read), ExportRun(Same(round, n - 1), project, next, pageSize, f), read);
      PrintedReadable(page, read);
    }
  }

  /**
   A download that has come to its end on a table that stays as it is has exported every readable record, in order and
   once. By `DownloadEndsIffNoGap` it comes to its end exactly when no gap lies ahead.
   */
  lemma {:induction false} FixedDownload(round: Round, n: nat, project: int, cursor: int, pageSize: nat, f: Filter)
    requires Ascending(round.table) && PositiveIds(round.table) && pageSize > 0
    requires PageAfter(Same(round, n), round, project, cursor, pageSize, f) == []
    ensures var rows := Beyond(round.table, project, cursor, f);
            ExportRun(Same(round, n), project, cursor, pageSize, f) == Readable(rows, round.read)
            && ExportText(Same(round, n), project, cursor, pageSize, f) == Printed(rows, round.read)
            && NoGap(rows, pageSize, round.read)
  {
    var rows := Beyond(round.table, project, cursor, f);
    FixedRounds(round, n, project, cursor, pageSize, f);
    ExportInvariant(rows, pageSize, round.read, n);
    assert Left(rows, pageSize, round.read, n) == [];
    assert Exported(rows, pageSize, round.read, n) + [] == Exported(rows, pageSize, round.read, n);
    PrintedReadable(rows, round.read);
    DownloadEndsIffNoGap(rows, pageSize, round.read);
  }
}
