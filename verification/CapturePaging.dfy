/** Following the cursor of the capture list from page to page. */
module CapturePaging {
  import opened Json
  import opened CaptureStore

  lemma {:induction false} HeadIsLeast(rows: seq<Row>)
    requires rows != [] && Ascending(rows)
    ensures rows[0] in rows
    ensures forall r :: r in rows ==> rows[0].id <= r.id && (r.id == rows[0].id ==> r == rows[0])
  {
  }

  /** Two ascending lists with the same rows are the same list. */
  lemma {:induction false} AscendingUnique(a: seq<Row>, b: seq<Row>)
    requires Ascending(a) && Ascending(b)
    requires forall r :: r in a <==> r in b
    ensures a == b
  {
    if b != [] {
      HeadIsLeast(b);
    }
    if a != [] {
      HeadIsLeast(a);
      assert a[0] == b[0];
      forall r
        ensures r in a[1..] <==> r in b[1..]
      {
        if r in a[1..] {
          var k :| 1 <= k < |a| && a[k] == r;
          assert r in b && r.id > a[0].id;
          var l :| 0 <= l < |b| && b[l] == r;
          assert b[1..][l - 1] == r;
        }
        if r in b[1..] {
          var k :| 1 <= k < |b| && b[k] == r;
          assert r in a && r.id > b[0].id;
          var l :| 0 <= l < |a| && a[l] == r;
          assert a[1..][l - 1] == r;
        }
      }
      AscendingUnique(a[1..], b[1..]);
      assert a == [a[0]] + a[1..] && b == [b[0]] + b[1..];
    }
  }

  function Beyond(table: seq<Row>, project: int, cursor: int, f: Filter): seq<Row> {
    Select(table, ListConditions(project, cursor, f))
  }

  lemma {:induction false} BeyondMembers(table: seq<Row>, project: int, cursor: int, f: Filter)
    requires Ascending(table) && PositiveIds(table)
    ensures Ascending(Beyond(table, project, cursor, f))
    ensures forall r :: r in Beyond(table, project, cursor, f)
                   <==> r in table && Wanted(r, project, f) && r.id > cursor
  {
    SelectMembers(table, ListConditions(project, cursor, f));
    forall r | r in table
      ensures AllHold(ListConditions(project, cursor, f), r) <==> Wanted(r, project, f) && r.id > cursor
    {
      ConditionsMean(r, project, cursor, f);
    }
  }

  /** Moving the cursor to the `k`-th selected row leaves the rows after it. */
  lemma {:induction false} BeyondRow(table: seq<Row>, project: int, cursor: int, f: Filter, k: nat)
    requires Ascending(table) && PositiveIds(table)
    requires k < |Beyond(table, project, cursor, f)|
    ensures Beyond(table, project, Beyond(table, project, cursor, f)[k].id, f)
         == Beyond(table, project, cursor, f)[k + 1..]
  {
    var all := Beyond(table, project, cursor, f);
    BeyondMembers(table, project, cursor, f);
    BeyondMembers(table, project, all[k].id, f);
    var rest := Beyond(table, project, all[k].id, f);
    forall r
      ensures r in rest <==> r in all[k + 1..]
    {
      if r in rest {
        assert all[k] in all && r in all;
        var i :| 0 <= i < |all| && all[i] == r;
        assert i > k;
        assert all[k + 1..][i - k - 1] == r;
      }
      if r in all[k + 1..] {
        var i :| k + 1 <= i < |all| && all[i] == r;
        assert r in all && all[k] in all && r.id > all[k].id;
      }
    }
    AscendingUnique(rest, all[k + 1..]);
  }

  // The list handler

  datatype Page = Page(rows: seq<Row>, nextCursor: Option<int>)

  function ListCaptures(table: seq<Row>, project: int, cursor: int, pageSize: nat, f: Filter): Page
    requires pageSize > 0
  {
    var rows := ListAfterCursor(table, project, cursor, pageSize, f);
    Page(rows, if |rows| == pageSize then Some(rows[|rows| - 1].id) else None)
  }

  /** All the rows a client gets from a table that does not change, asking again while there is a next cursor. */
  function AllPages(table: seq<Row>, project: int, cursor: int, pageSize: nat, f: Filter): seq<Row>
    requires pageSize > 0 && Ascending(table) && PositiveIds(table)
    decreases |Beyond(table, project, cursor, f)|
  {
    var page := ListCaptures(table, project, cursor, pageSize, f);
    if page.nextCursor == None then page.rows
    else
      BeyondRow(table, project, cursor, f, pageSize - 1);
      page.rows + AllPages(table, project, page.nextCursor.value, pageSize, f)
  }

  /** The pages put together are the whole selection in order, as many rows as the count query says. */
  lemma {:induction false} PagingIsListing(table: seq<Row>, project: int, cursor: int, pageSize: nat, f: Filter)
    requires pageSize > 0 && Ascending(table) && PositiveIds(table)
    ensures AllPages(table, project, cursor, pageSize, f) == Beyond(table, project, cursor, f)
    ensures cursor <= 0 ==> |AllPages(table, project, cursor, pageSize, f)| == CountByProjectFiltered(table, project, f)
    decreases |Beyond(table, project, cursor, f)|
  {
    var all := Beyond(table, project, cursor, f);
    var page := ListCaptures(table, project, cursor, pageSize, f);
    if page.nextCursor != None {
      BeyondRow(table, project, cursor, f, pageSize - 1);
      PagingIsListing(table, project, page.nextCursor.value, pageSize, f);
      assert all == all[..pageSize] + all[pageSize..];
    }
    if cursor <= 0 {
      AllCounted(table, project, cursor, f);
    }
  }

  lemma {:induction false} AllCounted(table: seq<Row>, project: int, cursor: int, f: Filter)
    requires cursor <= 0
    ensures |Beyond(table, project, cursor, f)| == CountByProjectFiltered(table, project, f)
  {
    assert ListConditions(project, cursor, f) == CountConditions(project, f);
  }

  // Paging through a table that changes between the requests

  datatype Collected = Collected(rows: seq<Row>, finished: bool)

  /** What a client collects when `tables[i]` is the table at its `i`-th request. */
  function Collect(tables: seq<seq<Row>>, project: int, cursor: int, pageSize: nat, f: Filter): Collected
    requires pageSize > 0
    decreases |tables|
  {
    if tables == [] then Collected([], false)
    else
      var page := ListCaptures(tables[0], project, cursor, pageSize, f);
      if page.nextCursor == None then Collected(page.rows, true)
      else
        var rest := Collect(tables[1..], project, page.nextCursor.value, pageSize, f);
        Collected(page.rows + rest.rows, rest.finished)
  }

  predicate Tables(tables: seq<seq<Row>>) {
    forall i :: 0 <= i < |tables| ==> Ascending(tables[i]) && PositiveIds(tables[i])
  }

  /** A page has wanted rows beyond its cursor, up to the next cursor if there is one. */
  lemma {:induction false} PageMembers(table: seq<Row>, project: int, cursor: int, pageSize: nat, f: Filter, page: Page)
    requires pageSize > 0 && Ascending(table) && PositiveIds(table)
    requires page == ListCaptures(table, project, cursor, pageSize, f)
    ensures Ascending(page.rows)
    ensures forall r :: r in page.rows ==> r in table && Wanted(r, project, f) && r.id > cursor
    ensures page.nextCursor != None ==> page.nextCursor.value > cursor
    ensures page.nextCursor != None ==> forall r :: r in page.rows ==> r.id <= page.nextCursor.value
  {
    var all := Beyond(table, project, cursor, f);
    BeyondMembers(table, project, cursor, f);
    forall r | r in page.rows
      ensures r in all
    {
      var i :| 0 <= i < |page.rows| && page.rows[i] == r;
      assert all[i] == r;
    }
    if page.nextCursor != None {
      var last := page.rows[pageSize - 1];
      assert last in page.rows && page.nextCursor.value == last.id;
    }
  }

  /** And it has all of those. */
  lemma {:induction false} PageCovers(table: seq<Row>, project: int, cursor: int, pageSize: nat, f: Filter, page: Page,
                                      r: Row)
    requires pageSize > 0 && Ascending(table) && PositiveIds(table)
    requires page == ListCaptures(table, project, cursor, pageSize, f)
    requires r in table && Wanted(r, project, f) && r.id > cursor
    requires page.nextCursor != None ==> r.id <= page.nextCursor.value
    ensures r in page.rows
  {
    var all := Beyond(table, project, cursor, f);
    BeyondMembers(table, project, cursor, f);
    var i :| 0 <= i < |all| && all[i] == r;
  }

  /** Whatever happens to the table between two requests, no record comes twice and all come in order. */
  lemma {:induction false} CollectAscends(tables: seq<seq<Row>>, project: int, cursor: int, pageSize: nat, f: Filter)
    requires pageSize > 0 && Tables(tables)
    ensures var rows := Collect(tables, project, cursor, pageSize, f).rows;
            Ascending(rows)
            && forall r :: r in rows ==> r.id > cursor && Wanted(r, project, f) && exists t :: t in tables && r in t
    decreases |tables|
  {
    if tables != [] {
      var page := ListCaptures(tables[0], project, cursor, pageSize, f);
      PageMembers(tables[0], project, cursor, pageSize, f, page);
      assert tables[0] in tables;
      if page.nextCursor != None {
        CollectAscends(tables[1..], project, page.nextCursor.value, pageSize, f);
        var rest := Collect(tables[1..], project, page.nextCursor.value, pageSize, f).rows;
        forall r | r in rest
          ensures exists t :: t in tables && r in t
        {
          var t :| t in tables[1..] && r in t;
          assert t in tables;
        }
      }
    }
  }

  /**
   A record that is there at every request is collected once the client has come to the end, inserts and deletes
   notwithstanding.
   */
  lemma {:induction false} CollectCovers(tables: seq<seq<Row>>, project: int, cursor: int, pageSize: nat, f: Filter,
                                         r: Row)
    requires pageSize > 0 && Tables(tables)
    requires Collect(tables, project, cursor, pageSize, f).finished
    requires Wanted(r, project, f) && r.id > cursor
    requires forall i :: 0 <= i < |tables| ==> r in tables[i]
    ensures r in Collect(tables, project, cursor, pageSize, f).rows
    decreases |tables|
  {
    var page := ListCaptures(tables[0], project, cursor, pageSize, f);
    if page.nextCursor != None && r.id > page.nextCursor.value {
      CollectCovers(tables[1..], project, page.nextCursor.value, pageSize, f, r);
    } else {
      PageCovers(tables[0], project, cursor, pageSize, f, page, r);
    }
  }

  /**
   On a table that stays as it is, a client has come to the end if and only if its requests could have brought more
   rows than are selected; then it has all of them.
   */
  lemma {:induction false} CollectFixed(table: seq<Row>, tables: seq<seq<Row>>, project: int, cursor: int,
                                        pageSize: nat, f: Filter)
    requires pageSize > 0 && Ascending(table) && PositiveIds(table)
    requires forall i :: 0 <= i < |tables| ==> tables[i] == table
    ensures var n := |Beyond(table, project, cursor, f)|;
            var c := Collect(tables, project, cursor, pageSize, f);
            (c.finished <==> n < |tables| * pageSize)
            && (c.finished ==> c.rows == Beyond(table, project, cursor, f))
    decreases |tables|
  {
    if tables != [] {
      var page := ListCaptures(table, project, cursor, pageSize, f);
      OnePage(table, project, cursor, pageSize, f, page);
      OnePageLess(|tables|, pageSize);
      if page.nextCursor != None {
        CollectFixed(table, tables[1..], project, page.nextCursor.value, pageSize, f);
      }
    }
  }

  /** A page is full with rows left behind it, or the whole selection. */
  lemma {:induction false} OnePage(table: seq<Row>, project: int, cursor: int, pageSize: nat, f: Filter, page: Page)
    requires pageSize > 0 && Ascending(table) && PositiveIds(table)
    requires page == ListCaptures(table, project, cursor, pageSize, f)
    ensures page.nextCursor == None ==>
      page.rows == Beyond(table, project, cursor, f) && |page.rows| < pageSize
    ensures page.nextCursor != None ==>
      Beyond(table, project, cursor, f) == page.rows + Beyond(table, project, page.nextCursor.value, f)
      && |page.rows| == pageSize
  {
    var all := Beyond(table, project, cursor, f);
    if page.nextCursor != None {
      BeyondRow(table, project, cursor, f, pageSize - 1);
      assert all == all[..pageSize] + all[pageSize..];
    }
  }

  lemma {:induction false} OnePageLess(pages: nat, pageSize: nat)
    requires pages > 0
    ensures pages * pageSize == (pages - 1) * pageSize + pageSize >= pageSize
  {
  }

  const NO_FILTER := Filter(None, None, None, "", None)

  lemma {:induction false} OnlyRow(row: Row)
    requires row.id > 0
    ensures Beyond([row], row.rec.projectId, 0, NO_FILTER) == [row]
  {
    ConditionsMean(row, row.rec.projectId, 0, NO_FILTER);
    assert [row][1..] == [] && Select([], ListConditions(row.rec.projectId, 0, NO_FILTER)) == [];
  }
}
