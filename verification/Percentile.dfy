/** The percentile of request latencies, on the first rows of an ordered query. */
module Percentile {
  import opened Json

  const ROW_LIMIT: nat := 10000

  predicate Sorted(xs: seq<int>) {
    forall i, j :: 0 <= i < j < |xs| ==> xs[i] <= xs[j]
  }

  function Insert(x: int, xs: seq<int>): (r: seq<int>)
    ensures |r| == |xs| + 1
  {
    if xs == [] || x <= xs[0] then [x] + xs else [xs[0]] + Insert(x, xs[1..])
  }

  function Sort(xs: seq<int>): (r: seq<int>)
    ensures |r| == |xs|
  {
    if xs == [] then [] else Insert(xs[0], Sort(xs[1..]))
  }

  lemma {:induction false} InsertMultiset(x: int, xs: seq<int>)
    ensures multiset(Insert(x, xs)) == multiset(xs) + multiset{x}
  {
    if xs != [] && x > xs[0] {
      InsertMultiset(x, xs[1..]);
      assert xs == [xs[0]] + xs[1..];
    }
  }

  lemma {:induction false} InsertAtLeast(x: int, xs: seq<int>, low: int)
    requires low <= x && forall j :: 0 <= j < |xs| ==> low <= xs[j]
    ensures forall j :: 0 <= j < |Insert(x, xs)| ==> low <= Insert(x, xs)[j]
  {
    if xs != [] && x > xs[0] {
      InsertAtLeast(x, xs[1..], low);
    }
  }

  lemma {:induction false} InsertSorted(x: int, xs: seq<int>)
    requires Sorted(xs)
    ensures Sorted(Insert(x, xs))
  {
    if xs != [] && x > xs[0] {
      InsertSorted(x, xs[1..]);
      InsertAtLeast(x, xs[1..], xs[0]);
    }
  }

  lemma {:induction false} SortSorts(xs: seq<int>)
    ensures Sorted(Sort(xs)) && multiset(Sort(xs)) == multiset(xs)
  {
    if xs != [] {
      SortSorts(xs[1..]);
      InsertSorted(xs[0], Sort(xs[1..]));
      InsertMultiset(xs[0], Sort(xs[1..]));
      assert xs == [xs[0]] + xs[1..];
    }
  }

  lemma {:induction false} SortOfSorted(xs: seq<int>)
    requires Sorted(xs)
    ensures Sort(xs) == xs
  {
    if xs != [] {
      SortOfSorted(xs[1..]);
      assert xs == [xs[0]] + xs[1..];
    }
  }

  /** The rows of the query: the latencies in ascending order, the first `ROW_LIMIT` of them. */
  function Rows(latencies: seq<int>): (rows: seq<int>) {
    var sorted := Sort(latencies);
    if |sorted| <= ROW_LIMIT then sorted else sorted[..ROW_LIMIT]
  }

  function Scanned(rows: seq<Option<int>>): seq<int> {
    if rows == [] then []
    else
      var n := |rows| - 1;
      Scanned(rows[..n]) + if rows[n] == None then [] else [rows[n].value]
  }

  /** Position `n * pct / 100`, or the last one. */
  function Index(n: nat, pct: nat): nat
    requires n > 0
  {
    Capped(n * pct / 100, n)
  }

  function Capped(i: nat, n: nat): (k: nat)
    requires n > 0
    ensures k < n
  {
    if i >= n then n - 1 else i
  }

  function AtRank(sorted: seq<int>, pct: nat): int {
    if sorted == [] then 0 else
      assert Index(|sorted|, pct) < |sorted|;
      sorted[Index(|sorted|, pct)]
  }

  /** `rows` are the scanned latencies, `None` where a row could not be scanned. */
  method ComputePercentile(rows: seq<Option<int>>, pct: nat) returns (value: int)
    ensures value == AtRank(Sort(Scanned(rows)), pct)
  {
    var values: seq<int> := [];
    for i := 0 to |rows|
      invariant values == Scanned(rows[..i])
    {
      assert rows[..i + 1][..i] == rows[..i];
      if rows[i] != None {
        values := values + [rows[i].value];
      }
    }
    assert rows[..|rows|] == rows;
    if |values| == 0 {
      return 0;
    }
    values := Sort(values);
    var idx := |values| * pct / 100;
    if idx >= |values| {
      idx := |values| - 1;
    }
    value := values[idx];
  }

  function AllScanned(xs: seq<int>): (rows: seq<Option<int>>)
    ensures |rows| == |xs|
    ensures forall k :: 0 <= k < |rows| ==> rows[k] == Some(xs[k])
  {
    if xs == [] then [] else [Some(xs[0])] + AllScanned(xs[1..])
  }

  lemma {:induction false} ScannedAll(rows: seq<Option<int>>, xs: seq<int>)
    requires |rows| == |xs| && forall k :: 0 <= k < |rows| ==> rows[k] == Some(xs[k])
    ensures Scanned(rows) == xs
  {
    if rows != [] {
      var n := |rows| - 1;
      ScannedAll(rows[..n], xs[..n]);
      assert xs == xs[..n] + [xs[n]];
    }
  }

  /** The percentile reported for a set of latencies, and the one without the limit on rows. */
  function Reported(latencies: seq<int>, pct: nat): int {
    AtRank(Sort(Scanned(AllScanned(Rows(latencies)))), pct)
  }

  function Full(latencies: seq<int>, pct: nat): int {
    AtRank(Sort(latencies), pct)
  }

  /**
   The limit cuts the order statistics off: what is reported is a value of the whole sample, at the rank of the
   rows.
   */
  lemma {:induction false} ReportedIsOrderStatistic(latencies: seq<int>, pct: nat)
    requires latencies != []
    ensures var n := if |latencies| <= 10000 then |latencies| else 10000;
            |Rows(latencies)| == n && Index(n, pct) < n && Reported(latencies, pct) == Sort(latencies)[Index(n, pct)]
  {
    var rows := Rows(latencies);
    SortSorts(latencies);
    ScannedAll(AllScanned(rows), rows);
    SortOfSorted(rows);
    IndexBelow(|rows|, pct);
  }

  lemma {:induction false} IndexBelow(n: nat, pct: nat)
    requires n > 0
    ensures Index(n, pct) < n
    ensures pct < 100 ==> Index(n, pct) == n * pct / 100 && n * pct / 100 * 100 <= n * pct
  {
    if pct < 100 {
      assert n * pct < n * 100;
    }
  }

  lemma {:induction false} ProductGrows(m: nat, n: nat, p: nat, q: nat)
    requires m <= n && p <= q
    ensures m * p <= n * q
    decreases q
  {
    if p > 0 {
      ProductGrows(m, n, p - 1, q - 1);
      assert m * p == m * (p - 1) + m;
      assert n * q == n * (q - 1) + n;
    }
  }

  lemma {:induction false} IndexGrows(m: nat, n: nat, p: nat, q: nat)
    requires 0 < m <= n && p <= q
    ensures Index(m, p) <= Index(n, q)
  {
    ProductGrows(m, n, p, q);
    CappedGrows(m * p, n * q, m, n);
  }

  lemma {:induction false} CappedGrows(a: nat, b: nat, m: nat, n: nat)
    requires a <= b && 0 < m <= n
    ensures Capped(a / 100, m) <= Capped(b / 100, n)
  {
  }

  /**
   The reported value never exceeds the one without the limit, and is that value as long as the limit is not
   exceeded.
   */
  lemma {:induction false} ReportedBelowFull(latencies: seq<int>, pct: nat)
    requires latencies != []
    ensures Reported(latencies, pct) <= Full(latencies, pct)
    ensures |latencies| <= 10000 ==> Reported(latencies, pct) == Full(latencies, pct)
  {
    ReportedIsOrderStatistic(latencies, pct);
    SortSorts(latencies);
    var n := |Rows(latencies)|;
    IndexGrows(n, |latencies|, pct, pct);
    IndexBelow(|latencies|, pct);
  }

  lemma {:induction false} ReportedMonotone(latencies: seq<int>, p: nat, q: nat)
    requires latencies != [] && p <= q
    ensures Reported(latencies, p) <= Reported(latencies, q)
  {
    ReportedIsOrderStatistic(latencies, p);
    ReportedIsOrderStatistic(latencies, q);
    SortSorts(latencies);
    IndexGrows(|Rows(latencies)|, |Rows(latencies)|, p, q);
  }

  function CountAtMost(xs: seq<int>, v: int): nat {
    if xs == [] then 0 else (if xs[0] <= v then 1 else 0) + CountAtMost(xs[1..], v)
  }

  function CountBelow(xs: seq<int>, v: int): nat {
    if xs == [] then 0 else (if xs[0] < v then 1 else 0) + CountBelow(xs[1..], v)
  }

  lemma {:induction false} CountsAtIndex(xs: seq<int>, k: nat)
    requires Sorted(xs) && k < |xs|
    ensures CountAtMost(xs, xs[k]) > k && CountBelow(xs, xs[k]) <= k
  {
    if k == 0 {
      NoneBelow(xs, xs[0]);
    } else {
      CountsAtIndex(xs[1..], k - 1);
    }
  }

  lemma {:induction false} NoneBelow(xs: seq<int>, v: int)
    requires forall j :: 0 <= j < |xs| ==> v <= xs[j]
    ensures CountBelow(xs, v) == 0
  {
    if xs != [] {
      NoneBelow(xs[1..], v);
    }
  }

  /** It is a percentile of its own rows: more than `pct` in a hundred lie at or below it, no more than that below. */
  lemma {:induction false} ReportedIsPercentileOfRows(latencies: seq<int>, pct: nat)
    requires latencies != [] && pct < 100
    ensures var rows := Rows(latencies);
            CountAtMost(rows, Reported(latencies, pct)) * 100 > |rows| * pct
            && CountBelow(rows, Reported(latencies, pct)) * 100 <= |rows| * pct
  {
    var rows := Rows(latencies);
    SortSorts(latencies);
    ReportedIsOrderStatistic(latencies, pct);
    IndexBelow(|rows|, pct);
    var k := Index(|rows|, pct);
    assert rows[k] == Reported(latencies, pct);
    CountsAtIndex(rows, k);
    assert (k + 1) * 100 > |rows| * pct;
  }
}
