/** Weighted random selection among the ready targets of a route. */
module TargetSelection {

  datatype Target = Target(id: int, weight: int)

  /** `Panics` is `rand.Intn` on a total that is not positive. */
  datatype Selection = NoRows | Panics | Selected(target: Target)

  /** The sum of the first `k` weights. */
  function Sum(targets: seq<Target>, k: nat): int
    requires k <= |targets|
  {
    if k == 0 then 0 else Sum(targets, k - 1) + targets[k - 1].weight
  }

  function Total(targets: seq<Target>): int {
    Sum(targets, |targets|)
  }

  /** The first position from `i` on whose running sum exceeds the pick; the first target when there is none. */
  function Chosen(targets: seq<Target>, pick: int, i: nat): (k: nat)
    requires i <= |targets|
    decreases |targets| - i
  {
    if i == |targets| then 0
    else if pick < Sum(targets, i + 1) then i
    else Chosen(targets, pick, i + 1)
  }

  /** `pick` is what `rand.Intn` returns for the total. */
  method SelectTarget(targets: seq<Target>, pick: int) returns (s: Selection)
    requires Total(targets) > 0 ==> 0 <= pick < Total(targets)
    ensures targets == [] ==> s == NoRows
    ensures |targets| == 1 ==> s == Selected(targets[0])
    ensures |targets| > 1 && Total(targets) <= 0 ==> s == Panics
    ensures |targets| > 1 && Total(targets) > 0 ==>
      Chosen(targets, pick, 0) < |targets| && s == Selected(targets[Chosen(targets, pick, 0)])
  {
    if |targets| == 0 {
      return NoRows;
    }
    if |targets| == 1 {
      return Selected(targets[0]);
    }
    var totalWeight := 0;
    for i := 0 to |targets|
      invariant totalWeight == Sum(targets, i)
    {
      totalWeight := totalWeight + targets[i].weight;
    }
    if totalWeight <= 0 {
      return Panics;
    }
    var running := 0;
    for i := 0 to |targets|
      invariant running == Sum(targets, i)
      invariant Chosen(targets, pick, 0) == Chosen(targets, pick, i)
    {
      running := running + targets[i].weight;
      if pick < running {
        return Selected(targets[i]);
      }
    }
    return Selected(targets[0]);
  }

  /** The largest of the running sums up to position `i`, the empty one included. */
  function Reached(targets: seq<Target>, i: nat): (m: int)
    requires i <= |targets|
    ensures m >= 0
  {
    if i == 0 then 0
    else
      var before := Reached(targets, i - 1);
      if Sum(targets, i) > before then Sum(targets, i) else before
  }

  predicate SumsAtMost(targets: seq<Target>, pick: int, i: nat)
    requires i <= |targets|
  {
    forall j: nat :: j <= i ==> Sum(targets, j) <= pick
  }

  lemma {:induction false} ReachedBelow(targets: seq<Target>, pick: int, i: nat)
    requires i <= |targets| && pick >= 0
    ensures Reached(targets, i) <= pick <==> SumsAtMost(targets, pick, i)
  {
    if i > 0 {
      ReachedBelow(targets, pick, i - 1);
      assert SumsAtMost(targets, pick, i) <==> SumsAtMost(targets, pick, i - 1) && Sum(targets, i) <= pick;
    }
  }

  lemma {:induction false} ChosenFrom(targets: seq<Target>, pick: int, i: nat)
    requires i <= |targets| && pick < Total(targets)
    requires SumsAtMost(targets, pick, i)
    ensures var k := Chosen(targets, pick, i);
            i <= k < |targets| && pick < Sum(targets, k + 1) && SumsAtMost(targets, pick, k)
    decreases |targets| - i
  {
    if i < |targets| && pick >= Sum(targets, i + 1) {
      assert SumsAtMost(targets, pick, i + 1);
      ChosenFrom(targets, pick, i + 1);
    }
  }

  /**
   Which picks choose target `i`, whatever the weights are: those from the largest running sum before it up to
   its own running sum. The fallback is never taken.
   */
  lemma {:induction false} ChosenIff(targets: seq<Target>, pick: int, i: nat)
    requires i < |targets| && 0 <= pick < Total(targets)
    ensures Chosen(targets, pick, 0) == i <==> Reached(targets, i) <= pick < Sum(targets, i + 1)
    ensures Chosen(targets, pick, 0) < |targets| && pick < Sum(targets, Chosen(targets, pick, 0) + 1)
  {
    ChosenFrom(targets, pick, 0);
    ReachedBelow(targets, pick, i);
    var k := Chosen(targets, pick, 0);
    assert pick < Sum(targets, k + 1);
  }

  predicate NonNegative(targets: seq<Target>) {
    forall i :: 0 <= i < |targets| ==> targets[i].weight >= 0
  }

  lemma {:induction false} SumsGrow(targets: seq<Target>, i: nat, j: nat)
    requires NonNegative(targets) && i <= j <= |targets|
    ensures 0 <= Sum(targets, i) <= Sum(targets, j)
    ensures Reached(targets, i) == Sum(targets, i)
    decreases i + j
  {
    if i > 0 {
      SumsGrow(targets, i - 1, i - 1);
    }
    if i < j {
      SumsGrow(targets, i, j - 1);
    }
  }

  /** The picks that choose target `i`. */
  function Picks(targets: seq<Target>, i: nat): set<int> {
    set pick | 0 <= pick < Total(targets) && Chosen(targets, pick, 0) == i
  }

  predicate Within(n: int, lo: int, hi: int) {
    lo <= n < hi
  }

  function Range(lo: int, hi: int): set<int> {
    set n | lo <= n < hi && Within(n, lo, hi)
  }

  lemma {:induction false} RangeSize(lo: int, hi: int)
    requires lo <= hi
    ensures |Range(lo, hi)| == hi - lo
    decreases hi - lo
  {
    if lo == hi {
      assert Range(lo, hi) == {};
    } else {
      RangeSize(lo, hi - 1);
      assert Range(lo, hi) == Range(lo, hi - 1) + {hi - 1};
    }
  }

  /** Of the equally likely picks exactly as many as its weight choose a target; one of weight zero is never chosen. */
  lemma {:induction false} PicksAreWeight(targets: seq<Target>, i: nat)
    requires NonNegative(targets) && Total(targets) > 0 && i < |targets|
    ensures |Picks(targets, i)| == targets[i].weight
  {
    var lo, hi := Sum(targets, i), Sum(targets, i + 1);
    SumsGrow(targets, i, i + 1);
    SumsGrow(targets, i + 1, |targets|);
    forall pick
      ensures pick in Picks(targets, i) <==> pick in Range(lo, hi)
    {
      if 0 <= pick < Total(targets) {
        ChosenIff(targets, pick, i);
      }
    }
    assert Picks(targets, i) == Range(lo, hi);
    RangeSize(lo, hi);
  }
}
