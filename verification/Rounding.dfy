/** Largest-remainder rounding of exact shares to whole Toman, as in
    backend/internal/billing/engine/engine.go. Exact rationals are modelled as reals. */
module Rounding {

  function Sum(s: seq<int>): int {
    if |s| == 0 then 0 else Sum(s[..|s| - 1]) + s[|s| - 1]
  }

  function ExactSum(s: seq<real>): real {
    if |s| == 0 then 0.0 else ExactSum(s[..|s| - 1]) + s[|s| - 1]
  }

  function Frac(e: real): real {
    e - e.Floor as real
  }

  /** `i` is served before `j`: larger fractional remainder, then lower index. */
  predicate Beats(exact: seq<real>, i: int, j: int)
    requires 0 <= i < |exact| && 0 <= j < |exact|
  {
    Frac(exact[i]) > Frac(exact[j]) || (Frac(exact[i]) == Frac(exact[j]) && i < j)
  }

  /** What it means to have rounded by largest remainder: every share is its floor or one more,
      the shares add up to the total, and whoever got the extra Toman comes before whoever did not. */
  ghost predicate LargestRemainder(total: int, exact: seq<real>, out: seq<int>) {
    && |out| == |exact|
    && Sum(out) == total
    && (forall i :: 0 <= i < |exact| ==> exact[i].Floor <= out[i] <= exact[i].Floor + 1)
    && (forall i, j :: 0 <= i < |exact| && 0 <= j < |exact| && exact[i].Floor < out[i] && out[j] == exact[j].Floor ==>
          Beats(exact, i, j))
  }

  /** The shares that rounding is given: non-negative and adding up to the total. */
  ghost predicate Splits(total: int, exact: seq<real>) {
    && (forall i :: 0 <= i < |exact| ==> exact[i] >= 0.0)
    && ExactSum(exact) == total as real
  }

  // ----- Sorting by remainder

  ghost predicate Ranked(exact: seq<real>, order: seq<int>) {
    && (forall a :: 0 <= a < |order| ==> 0 <= order[a] < |exact|)
    && (forall a, b :: 0 <= a < b < |order| ==> Beats(exact, order[a], order[b]))
  }

  function Insert(exact: seq<real>, i: int, order: seq<int>): (r: seq<int>)
    requires 0 <= i < |exact| && forall a :: 0 <= a < |order| ==> 0 <= order[a] < |exact|
    ensures |r| == |order| + 1
    ensures forall a :: 0 <= a < |r| ==> r[a] == i || r[a] in order
  {
    if order == [] then [i]
    else if Beats(exact, i, order[0]) then [i] + order
    else [order[0]] + Insert(exact, i, order[1..])
  }

  lemma {:induction false} InsertKeepsRank(exact: seq<real>, i: int, order: seq<int>)
    requires 0 <= i < |exact| && i !in order && Ranked(exact, order)
    ensures Ranked(exact, Insert(exact, i, order))
  {
    hide Frac;
    if order != [] && !Beats(exact, i, order[0]) {
      var rest := Insert(exact, i, order[1..]);
      InsertKeepsRank(exact, i, order[1..]);
      forall b | 0 <= b < |rest|
        ensures Beats(exact, order[0], rest[b])
      {
      }
    }
  }

  lemma {:induction false} InsertKeepsElements(exact: seq<real>, i: int, order: seq<int>)
    requires 0 <= i < |exact| && forall a :: 0 <= a < |order| ==> 0 <= order[a] < |exact|
    ensures i in Insert(exact, i, order) && forall x :: x in order ==> x in Insert(exact, i, order)
  {
    if order != [] && !Beats(exact, i, order[0]) {
      InsertKeepsElements(exact, i, order[1..]);
      assert order == [order[0]] + order[1..];
    }
  }

  /** The stable sort of the remainders, on the indices they belong to. */
  function SortByRemainder(exact: seq<real>, rems: seq<int>): (order: seq<int>)
    requires forall a :: 0 <= a < |rems| ==> 0 <= rems[a] < |exact|
    ensures |order| == |rems|
    ensures forall a :: 0 <= a < |order| ==> order[a] in rems
  {
    if rems == [] then []
    else Insert(exact, rems[0], SortByRemainder(exact, rems[1..]))
  }

  lemma {:induction false} SortRanks(exact: seq<real>, rems: seq<int>)
    requires forall a :: 0 <= a < |rems| ==> 0 <= rems[a] < |exact|
    requires forall a, b :: 0 <= a < b < |rems| ==> rems[a] != rems[b]
    ensures Ranked(exact, SortByRemainder(exact, rems))
    ensures forall x :: x in rems ==> x in SortByRemainder(exact, rems)
  {
    if rems != [] {
      SortRanks(exact, rems[1..]);
      InsertKeepsRank(exact, rems[0], SortByRemainder(exact, rems[1..]));
      InsertKeepsElements(exact, rems[0], SortByRemainder(exact, rems[1..]));
    }
  }

  // ----- The allocation

  lemma SumUpdate(s: seq<int>, i: int, v: int)
    requires 0 <= i < |s|
    ensures Sum(s[i := v]) == Sum(s) - s[i] + v
  {
    var last := |s| - 1;
    if i == last {
      assert s[i := v][..last] == s[..last];
    } else {
      assert s[i := v][..last] == s[..last][i := v];
      SumUpdate(s[..last], i, v);
    }
  }

  /** What the floors leave over is the sum of the remainders: at least 0 and below the number of shares. */
  lemma LeftoverRange(exact: seq<real>, floors: seq<int>)
    requires AreFloors(exact, floors)
    ensures 0.0 <= ExactSum(exact) - Sum(floors) as real
    ensures exact != [] ==> ExactSum(exact) - Sum(floors) as real < |exact| as real
  {
  }

  /** The first `k` indices of the order have received one Toman each. */
  ghost predicate HandedOut(floors: seq<int>, order: seq<int>, k: int, out: seq<int>)
    requires 0 <= k <= |order|
  {
    && |out| == |floors|
    && (forall i :: 0 <= i < |out| ==> out[i] == floors[i] + if i in order[..k] then 1 else 0)
    && Sum(out) == Sum(floors) + k
  }

  ghost predicate AreFloors(exact: seq<real>, floors: seq<int>) {
    |floors| == |exact| && forall i :: 0 <= i < |exact| ==> floors[i] == exact[i].Floor
  }

  lemma HandOutOne(exact: seq<real>, floors: seq<int>, order: seq<int>, k: int, out: seq<int>)
    requires 0 <= k < |order| && |floors| == |exact| && Ranked(exact, order)
    requires HandedOut(floors, order, k, out)
    ensures HandedOut(floors, order, k + 1, out[order[k] := out[order[k]] + 1])
  {
    var idx := order[k];
    assert idx !in order[..k] by {
      assert forall a :: 0 <= a < k ==> Beats(exact, order[a], idx);
    }
    assert order[..k + 1] == order[..k] + [idx];
    SumUpdate(out, idx, out[idx] + 1);
  }

  lemma HandOutIsLargestRemainder(
    total: int, exact: seq<real>, floors: seq<int>, order: seq<int>, leftover: int, out: seq<int>)
    requires AreFloors(exact, floors) && Ranked(exact, order) && 0 <= leftover <= |order|
    requires forall i :: 0 <= i < |exact| ==> i in order
    requires HandedOut(floors, order, leftover, out) && Sum(floors) + leftover == total
    ensures LargestRemainder(total, exact, out)
  {
    hide Beats;
    forall i, j | 0 <= i < |exact| && 0 <= j < |exact| && exact[i].Floor < out[i] && out[j] == exact[j].Floor
      ensures Beats(exact, i, j)
    {
      assert i in order[..leftover] && j in order;
      var a :| 0 <= a < leftover && order[a] == i;
      var b :| 0 <= b < |order| && order[b] == j;
      assert b >= leftover;
    }
  }

  lemma NothingHanded(floors: seq<int>, order: seq<int>)
    ensures HandedOut(floors, order, 0, floors)
  {
  }

  lemma IndicesSorted(exact: seq<real>, rems: seq<int>)
    requires |rems| == |exact| && forall k :: 0 <= k < |rems| ==> rems[k] == k
    ensures var order := SortByRemainder(exact, rems);
            Ranked(exact, order) && forall k :: 0 <= k < |exact| ==> k in order
  {
    SortRanks(exact, rems);
    forall k | 0 <= k < |exact|
      ensures k in SortByRemainder(exact, rems)
    {
      assert rems[k] in rems;
    }
  }

  /** The first pass: every share starts at its floor, and the indices wait to be sorted. */
  method FloorShares(exact: seq<real>) returns (out: array<int>, rems: seq<int>, floored: int)
    ensures fresh(out) && AreFloors(exact, out[..]) && floored == Sum(out[..])
    ensures |rems| == |exact| && forall k :: 0 <= k < |rems| ==> rems[k] == k
  {
    var n := |exact|;
    out, rems, floored := new int[n](_ => 0), [], 0;
    for i := 0 to n
      invariant |rems| == i && forall k :: 0 <= k < i ==> rems[k] == k
      invariant forall k :: 0 <= k < i ==> out[k] == exact[k].Floor
      invariant floored == Sum(out[..i])
    {
      out[i] := exact[i].Floor;
      assert out[..i + 1][..i] == out[..i];
      floored := floored + out[i];
      rems := rems + [i];
    }
    assert out[..n] == out[..];
  }

  /** Floors every share, then hands the leftover out one by one in the order of the remainders. */
  method Allocate(total: int, exact: seq<real>) returns (rounded: seq<int>)
    requires Splits(total, exact)
    ensures LargestRemainder(total, exact, rounded)
  {
    hide HandedOut, Ranked;
    var out, rems, floored := FloorShares(exact);
    ghost var floors := out[..];
    var leftover := total - floored;
    LeftoverRange(exact, floors);
    if leftover <= 0 {
      return out[..];
    }
    var order := SortByRemainder(exact, rems);
    IndicesSorted(exact, rems);
    NothingHanded(floors, order);
    for i := 0 to leftover
      invariant |out[..]| == |floors|
      invariant HandedOut(floors, order, i, out[..])
    {
      var idx := order[i];
      ghost var before := out[..];
      HandOutOne(exact, floors, order, i, before);
      out[idx] := out[idx] + 1;
      assert out[..] == before[idx := before[idx] + 1];
    }
    rounded := out[..];
    HandOutIsLargestRemainder(total, exact, floors, order, leftover, rounded);
  }

  // ----- What the rounding guarantees

  /** Rounding error with its sign; it vanishes when the shares add up to the exact total. */
  lemma {:induction false} SumsDiffer(exact: seq<real>, out: seq<int>, i: int)
    requires |out| == |exact| && 0 <= i < |exact|
    requires forall k :: 0 <= k < |exact| ==> out[k] as real >= exact[k]
    requires out[i] as real > exact[i]
    ensures Sum(out) as real > ExactSum(exact)
  {
    var last := |exact| - 1;
    if i < last {
      SumsDiffer(exact[..last], out[..last], i);
    } else {
      SumsAtLeast(exact[..last], out[..last]);
    }
  }

  lemma {:induction false} SumsAtLeast(exact: seq<real>, out: seq<int>)
    requires |out| == |exact| && forall k :: 0 <= k < |exact| ==> out[k] as real >= exact[k]
    ensures Sum(out) as real >= ExactSum(exact)
  {
    if exact != [] {
      SumsAtLeast(exact[..|exact| - 1], out[..|exact| - 1]);
    }
  }

  /** A share that is already whole is never touched; in particular a zero share stays zero. */
  lemma WholeSharesKept(total: int, exact: seq<real>, out: seq<int>, i: int)
    requires Splits(total, exact) && LargestRemainder(total, exact, out)
    requires 0 <= i < |exact| && Frac(exact[i]) == 0.0
    ensures out[i] as real == exact[i]
  {
    if exact[i].Floor < out[i] {
      forall k | 0 <= k < |exact|
        ensures out[k] as real >= exact[k]
      {
        if out[k] == exact[k].Floor {
          assert Beats(exact, i, k);
        }
      }
      SumsDiffer(exact, out, i);
    }
  }

  /** The quota rule: every rounded share is the exact share rounded down or up, and no
      share is negative or above the total. */
  lemma Quota(total: int, exact: seq<real>, out: seq<int>, i: int)
    requires Splits(total, exact) && LargestRemainder(total, exact, out) && 0 <= i < |exact|
    ensures exact[i] - 1.0 < out[i] as real < exact[i] + 1.0
    ensures 0 <= out[i] <= total
  {
    if Frac(exact[i]) == 0.0 {
      WholeSharesKept(total, exact, out, i);
    }
    OneOfSum(out, i);
  }

  lemma {:induction false} OneOfSum(s: seq<int>, i: int)
    requires 0 <= i < |s| && forall k :: 0 <= k < |s| ==> s[k] >= 0
    ensures 0 <= s[i] <= Sum(s)
    decreases |s|
  {
    var last := |s| - 1;
    if i < last {
      OneOfSum(s[..last], i);
    } else if last > 0 {
      OneOfSum(s[..last], 0);
    }
  }

  /** A larger exact share never gets a smaller rounded share; equal ones differ by at most one
      Toman, in favour of the lower index. */
  lemma Monotone(total: int, exact: seq<real>, out: seq<int>, i: int, j: int)
    requires LargestRemainder(total, exact, out) && 0 <= i < |exact| && 0 <= j < |exact|
    ensures exact[i] > exact[j] ==> out[i] >= out[j]
    ensures exact[i] == exact[j] && i < j ==> out[j] <= out[i] <= out[j] + 1
  {
  }

  lemma {:induction false} SmallerSum(x: seq<int>, y: seq<int>, i: int)
    requires |x| == |y| && 0 <= i < |x| && x[i] < y[i]
    requires forall k :: 0 <= k < |x| ==> x[k] <= y[k]
    ensures Sum(x) < Sum(y)
  {
    var last := |x| - 1;
    if i < last {
      SmallerSum(x[..last], y[..last], i);
    } else {
      AtMostSum(x[..last], y[..last]);
    }
  }

  lemma {:induction false} AtMostSum(x: seq<int>, y: seq<int>)
    requires |x| == |y| && forall k :: 0 <= k < |x| ==> x[k] <= y[k]
    ensures Sum(x) <= Sum(y)
  {
    if x != [] {
      AtMostSum(x[..|x| - 1], y[..|x| - 1]);
    }
  }

  /** The description leaves no freedom: total and exact shares determine the rounded ones. */
  lemma LargestRemainderUnique(total: int, exact: seq<real>, x: seq<int>, y: seq<int>)
    requires LargestRemainder(total, exact, x) && LargestRemainder(total, exact, y)
    ensures x == y
  {
    if i :| 0 <= i < |x| && x[i] < y[i] {
      NeverBelow(exact, x, y, i);
      SmallerSum(x, y, i);
    } else if i :| 0 <= i < |x| && y[i] < x[i] {
      NeverBelow(exact, y, x, i);
      SmallerSum(y, x, i);
    }
  }

  lemma NeverBelow(exact: seq<real>, x: seq<int>, y: seq<int>, i: int)
    requires LargestRemainder(Sum(x), exact, x) && LargestRemainder(Sum(y), exact, y)
    requires 0 <= i < |x| && x[i] < y[i]
    ensures forall k :: 0 <= k < |x| ==> x[k] <= y[k]
  {
  }

  // ----- Optimality

  function Abs(r: real): real {
    if r >= 0.0 then r else -r
  }

  /** Total rounding error of a whole-number division of the exact shares. */
  ghost function Distance(exact: seq<real>, out: seq<int>): real
    requires |out| == |exact|
  {
    if |exact| == 0 then 0.0
    else
      var last := |exact| - 1;
      Distance(exact[..last], out[..last]) + Abs(out[last] as real - exact[last])
  }

  /** A remainder that separates those who got the extra Toman from those who did not. */
  ghost predicate Separates(t: real, exact: seq<real>, out: seq<int>)
    requires |out| == |exact|
  {
    && 0.0 <= t <= 1.0
    && forall i :: 0 <= i < |exact| ==>
         (out[i] == exact[i].Floor + 1 && Frac(exact[i]) >= t) || (out[i] == exact[i].Floor && Frac(exact[i]) <= t)
  }

  lemma SeparatorExists(total: int, exact: seq<real>, out: seq<int>) returns (t: real)
    requires LargestRemainder(total, exact, out)
    ensures Separates(t, exact, out)
  {
    t := 1.0;
    for n := 0 to |exact|
      invariant 0.0 <= t <= 1.0
      invariant forall i :: 0 <= i < n && exact[i].Floor < out[i] ==> Frac(exact[i]) >= t
      invariant forall i :: 0 <= i < |exact| && out[i] == exact[i].Floor ==> Frac(exact[i]) <= t
    {
      if exact[n].Floor < out[n] && Frac(exact[n]) < t {
        t := Frac(exact[n]);
        assert forall i :: 0 <= i < |exact| && out[i] == exact[i].Floor ==> Beats(exact, n, i);
      }
    }
  }

  /** The price of `d` extra Toman at `t` apiece. */
  function Price(t: real, d: int): real {
    t * d as real
  }

  lemma PriceAdds(t: real, a: int, b: int)
    ensures Price(t, a + b) == Price(t, a) + Price(t, b)
    ensures Price(1.0 - t, a) == a as real - Price(t, a)
  {
  }

  /** One or more Toman cost at least `t`. */
  lemma {:induction false} AtLeastOne(t: real, d: nat)
    requires t >= 0.0
    ensures Price(t, d) >= if d == 0 then 0.0 else t
  {
    if d >= 1 {
      AtLeastOne(t, d - 1);
      PriceAdds(t, d - 1, 1);
      assert Price(t, 1) == t;
      hide Price;
    }
  }

  lemma PriceRange(t: real, d: int)
    requires 0.0 <= t <= 1.0
    ensures d == 0 ==> Price(t, d) == 0.0
    ensures d >= 1 ==> Price(t, d) >= t
    ensures d <= -1 ==> d as real - Price(t, d) <= t - 1.0
  {
    if d == 0 {
    } else if d > 0 {
      hide Price;
      AtLeastOne(t, d);
    } else {
      AtLeastOne(1.0 - t, -d);
      PriceAdds(t, -d, d);
      assert Price(t, 0) == 0.0;
      hide Price;
    }
  }

  /** Moving a share `r` above its floor `f` from `x` to `z`. */
  lemma NoGainFrom(t: real, f: int, r: real, x: int, z: int)
    requires 0.0 <= t <= 1.0 && 0.0 <= r < 1.0
    requires (x == f + 1 && r >= t) || (x == f && r <= t)
    ensures Abs(x as real - (f as real + r)) + (z - x) as real - 2.0 * Price(t, z - x) <= Abs(z as real - (f as real + r))
  {
    hide Price;
    PriceRange(t, z - x);
  }

  /** Charging `1 - 2t` per Toman, no single share can be changed at a gain. */
  lemma NoGain(t: real, e: real, x: int, z: int)
    requires 0.0 <= t <= 1.0
    requires (x == e.Floor + 1 && Frac(e) >= t) || (x == e.Floor && Frac(e) <= t)
    ensures Abs(x as real - e) + (z - x) as real - 2.0 * Price(t, z - x) <= Abs(z as real - e)
  {
    hide Abs, Price;
    NoGainFrom(t, e.Floor, Frac(e), x, z);
  }

  lemma {:induction false} NoGainOverall(t: real, exact: seq<real>, x: seq<int>, z: seq<int>)
    requires |x| == |exact| == |z| && Separates(t, exact, x)
    ensures Distance(exact, x) + (Sum(z) - Sum(x)) as real - 2.0 * Price(t, Sum(z) - Sum(x)) <= Distance(exact, z)
  {
    if exact == [] {
      assert Price(t, 0) == 0.0;
    } else {
      hide Abs, Frac, Price;
      var last := |exact| - 1;
      NoGainOverall(t, exact[..last], x[..last], z[..last]);
      var before, d := Sum(z[..last]) - Sum(x[..last]), z[last] - x[last];
      NoGain(t, exact[last], x[last], z[last]);
      PriceAdds(t, before, d);
      assert Sum(z) - Sum(x) == before + d;
      hide Sum, Separates;
    }
  }

  /** Largest-remainder rounding is optimal: no other whole-number shares with the same total
      come closer to the exact ones. */
  lemma Optimal(total: int, exact: seq<real>, x: seq<int>, z: seq<int>)
    requires LargestRemainder(total, exact, x)
    requires |z| == |exact| && Sum(z) == total
    ensures Distance(exact, x) <= Distance(exact, z)
  {
    var t := SeparatorExists(total, exact, x);
    NoGainOverall(t, exact, x, z);
  }

  // ----- The rounding as a function of its inputs

  lemma {:induction false} HandOutReaches(exact: seq<real>, floors: seq<int>, order: seq<int>, k: nat)
    returns (out: seq<int>)
    requires k <= |order| && |floors| == |exact| && Ranked(exact, order)
    ensures |out| == |floors| && HandedOut(floors, order, k, out)
  {
    hide HandedOut;
    if k == 0 {
      NothingHanded(floors, order);
      out := floors;
    } else {
      var before := HandOutReaches(exact, floors, order, k - 1);
      HandOutOne(exact, floors, order, k - 1, before);
      out := before[order[k - 1] := before[order[k - 1]] + 1];
    }
  }

  lemma RoundingExists(total: int, exact: seq<real>)
    requires Splits(total, exact)
    ensures exists out :: LargestRemainder(total, exact, out)
  {
    hide HandedOut, Ranked;
    var floors := seq(|exact|, i requires 0 <= i < |exact| => exact[i].Floor);
    var rems := seq(|exact|, i => i);
    var order := SortByRemainder(exact, rems);
    LeftoverRange(exact, floors);
    IndicesSorted(exact, rems);
    var leftover := total - Sum(floors);
    var out := HandOutReaches(exact, floors, order, leftover);
    HandOutIsLargestRemainder(total, exact, floors, order, leftover, out);
  }

  ghost function Rounded(total: int, exact: seq<real>): (out: seq<int>)
    requires Splits(total, exact)
    ensures LargestRemainder(total, exact, out)
  {
    RoundingExists(total, exact);
    var out :| LargestRemainder(total, exact, out);
    out
  }
}
