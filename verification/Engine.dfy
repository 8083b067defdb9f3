/** The charge engine of backend/internal/billing/engine/engine.go: one cost item's shares
    across units, by six calculation methods. */
module Engine {
  import opened Rounding

  type Id = int

  datatype Method = Equal | PerOccupant | PerArea | Fixed | SpecificUnits | Combined | Unknown

  datatype ComboWeight = ComboWeight(rule: Method, weight: int)

  datatype CostItem = CostItem(
    total: int, rule: Method, fixedAmountPerUnit: int, comboWeights: seq<ComboWeight>, includeVacant: bool,
    unitIds: seq<Id>)

  /** Occupant counts and areas are validated as non-negative where they are recorded. */
  datatype Unit = Unit(id: Id, occupants: nat, areaM2: nat, vacant: bool)

  datatype Share = Share(unit: Id, exact: real, rounded: int)

  datatype ItemResult = ItemResult(totalUsed: int, shares: seq<Share>, reconciled: bool)

  datatype Error =
    NoParticipants | ZeroFactor | SpecificUnitsEmpty | BadWeights | NonPositiveTotal | UnknownMethod

  datatype Result<+T> = Ok(value: T) | Err(error: Error)

  ghost predicate DistinctUnits(units: seq<Unit>) {
    forall i, j :: 0 <= i < j < |units| ==> units[i].id != units[j].id
  }

  // ----- Which units take part

  function Participants(includeVacant: bool, units: seq<Unit>): (els: seq<Unit>)
    ensures forall u :: u in els <==> u in units && (u.vacant ==> includeVacant)
  {
    if units == [] then []
    else
      var last := units[|units| - 1];
      var rest := Participants(includeVacant, units[..|units| - 1]);
      assert units == units[..|units| - 1] + [last];
      if last.vacant && !includeVacant then rest else rest + [last]
  }

  function Chosen(wanted: seq<Id>, units: seq<Unit>): (els: seq<Unit>)
    ensures forall u :: u in els <==> u in units && u.id in wanted
  {
    if units == [] then []
    else
      var last := units[|units| - 1];
      var rest := Chosen(wanted, units[..|units| - 1]);
      assert units == units[..|units| - 1] + [last];
      if last.id in wanted then rest + [last] else rest
  }

  lemma {:induction false} ParticipantsDistinct(includeVacant: bool, units: seq<Unit>)
    requires DistinctUnits(units)
    ensures DistinctUnits(Participants(includeVacant, units))
  {
    if units != [] {
      ParticipantsDistinct(includeVacant, units[..|units| - 1]);
    }
  }

  lemma {:induction false} ChosenDistinct(wanted: seq<Id>, units: seq<Unit>)
    requires DistinctUnits(units)
    ensures DistinctUnits(Chosen(wanted, units))
  {
    if units != [] {
      ChosenDistinct(wanted, units[..|units| - 1]);
    }
  }

  function WeightOf(rule: Method, u: Unit): nat {
    if rule == PerOccupant then u.occupants else if rule == PerArea then u.areaM2 else 1
  }

  function Weights(rule: Method, els: seq<Unit>): (w: seq<int>)
    ensures |w| == |els| && forall i :: 0 <= i < |els| ==> w[i] == WeightOf(rule, els[i]) && w[i] >= 0
  {
    seq(|els|, i requires 0 <= i < |els| => WeightOf(rule, els[i]))
  }

  /** Shares of a total in proportion to weights, as exact fractions. */
  function ExactShare(total: int, weight: int, sum: int): real
    requires sum > 0
  {
    total as real * (weight as real / sum as real)
  }

  function ExactShares(total: int, weights: seq<int>, sum: int): (exact: seq<real>)
    requires sum > 0
    ensures |exact| == |weights|
    ensures forall i :: 0 <= i < |weights| ==> exact[i] == ExactShare(total, weights[i], sum)
  {
    seq(|weights|, i requires 0 <= i < |weights| => ExactShare(total, weights[i], sum))
  }

  lemma ExactShareAdds(total: int, a: int, b: int, sum: int)
    requires sum > 0
    ensures ExactShare(total, a + b, sum) == ExactShare(total, a, sum) + ExactShare(total, b, sum)
  {
  }

  lemma {:induction false} ExactSharesSum(total: int, weights: seq<int>, sum: int)
    requires sum > 0
    ensures ExactSum(ExactShares(total, weights, sum)) == ExactShare(total, Sum(weights), sum)
  {
    if weights != [] {
      var last := |weights| - 1;
      assert ExactShares(total, weights, sum)[..last] == ExactShares(total, weights[..last], sum);
      ExactSharesSum(total, weights[..last], sum);
      ExactShareAdds(total, Sum(weights[..last]), weights[last], sum);
    }
  }

  lemma ExactShareRange(total: nat, weight: nat, sum: int)
    requires sum > 0
    ensures ExactShare(total, weight, sum) >= 0.0
    ensures ExactShare(total, sum, sum) == total as real
  {
  }

  lemma {:induction false} SumNonNegative(weights: seq<int>)
    requires forall i :: 0 <= i < |weights| ==> weights[i] >= 0
    ensures Sum(weights) >= 0
  {
    if weights != [] {
      SumNonNegative(weights[..|weights| - 1]);
    }
  }

  /** Proportional shares split the total. */
  lemma ExactSharesSplit(total: nat, weights: seq<int>)
    requires Sum(weights) > 0 && forall i :: 0 <= i < |weights| ==> weights[i] >= 0
    ensures Splits(total, ExactShares(total, weights, Sum(weights)))
  {
    var sum := Sum(weights);
    ExactSharesSum(total, weights, sum);
    ExactShareRange(total, 0, sum);
    forall i | 0 <= i < |weights|
      ensures ExactShares(total, weights, sum)[i] >= 0.0
    {
      ExactShareRange(total, weights[i], sum);
    }
  }

  // ----- Shares, sorted by unit id

  function InsertShare(s: Share, sorted: seq<Share>): (r: seq<Share>)
    ensures |r| == |sorted| + 1
    ensures forall x :: x in r <==> x == s || x in sorted
  {
    if sorted == [] || sorted[|sorted| - 1].unit <= s.unit then
      sorted + [s]
    else
      var last := |sorted| - 1;
      assert sorted == sorted[..last] + [sorted[last]];
      InsertShare(s, sorted[..last]) + [sorted[last]]
  }

  function SortShares(shares: seq<Share>): (r: seq<Share>)
    ensures |r| == |shares|
    ensures forall x :: x in r <==> x in shares
  {
    if shares == [] then []
    else
      var last := |shares| - 1;
      assert shares == shares[..last] + [shares[last]];
      InsertShare(shares[last], SortShares(shares[..last]))
  }

  /** Strictly increasing unit ids: sorted, and one share per unit. */
  ghost predicate Ordered(shares: seq<Share>) {
    forall i, j :: 0 <= i < j < |shares| ==> shares[i].unit < shares[j].unit
  }

  lemma {:induction false} InsertShareOrdered(s: Share, sorted: seq<Share>)
    requires Ordered(sorted) && forall x :: x in sorted ==> x.unit != s.unit
    ensures Ordered(InsertShare(s, sorted))
  {
    if sorted != [] && sorted[|sorted| - 1].unit > s.unit {
      var last := |sorted| - 1;
      var rest := InsertShare(s, sorted[..last]);
      InsertShareOrdered(s, sorted[..last]);
      forall i | 0 <= i < |rest|
        ensures rest[i].unit < sorted[last].unit
      {
        assert rest[i] in rest;
        assert rest[i] in sorted[..last] ==> rest[i].unit < sorted[last].unit;
      }
    }
  }

  lemma {:induction false} SortSharesOrdered(shares: seq<Share>)
    requires forall i, j :: 0 <= i < j < |shares| ==> shares[i].unit != shares[j].unit
    ensures Ordered(SortShares(shares))
  {
    if shares != [] {
      SortSharesOrdered(shares[..|shares| - 1]);
      InsertShareOrdered(shares[|shares| - 1], SortShares(shares[..|shares| - 1]));
    }
  }

  lemma LastIsLargest(s: seq<Share>, x: Share)
    requires Ordered(s) && s != []
    ensures x in s[..|s| - 1] <==> x in s && x != s[|s| - 1]
    ensures x in s ==> x.unit < s[|s| - 1].unit || x == s[|s| - 1]
  {
  }

  /** Ordered shares are determined by which shares there are, whatever order they were collected in. */
  lemma {:induction false} OrderedUnique(s: seq<Share>, t: seq<Share>)
    requires Ordered(s) && Ordered(t) && forall x :: x in s <==> x in t
    ensures s == t
    decreases |s|
  {
    assert s != [] ==> s[0] in t;
    assert t != [] ==> t[0] in s;
    if s != [] {
      var m, n := |s| - 1, |t| - 1;
      LastIsLargest(s, t[n]);
      LastIsLargest(t, s[m]);
      assert s[m] == t[n] by {
        assert s[m] in t && t[n] in s;
      }
      forall x
        ensures x in s[..m] <==> x in t[..n]
      {
        LastIsLargest(s, x);
        LastIsLargest(t, x);
      }
      OrderedUnique(s[..m], t[..n]);
      assert s == s[..m] + [s[m]] && t == t[..n] + [t[n]];
    }
  }

  function RoundedSum(shares: seq<Share>): int {
    if shares == [] then 0 else RoundedSum(shares[..|shares| - 1]) + shares[|shares| - 1].rounded
  }

  lemma {:induction false} InsertShareSum(s: Share, sorted: seq<Share>)
    ensures RoundedSum(InsertShare(s, sorted)) == RoundedSum(sorted) + s.rounded
  {
    if sorted != [] && sorted[|sorted| - 1].unit > s.unit {
      InsertShareSum(s, sorted[..|sorted| - 1]);
    }
  }

  lemma {:induction false} SortSharesSum(shares: seq<Share>)
    ensures RoundedSum(SortShares(shares)) == RoundedSum(shares)
  {
    if shares != [] {
      SortSharesSum(shares[..|shares| - 1]);
      InsertShareSum(shares[|shares| - 1], SortShares(shares[..|shares| - 1]));
    }
  }

  /** A division of a cost item: who takes part, the exact shares, the rounded ones. */
  datatype Split = Split(els: seq<Unit>, exact: seq<real>, rounded: seq<int>) {
    ghost predicate Aligned() {
      |exact| == |els| == |rounded|
    }

    function Shares(): (shares: seq<Share>)
      requires |exact| == |els| == |rounded|
      ensures |shares| == |els|
      ensures forall i :: 0 <= i < |els| ==> shares[i] == Share(els[i].id, exact[i], rounded[i])
    {
      seq(|els|, i requires 0 <= i < |els| => Share(els[i].id, exact[i], rounded[i]))
    }
  }

  lemma {:induction false} SharesSum(split: Split)
    requires split.Aligned()
    ensures RoundedSum(split.Shares()) == Sum(split.rounded)
    decreases |split.els|
  {
    if split.els != [] {
      var last := |split.els| - 1;
      var rest := Split(split.els[..last], split.exact[..last], split.rounded[..last]);
      assert rest.Shares() == split.Shares()[..last];
      SharesSum(rest);
    }
  }

  // ----- Distribution in proportion to weights

  ghost function DistributeSpec(total: nat, els: seq<Unit>, rule: Method): (r: Result<Split>)
    ensures r.Ok? ==> r.value.Aligned() && r.value.els == els
  {
    var weights := Weights(rule, els);
    if els == [] then Err(NoParticipants)
    else if Sum(weights) <= 0 then Err(ZeroFactor)
    else
      var exact := ExactShares(total, weights, Sum(weights));
      ExactSharesSplit(total, weights);
      Ok(Split(els, exact, Rounded(total, exact)))
  }

  /** A computed result is the specified split, its shares sorted by unit id and reconciled. */
  ghost predicate Matches(res: Result<ItemResult>, spec: Result<Split>, totalUsed: int) {
    match spec
    case Err(e) => res == Err(e)
    case Ok(split) => split.Aligned() && res == Ok(ItemResult(totalUsed, SortShares(split.Shares()), true))
  }

  method WeighAll(els: seq<Unit>, rule: Method) returns (weights: seq<int>, sum: int)
    ensures weights == Weights(rule, els) && sum == Sum(weights)
  {
    weights, sum := [], 0;
    for i := 0 to |els|
      invariant |weights| == i && forall k :: 0 <= k < i ==> weights[k] == WeightOf(rule, els[k])
      invariant sum == Sum(weights)
    {
      var w := WeightOf(rule, els[i]);
      assert (weights + [w])[..i] == weights;
      weights, sum := weights + [w], sum + w;
    }
  }

  method BuildShares(els: seq<Unit>, exacts: seq<real>, rounded: seq<int>) returns (shares: seq<Share>)
    requires |exacts| == |els| == |rounded|
    ensures shares == Split(els, exacts, rounded).Shares()
  {
    shares := [];
    for i := 0 to |els|
      invariant |shares| == i && forall k :: 0 <= k < i ==> shares[k] == Share(els[k].id, exacts[k], rounded[k])
    {
      shares := shares + [Share(els[i].id, exacts[i], rounded[i])];
    }
  }

  method Distribute(total: nat, els: seq<Unit>, rule: Method) returns (res: Result<ItemResult>)
    ensures Matches(res, DistributeSpec(total, els, rule), total)
  {
    hide LargestRemainder, Splits, SortShares, Split.Shares, ExactShare, WeightOf, Sum, RoundedSum;
    if |els| == 0 {
      return Err(NoParticipants);
    }
    var weights, sum := WeighAll(els, rule);
    SumNonNegative(weights);
    if sum == 0 {
      return Err(ZeroFactor);
    }
    var exacts := [];
    for i := 0 to |els|
      invariant |exacts| == i && forall k :: 0 <= k < i ==> exacts[k] == ExactShare(total, weights[k], sum)
    {
      exacts := exacts + [ExactShare(total, weights[i], sum)];
    }
    assert exacts == ExactShares(total, weights, sum);
    ExactSharesSplit(total, weights);
    var rounded := Allocate(total, exacts);
    RoundedIs(total, exacts, rounded);
    var shares := BuildShares(els, exacts, rounded);
    var sorted := SortShares(shares);
    var roundedSum := SumShares(sorted);
    SortSharesSum(shares);
    SharesSum(Split(els, exacts, rounded));
    res := Ok(ItemResult(total, sorted, roundedSum == total));
  }

  lemma RoundedIs(total: int, exact: seq<real>, rounded: seq<int>)
    requires Splits(total, exact) && LargestRemainder(total, exact, rounded)
    ensures |rounded| == |exact| && Sum(rounded) == total && rounded == Rounded(total, exact)
  {
    LargestRemainderUnique(total, exact, rounded, Rounded(total, exact));
  }

  method SumShares(shares: seq<Share>) returns (s: int)
    ensures s == RoundedSum(shares)
  {
    s := 0;
    for i := 0 to |shares|
      invariant s == RoundedSum(shares[..i])
    {
      assert shares[..i + 1][..i] == shares[..i];
      s := s + shares[i].rounded;
    }
    assert shares[..|shares|] == shares;
  }

  // ----- The simple methods

  ghost function FixedSplit(amount: int, els: seq<Unit>): (split: Split)
    ensures split.Aligned() && split.els == els
    ensures forall i :: 0 <= i < |els| ==> split.rounded[i] == amount && split.exact[i] == amount as real
  {
    Split(els, seq(|els|, _ => amount as real), seq(|els|, _ => amount))
  }

  ghost function SimpleSpec(item: CostItem, units: seq<Unit>): (r: Result<Split>)
    requires item.rule != Combined
    ensures r.Ok? ==> r.value.Aligned()
  {
    if item.total <= 0 && item.rule != Fixed then Err(NonPositiveTotal)
    else if item.rule == Fixed && item.fixedAmountPerUnit <= 0 then Err(NonPositiveTotal)
    else match item.rule
      case Equal => DistributeSpec(item.total, Participants(item.includeVacant, units), Equal)
      case PerOccupant => DistributeSpec(item.total, Participants(item.includeVacant, units), PerOccupant)
      case PerArea => DistributeSpec(item.total, Participants(item.includeVacant, units), PerArea)
      case Fixed =>
        var els := Participants(item.includeVacant, units);
        if els == [] then Err(NoParticipants) else Ok(FixedSplit(item.fixedAmountPerUnit, els))
      case SpecificUnits =>
        var els := Chosen(item.unitIds, units);
        if item.unitIds == [] || els == [] then Err(SpecificUnitsEmpty)
        else DistributeSpec(item.total, els, SpecificUnits)
      case Unknown => Err(UnknownMethod)
  }

  // ----- The combined method

  predicate WeightsValid(combo: seq<ComboWeight>) {
    combo != [] && (forall i :: 0 <= i < |combo| ==> combo[i].weight > 0 && combo[i].rule != Combined)
    && Sum(Percentages(combo)) == 100
  }

  function Percentages(combo: seq<ComboWeight>): (p: seq<int>)
    ensures |p| == |combo| && forall i :: 0 <= i < |combo| ==> p[i] == combo[i].weight
  {
    seq(|combo|, i requires 0 <= i < |combo| => combo[i].weight)
  }

  /** The item's total divided over its components, by largest remainder. */
  ghost function Pools(item: CostItem): (pools: seq<int>)
    requires item.total >= 0 && WeightsValid(item.comboWeights)
    ensures |pools| == |item.comboWeights| && Sum(pools) == item.total
    ensures forall i :: 0 <= i < |pools| ==> pools[i] >= 0
  {
    var exact := ExactShares(item.total, Percentages(item.comboWeights), 100);
    ExactSharesSplit(item.total, Percentages(item.comboWeights));
    var pools := Rounded(item.total, exact);
    assert forall i :: 0 <= i < |pools| ==> pools[i] >= 0 by {
      forall i | 0 <= i < |pools|
        ensures pools[i] >= 0
      {
        Quota(item.total, exact, pools, i);
      }
    }
    pools
  }

  /** The cost item that a component stands for: its pool, its method, and no chosen units. */
  function SubItem(item: CostItem, pool: int, w: ComboWeight): CostItem {
    CostItem(pool, w.rule, 0, [], item.includeVacant, [])
  }

  /** A fixed component splits its pool equally; every other component is a cost item of its own. */
  ghost function ComponentSpec(item: CostItem, pool: nat, w: ComboWeight, units: seq<Unit>): (r: Result<Split>)
    requires w.rule != Combined
    ensures r.Ok? ==> r.value.Aligned()
  {
    if w.rule == Fixed then DistributeSpec(pool, Participants(item.includeVacant, units), Fixed)
    else SimpleSpec(SubItem(item, pool, w), units)
  }

  function AddReal(a: seq<real>, b: seq<real>): (c: seq<real>)
    requires |a| == |b|
    ensures |c| == |a| && forall i :: 0 <= i < |a| ==> c[i] == a[i] + b[i]
  {
    seq(|a|, i requires 0 <= i < |a| => a[i] + b[i])
  }

  function AddInt(a: seq<int>, b: seq<int>): (c: seq<int>)
    requires |a| == |b|
    ensures |c| == |a| && forall i :: 0 <= i < |a| ==> c[i] == a[i] + b[i]
  {
    seq(|a|, i requires 0 <= i < |a| => a[i] + b[i])
  }

  ghost function Nothing(els: seq<Unit>): (split: Split)
    ensures split.Aligned() && split.els == els
    ensures forall i :: 0 <= i < |els| ==> split.rounded[i] == 0 && split.exact[i] == 0.0
  {
    Split(els, seq(|els|, _ => 0.0), seq(|els|, _ => 0))
  }

  /** The first `k` components added up unit by unit; the first failing one decides the error. */
  ghost function CombineSpec(item: CostItem, units: seq<Unit>, pools: seq<int>, k: nat): (r: Result<Split>)
    requires k <= |pools| == |item.comboWeights| && forall i :: 0 <= i < |pools| ==> pools[i] >= 0
    requires forall i :: 0 <= i < |pools| ==> item.comboWeights[i].rule != Combined
    ensures r.Ok? ==> r.value.Aligned() && r.value.els == Participants(item.includeVacant, units)
  {
    if k == 0 then Ok(Nothing(Participants(item.includeVacant, units)))
    else
      var before := CombineSpec(item, units, pools, k - 1);
      if before.Err? then before
      else
        var component := ComponentSpec(item, pools[k - 1], item.comboWeights[k - 1], units);
        if component.Err? then component
        else
          Ok(Split(before.value.els, AddReal(before.value.exact, component.value.exact),
                   AddInt(before.value.rounded, component.value.rounded)))
  }

  ghost function ItemSpec(item: CostItem, units: seq<Unit>): (r: Result<Split>)
    ensures r.Ok? ==> r.value.Aligned()
  {
    if item.rule != Combined then SimpleSpec(item, units)
    else if item.total <= 0 then Err(NonPositiveTotal)
    else if !WeightsValid(item.comboWeights) then Err(BadWeights)
    else CombineSpec(item, units, Pools(item), |item.comboWeights|)
  }

  /** What the shares must add up to: the item's total, or the amount per unit times the participants. */
  ghost function TotalUsed(item: CostItem, units: seq<Unit>): int {
    if item.rule == Fixed then item.fixedAmountPerUnit * |Participants(item.includeVacant, units)| else item.total
  }

  // ----- The calculation itself

  method SelectParticipants(includeVacant: bool, units: seq<Unit>) returns (els: seq<Unit>)
    ensures els == Participants(includeVacant, units)
  {
    els := [];
    for i := 0 to |units|
      invariant els == Participants(includeVacant, units[..i])
    {
      assert units[..i + 1][..i] == units[..i];
      if units[i].vacant && !includeVacant {
        continue;
      }
      els := els + [units[i]];
    }
    assert units[..|units|] == units;
  }

  method CalcFixed(item: CostItem, units: seq<Unit>) returns (res: Result<ItemResult>)
    requires item.rule == Fixed && item.fixedAmountPerUnit > 0
    ensures Matches(res, SimpleSpec(item, units), TotalUsed(item, units))
  {
    var els := SelectParticipants(item.includeVacant, units);
    if |els| == 0 {
      return Err(NoParticipants);
    }
    var total := item.fixedAmountPerUnit * |els|;
    ghost var split := FixedSplit(item.fixedAmountPerUnit, els);
    var shares := [];
    for i := 0 to |els|
      invariant |shares| == i && forall k :: 0 <= k < i ==> shares[k] == split.Shares()[k]
    {
      shares := shares + [Share(els[i].id, item.fixedAmountPerUnit as real, item.fixedAmountPerUnit)];
    }
    assert shares == split.Shares();
    res := Ok(ItemResult(total, SortShares(shares), true));
  }

  method CalcSpecific(item: CostItem, units: seq<Unit>) returns (res: Result<ItemResult>)
    requires item.rule == SpecificUnits && item.total > 0
    ensures Matches(res, SimpleSpec(item, units), item.total)
  {
    if |item.unitIds| == 0 {
      return Err(SpecificUnitsEmpty);
    }
    var want: set<Id> := {};
    for i := 0 to |item.unitIds|
      invariant forall id :: id in want <==> id in item.unitIds[..i]
    {
      want := want + {item.unitIds[i]};
    }
    var els := [];
    for i := 0 to |units|
      invariant els == Chosen(item.unitIds, units[..i])
    {
      assert units[..i + 1][..i] == units[..i];
      if units[i].id in want {
        els := els + [units[i]];
      }
    }
    assert units[..|units|] == units;
    if |els| == 0 {
      return Err(SpecificUnitsEmpty);
    }
    res := Distribute(item.total, els, SpecificUnits);
  }

  /** What a unit has accumulated so far; a unit not met yet has nothing. */
  function Accumulated(perUnit: map<Id, Share>, id: Id): Share {
    if id in perUnit then perUnit[id] else Share(id, 0.0, 0)
  }

  /** `after` is `before` with the shares added in. */
  ghost predicate Added(before: map<Id, Share>, after: map<Id, Share>, shares: seq<Share>) {
    && (forall s :: s in shares ==>
          s.unit in after &&
          after[s.unit] == Share(s.unit, Accumulated(before, s.unit).exact + s.exact,
                                 Accumulated(before, s.unit).rounded + s.rounded))
    && (forall id :: id in after ==> id in before || exists s :: s in shares && s.unit == id)
  }

  method AddShares(before: map<Id, Share>, shares: seq<Share>) returns (perUnit: map<Id, Share>)
    requires Ordered(shares)
    ensures Added(before, perUnit, shares)
  {
    perUnit := before;
    for k := 0 to |shares|
      invariant forall a :: 0 <= a < k ==>
        shares[a].unit in perUnit &&
        perUnit[shares[a].unit] == Share(shares[a].unit, Accumulated(before, shares[a].unit).exact + shares[a].exact,
                                         Accumulated(before, shares[a].unit).rounded + shares[a].rounded)
      invariant forall a :: k <= a < |shares| ==> Accumulated(perUnit, shares[a].unit) == Accumulated(before, shares[a].unit)
      invariant forall id :: id in perUnit <==> id in before || exists a :: 0 <= a < k && shares[a].unit == id
    {
      var sh := shares[k];
      var acc := Accumulated(perUnit, sh.unit);
      perUnit := perUnit[sh.unit := Share(sh.unit, acc.exact + sh.exact, acc.rounded + sh.rounded)];
    }
  }

  /** The accumulator holds the split, unit by unit. */
  ghost predicate Holds(perUnit: map<Id, Share>, split: Split) {
    && split.Aligned()
    && (forall j :: 0 <= j < |split.els| ==>
          Accumulated(perUnit, split.els[j].id) == Share(split.els[j].id, split.exact[j], split.rounded[j]))
    && (forall id :: id in perUnit ==> exists j :: 0 <= j < |split.els| && split.els[j].id == id)
  }

  lemma SplitSharesOrdered(split: Split)
    requires split.Aligned() && DistinctUnits(split.els)
    ensures Ordered(SortShares(split.Shares()))
  {
    SortSharesOrdered(split.Shares());
  }

  lemma ComponentTakesAll(item: CostItem, pool: nat, w: ComboWeight, units: seq<Unit>)
    requires w.rule != Combined && ComponentSpec(item, pool, w, units).Ok?
    ensures ComponentSpec(item, pool, w, units).value.els == Participants(item.includeVacant, units) != []
  {
  }

  /** The map has one entry per unit, in no particular order. */
  method CollectShares(perUnit: map<Id, Share>) returns (shares: seq<Share>)
    requires forall id :: id in perUnit ==> perUnit[id].unit == id
    ensures forall i, j :: 0 <= i < j < |shares| ==> shares[i].unit != shares[j].unit
    ensures forall x :: x in shares <==> x.unit in perUnit && perUnit[x.unit] == x
  {
    shares := [];
    var left: set<Id> := perUnit.Keys;
    while left != {}
      invariant left <= perUnit.Keys
      invariant forall i, j :: 0 <= i < j < |shares| ==> shares[i].unit != shares[j].unit
      invariant forall x :: x in shares <==> x.unit in perUnit && x.unit !in left && perUnit[x.unit] == x
      decreases |left|
    {
      assert exists id: Id :: id in left by {
        assert (forall id: Id :: id !in left) ==> left == {};
      }
      var id: Id :| id in left;
      shares := shares + [perUnit[id]];
      left := left - {id};
    }
  }

  lemma AddedValue(before: map<Id, Share>, after: map<Id, Share>, acc: Split, component: Split, j: int)
    requires acc.Aligned() && component.Aligned() && component.els == acc.els && 0 <= j < |acc.els|
    requires Accumulated(before, acc.els[j].id) == Share(acc.els[j].id, acc.exact[j], acc.rounded[j])
    requires Added(before, after, SortShares(component.Shares()))
    ensures acc.els[j].id in after
    ensures after[acc.els[j].id]
         == Share(acc.els[j].id, acc.exact[j] + component.exact[j], acc.rounded[j] + component.rounded[j])
  {
    hide SortShares, Accumulated;
    assert component.Shares()[j] in component.Shares();
  }

  lemma AddedUnit(before: map<Id, Share>, after: map<Id, Share>, component: Split, id: Id)
    requires component.Aligned() && Added(before, after, SortShares(component.Shares()))
    requires id in after && id !in before
    ensures exists j :: 0 <= j < |component.els| && component.els[j].id == id
  {
  }

  lemma AddSharesHolds(before: map<Id, Share>, after: map<Id, Share>, acc: Split, component: Split, sum: Split)
    requires Holds(before, acc) && component.Aligned() && component.els == acc.els
    requires Added(before, after, SortShares(component.Shares()))
    requires sum == Split(acc.els, AddReal(acc.exact, component.exact), AddInt(acc.rounded, component.rounded))
    ensures Holds(after, sum) && forall j :: 0 <= j < |sum.els| ==> sum.els[j].id in after
  {
    hide SortShares, Added;
    forall j | 0 <= j < |sum.els|
      ensures sum.els[j].id in after
      ensures after[sum.els[j].id] == Share(sum.els[j].id, sum.exact[j], sum.rounded[j])
    {
      AddedValue(before, after, acc, component, j);
    }
    forall id | id in after
      ensures exists j :: 0 <= j < |sum.els| && sum.els[j].id == id
    {
      if id !in before {
        AddedUnit(before, after, component, id);
      }
    }
  }

  /** Sorting the accumulated shares gives the split's shares, whatever order the map is read in. */
  lemma CollectedIsSplit(perUnit: map<Id, Share>, split: Split, collected: seq<Share>)
    requires Holds(perUnit, split) && DistinctUnits(split.els)
    requires forall j :: 0 <= j < |split.els| ==> split.els[j].id in perUnit
    requires forall i, j :: 0 <= i < j < |collected| ==> collected[i].unit != collected[j].unit
    requires forall x :: x in collected <==> x.unit in perUnit && perUnit[x.unit] == x
    ensures SortShares(collected) == SortShares(split.Shares())
  {
    var shares := split.Shares();
    forall x
      ensures x in collected <==> x in shares
    {
      if x in collected {
        var j :| 0 <= j < |split.els| && split.els[j].id == x.unit;
        assert shares[j] == x;
      }
      if x in shares {
        var j :| 0 <= j < |shares| && shares[j] == x;
        assert split.els[j].id in perUnit;
      }
    }
    SplitSharesOrdered(split);
    SortSharesOrdered(collected);
    OrderedUnique(SortShares(collected), SortShares(shares));
  }

  method CheckWeights(combo: seq<ComboWeight>) returns (ok: bool)
    ensures ok == WeightsValid(combo)
  {
    if |combo| == 0 {
      return false;
    }
    var sum := 0;
    for i := 0 to |combo|
      invariant forall k :: 0 <= k < i ==> combo[k].weight > 0 && combo[k].rule != Combined
      invariant sum == Sum(Percentages(combo)[..i])
    {
      if combo[i].weight <= 0 || combo[i].rule == Combined {
        return false;
      }
      assert Percentages(combo)[..i + 1][..i] == Percentages(combo)[..i];
      sum := sum + combo[i].weight;
    }
    assert Percentages(combo)[..|combo|] == Percentages(combo);
    ok := sum == 100;
  }

  method AllocatePools(item: CostItem) returns (pools: seq<int>)
    requires item.total > 0 && WeightsValid(item.comboWeights)
    ensures pools == Pools(item)
  {
    var exactPools := [];
    for i := 0 to |item.comboWeights|
      invariant |exactPools| == i
      invariant forall k :: 0 <= k < i ==> exactPools[k] == ExactShare(item.total, item.comboWeights[k].weight, 100)
    {
      exactPools := exactPools + [ExactShare(item.total, item.comboWeights[i].weight, 100)];
    }
    ghost var exact := ExactShares(item.total, Percentages(item.comboWeights), 100);
    assert exactPools == exact;
    ExactSharesSplit(item.total, Percentages(item.comboWeights));
    pools := Allocate(item.total, exactPools);
    RoundedIs(item.total, exact, pools);
  }

  // ----- Conservation

  lemma DistributeConserves(total: nat, els: seq<Unit>, rule: Method)
    requires DistributeSpec(total, els, rule).Ok?
    ensures var split := DistributeSpec(total, els, rule).value;
            Sum(split.rounded) == total && ExactSum(split.exact) == total as real
  {
    ExactSharesSplit(total, Weights(rule, els));
  }

  lemma {:induction false} ConstantSums(amount: int, s: seq<int>, e: seq<real>)
    requires |s| == |e| && forall i :: 0 <= i < |s| ==> s[i] == amount && e[i] == amount as real
    ensures Sum(s) == amount * |s| && ExactSum(e) == Sum(s) as real
  {
    if s != [] {
      ConstantSums(amount, s[..|s| - 1], e[..|e| - 1]);
    }
  }

  lemma SimpleConserves(item: CostItem, units: seq<Unit>)
    requires item.rule != Combined && SimpleSpec(item, units).Ok?
    ensures var split := SimpleSpec(item, units).value;
            Sum(split.rounded) == TotalUsed(item, units) && ExactSum(split.exact) == TotalUsed(item, units) as real
  {
    var els := Participants(item.includeVacant, units);
    match item.rule
    case Equal => DistributeConserves(item.total, els, Equal);
    case PerOccupant => DistributeConserves(item.total, els, PerOccupant);
    case PerArea => DistributeConserves(item.total, els, PerArea);
    case Fixed =>
      var split := FixedSplit(item.fixedAmountPerUnit, els);
      ConstantSums(item.fixedAmountPerUnit, split.rounded, split.exact);
    case SpecificUnits => DistributeConserves(item.total, Chosen(item.unitIds, units), SpecificUnits);
  }

  lemma ComponentConserves(item: CostItem, pool: nat, w: ComboWeight, units: seq<Unit>)
    requires w.rule != Combined && ComponentSpec(item, pool, w, units).Ok?
    ensures var split := ComponentSpec(item, pool, w, units).value;
            Sum(split.rounded) == pool && ExactSum(split.exact) == pool as real
  {
    if w.rule == Fixed {
      DistributeConserves(pool, Participants(item.includeVacant, units), Fixed);
    } else {
      SimpleConserves(SubItem(item, pool, w), units);
    }
  }

  lemma {:induction false} SumAdd(a: seq<int>, b: seq<int>)
    requires |a| == |b|
    ensures Sum(AddInt(a, b)) == Sum(a) + Sum(b)
  {
    if a != [] {
      assert AddInt(a, b)[..|a| - 1] == AddInt(a[..|a| - 1], b[..|b| - 1]);
      SumAdd(a[..|a| - 1], b[..|b| - 1]);
    }
  }

  lemma {:induction false} ExactSumAdd(a: seq<real>, b: seq<real>)
    requires |a| == |b|
    ensures ExactSum(AddReal(a, b)) == ExactSum(a) + ExactSum(b)
  {
    if a != [] {
      assert AddReal(a, b)[..|a| - 1] == AddReal(a[..|a| - 1], b[..|b| - 1]);
      ExactSumAdd(a[..|a| - 1], b[..|b| - 1]);
    }
  }

  lemma CombineStep(item: CostItem, units: seq<Unit>, pools: seq<int>, k: nat)
    requires k < |pools| == |item.comboWeights| && forall i :: 0 <= i < |pools| ==> pools[i] >= 0
    requires forall i :: 0 <= i < |pools| ==> item.comboWeights[i].rule != Combined
    ensures var before, component, after :=
              CombineSpec(item, units, pools, k), ComponentSpec(item, pools[k], item.comboWeights[k], units),
              CombineSpec(item, units, pools, k + 1);
            && (after.Ok? <==> before.Ok? && component.Ok?)
            && (before.Err? ==> after == before)
            && (before.Ok? && component.Err? ==> after == component)
            && (after.Ok? ==>
                  && component.value.els == before.value.els == after.value.els != []
                  && after.value.exact == AddReal(before.value.exact, component.value.exact)
                  && after.value.rounded == AddInt(before.value.rounded, component.value.rounded))
  {
    if ComponentSpec(item, pools[k], item.comboWeights[k], units).Ok? {
      ComponentTakesAll(item, pools[k], item.comboWeights[k], units);
    }
    hide ComponentSpec;
  }

  /** Through both rounding levels: what the first components hand out is what their pools hold. */
  lemma {:induction false} CombineConserves(item: CostItem, units: seq<Unit>, pools: seq<int>, k: nat)
    requires k <= |pools| == |item.comboWeights| && forall i :: 0 <= i < |pools| ==> pools[i] >= 0
    requires forall i :: 0 <= i < |pools| ==> item.comboWeights[i].rule != Combined
    requires CombineSpec(item, units, pools, k).Ok?
    ensures var split := CombineSpec(item, units, pools, k).value;
            Sum(split.rounded) == Sum(pools[..k]) && ExactSum(split.exact) == Sum(pools[..k]) as real
  {
    hide ComponentSpec;
    if k == 0 {
      var split := Nothing(Participants(item.includeVacant, units));
      ConstantSums(0, split.rounded, split.exact);
    } else {
      hide CombineSpec, ExactSum;
      var last := k - 1;
      CombineStep(item, units, pools, last);
      CombineConserves(item, units, pools, last);
      ComponentConserves(item, pools[last], item.comboWeights[last], units);
      var before := CombineSpec(item, units, pools, last).value;
      var component := ComponentSpec(item, pools[last], item.comboWeights[last], units).value;
      SumAdd(before.rounded, component.rounded);
      ExactSumAdd(before.exact, component.exact);
      assert pools[..k][..last] == pools[..last];
    }
  }

  /** No Toman appears or disappears, whatever the method: the rounded shares and the exact shares
      both add up to what the item distributes. */
  lemma ItemConserves(item: CostItem, units: seq<Unit>)
    requires ItemSpec(item, units).Ok?
    ensures var split := ItemSpec(item, units).value;
            Sum(split.rounded) == TotalUsed(item, units) && ExactSum(split.exact) == TotalUsed(item, units) as real
  {
    if item.rule == Combined {
      var pools := Pools(item);
      CombineConserves(item, units, pools, |pools|);
      assert pools[..|pools|] == pools;
    } else {
      SimpleConserves(item, units);
    }
  }

  lemma ComponentSum(item: CostItem, pool: nat, w: ComboWeight, units: seq<Unit>)
    requires w.rule != Combined && ComponentSpec(item, pool, w, units).Ok?
    ensures RoundedSum(SortShares(ComponentSpec(item, pool, w, units).value.Shares())) == pool
  {
    var split := ComponentSpec(item, pool, w, units).value;
    ComponentConserves(item, pool, w, units);
    SortSharesSum(split.Shares());
    SharesSum(split);
  }

  lemma {:induction false} CombineFails(item: CostItem, units: seq<Unit>, pools: seq<int>, k: nat, n: nat)
    requires k < n <= |pools| == |item.comboWeights| && forall i :: 0 <= i < |pools| ==> pools[i] >= 0
    requires forall i :: 0 <= i < |pools| ==> item.comboWeights[i].rule != Combined
    requires CombineSpec(item, units, pools, k).Ok?
    requires ComponentSpec(item, pools[k], item.comboWeights[k], units).Err?
    ensures CombineSpec(item, units, pools, n) == Err(ComponentSpec(item, pools[k], item.comboWeights[k], units).error)
  {
    hide CombineSpec, ComponentSpec;
    var last := n - 1;
    CombineStep(item, units, pools, last);
    if k < last {
      CombineFails(item, units, pools, k, last);
    }
  }

  lemma StartsEmpty(acc: Split)
    requires acc.Aligned() && forall j :: 0 <= j < |acc.els| ==> acc.rounded[j] == 0 && acc.exact[j] == 0.0
    ensures Holds(map[], acc)
  {
  }

  lemma HoldsUnits(perUnit: map<Id, Share>, acc: Split)
    requires Holds(perUnit, acc)
    ensures forall id :: id in perUnit ==> perUnit[id].unit == id
  {
  }

  method CalcComponent(item: CostItem, pool: nat, w: ComboWeight, units: seq<Unit>) returns (res: Result<ItemResult>)
    requires w.rule != Combined
    ensures Matches(res, ComponentSpec(item, pool, w, units), pool)
  {
    if w.rule == Fixed {
      var els := SelectParticipants(item.includeVacant, units);
      res := Distribute(pool, els, Fixed);
    } else {
      res := CalcSimple(SubItem(item, pool, w), units);
    }
  }

  method CalcSimple(item: CostItem, units: seq<Unit>) returns (res: Result<ItemResult>)
    requires item.rule != Combined
    ensures Matches(res, SimpleSpec(item, units), TotalUsed(item, units))
  {
    if item.total <= 0 && item.rule != Fixed {
      return Err(NonPositiveTotal);
    }
    if item.rule == Fixed && item.fixedAmountPerUnit <= 0 {
      return Err(NonPositiveTotal);
    }
    match item.rule
    case Equal | PerOccupant | PerArea =>
      var els := SelectParticipants(item.includeVacant, units);
      res := Distribute(item.total, els, item.rule);
    case Fixed => res := CalcFixed(item, units);
    case SpecificUnits => res := CalcSpecific(item, units);
    case Unknown => res := Err(UnknownMethod);
  }

  /** One turn of the component loop: calculate, check, and add the shares unit by unit. */
  method AddComponent(
    item: CostItem, units: seq<Unit>, pool: nat, w: ComboWeight, perUnit: map<Id, Share>, ghost acc: Split)
    returns (res: Result<(map<Id, Share>, int)>, ghost sum: Split)
    requires w.rule != Combined && DistinctUnits(acc.els) && Holds(perUnit, acc)
    requires acc.els == Participants(item.includeVacant, units)
    ensures res.Err? <==> ComponentSpec(item, pool, w, units).Err?
    ensures res.Err? ==> res.error == ComponentSpec(item, pool, w, units).error
    ensures res.Ok? ==>
      var component := ComponentSpec(item, pool, w, units).value;
      && component.els == acc.els
      && sum == Split(acc.els, AddReal(acc.exact, component.exact), AddInt(acc.rounded, component.rounded))
      && Holds(res.value.0, sum) && (forall j :: 0 <= j < |sum.els| ==> sum.els[j].id in res.value.0)
      && res.value.1 == pool
  {
    sum := acc;
    var sub := CalcComponent(item, pool, w, units);
    if sub.Err? {
      return Err(sub.error), acc;
    }
    ghost var component := ComponentSpec(item, pool, w, units).value;
    ComponentTakesAll(item, pool, w, units);
    ComponentSum(item, pool, w, units);
    SplitSharesOrdered(component);
    hide Holds, Added, ComponentSpec, SortShares, Participants, Ordered, RoundedSum;
    var shareSum := SumShares(sub.value.shares);
    var after := AddShares(perUnit, sub.value.shares);
    sum := Split(acc.els, AddReal(acc.exact, component.exact), AddInt(acc.rounded, component.rounded));
    AddSharesHolds(perUnit, after, acc, component, sum);
    res := Ok((after, shareSum));
  }

  method CalcCombined(item: CostItem, units: seq<Unit>) returns (res: Result<ItemResult>)
    requires item.rule == Combined && item.total > 0 && DistinctUnits(units)
    ensures Matches(res, ItemSpec(item, units), item.total)
  {
    var ok := CheckWeights(item.comboWeights);
    if !ok {
      return Err(BadWeights);
    }
    var pools := AllocatePools(item);
    ParticipantsDistinct(item.includeVacant, units);
    ghost var acc := Nothing(Participants(item.includeVacant, units));
    StartsEmpty(acc);
    hide Holds, ComponentSpec, Participants, SortShares, Pools, DistinctUnits, Sum, Nothing;
    var perUnit: map<Id, Share> := map[];
    var running := 0;
    SumOfNone(pools);
    for i := 0 to |item.comboWeights|
      invariant CombineSpec(item, units, pools, i) == Ok(acc) && acc.els == Participants(item.includeVacant, units)
      invariant running == Sum(pools[..i])
      invariant Holds(perUnit, acc)
      invariant i > 0 ==> forall j :: 0 <= j < |acc.els| ==> acc.els[j].id in perUnit
    {
      var next, sum := AddComponent(item, units, pools[i], item.comboWeights[i], perUnit, acc);
      if next.Err? {
        CombineFails(item, units, pools, i, |item.comboWeights|);
        return Err(next.error);
      }
      CombineStep(item, units, pools, i);
      SumOfPrefix(pools, i);
      hide CombineSpec;
      perUnit, running, acc := next.value.0, running + next.value.1, sum;
    }
    assert pools[..|pools|] == pools;
    HoldsUnits(perUnit, acc);
    var collected := CollectShares(perUnit);
    CollectedIsSplit(perUnit, acc, collected);
    res := Ok(ItemResult(item.total, SortShares(collected), running == item.total));
  }

  lemma SumOfNone(s: seq<int>)
    ensures Sum(s[..0]) == 0
  {
  }

  lemma SumOfPrefix(s: seq<int>, i: int)
    requires 0 <= i < |s|
    ensures Sum(s[..i + 1]) == Sum(s[..i]) + s[i]
  {
    assert s[..i + 1][..i] == s[..i];
  }

  /** Computes one cost item's shares across units. */
  method Calculate(item: CostItem, units: seq<Unit>) returns (res: Result<ItemResult>)
    requires DistinctUnits(units)
    ensures Matches(res, ItemSpec(item, units), TotalUsed(item, units))
  {
    if item.total <= 0 && item.rule != Fixed {
      return Err(NonPositiveTotal);
    }
    if item.rule == Combined {
      res := CalcCombined(item, units);
    } else {
      res := CalcSimple(item, units);
    }
  }
}
