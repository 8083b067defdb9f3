/** What the charge engine guarantees about its results: who pays, how far a rounded share can
    be from the exact one, and exactly when a calculation succeeds. */
module EngineGuarantees {
  import opened Rounding
  import opened Engine

  lemma ExactShareIncreases(total: int, a: nat, b: nat, sum: int)
    requires total > 0 && sum > 0
    ensures a > b ==> ExactShare(total, a, sum) > ExactShare(total, b, sum)
  {
  }

  /** A unit that weighs more never pays less; units of equal weight differ by at most one Toman;
      a unit that weighs nothing pays nothing; nobody pays more than the total. */
  lemma DistributionFair(total: int, els: seq<Unit>, rule: Method, i: int, j: int)
    requires total > 0 && DistributeSpec(total, els, rule).Ok? && 0 <= i < |els| && 0 <= j < |els|
    ensures var rounded := DistributeSpec(total, els, rule).value.rounded;
            && (WeightOf(rule, els[i]) > WeightOf(rule, els[j]) ==> rounded[i] >= rounded[j])
            && (WeightOf(rule, els[i]) == WeightOf(rule, els[j]) ==> -1 <= rounded[i] - rounded[j] <= 1)
            && (WeightOf(rule, els[i]) == 0 ==> rounded[i] == 0)
            && 0 <= rounded[i] <= total
  {
    var weights := Weights(rule, els);
    var sum := Sum(weights);
    var exact := ExactShares(total, weights, sum);
    var rounded := DistributeSpec(total, els, rule).value.rounded;
    ExactSharesSplit(total, weights);
    ExactShareIncreases(total, weights[i], weights[j], sum);
    Monotone(total, exact, rounded, i, j);
    Monotone(total, exact, rounded, j, i);
    Quota(total, exact, rounded, i);
    if weights[i] == 0 {
      assert exact[i] == 0.0;
      WholeSharesKept(total, exact, rounded, i);
    }
  }

  /** Every rounded share is within one Toman of the exact one. */
  lemma DistributionClose(total: nat, els: seq<Unit>, rule: Method, i: int)
    requires DistributeSpec(total, els, rule).Ok? && 0 <= i < |els|
    ensures var split := DistributeSpec(total, els, rule).value;
            Abs(split.rounded[i] as real - split.exact[i]) < 1.0
  {
    ExactSharesSplit(total, Weights(rule, els));
    var split := DistributeSpec(total, els, rule).value;
    Quota(total, split.exact, split.rounded, i);
  }

  lemma ComponentClose(item: CostItem, pool: nat, w: ComboWeight, units: seq<Unit>, i: int)
    requires w.rule != Combined && ComponentSpec(item, pool, w, units).Ok?
    requires 0 <= i < |Participants(item.includeVacant, units)|
    ensures var split := ComponentSpec(item, pool, w, units).value;
            |split.els| == |Participants(item.includeVacant, units)| && Abs(split.rounded[i] as real - split.exact[i]) < 1.0
  {
    var els := Participants(item.includeVacant, units);
    ComponentTakesAll(item, pool, w, units);
    DistributionClose(pool, els, w.rule, i);
  }

  lemma AbsAdds(a: real, b: real)
    ensures Abs(a + b) <= Abs(a) + Abs(b)
  {
  }

  lemma {:induction false} CombineClose(item: CostItem, units: seq<Unit>, pools: seq<int>, k: nat, i: int)
    requires k <= |pools| == |item.comboWeights| && forall i :: 0 <= i < |pools| ==> pools[i] >= 0
    requires forall i :: 0 <= i < |pools| ==> item.comboWeights[i].rule != Combined
    requires CombineSpec(item, units, pools, k).Ok? && 0 <= i < |Participants(item.includeVacant, units)|
    ensures var split := CombineSpec(item, units, pools, k).value;
            Abs(split.rounded[i] as real - split.exact[i]) <= k as real
            && (k > 0 ==> Abs(split.rounded[i] as real - split.exact[i]) < k as real)
  {
    hide ComponentSpec;
    if k > 0 {
      hide CombineSpec, Abs;
      var last := k - 1;
      CombineStep(item, units, pools, last);
      CombineClose(item, units, pools, last, i);
      ComponentClose(item, pools[last], item.comboWeights[last], units, i);
      var before := CombineSpec(item, units, pools, last).value;
      var component := ComponentSpec(item, pools[last], item.comboWeights[last], units).value;
      AbsAdds(before.rounded[i] as real - before.exact[i], component.rounded[i] as real - component.exact[i]);
      assert (before.rounded[i] + component.rounded[i]) as real - (before.exact[i] + component.exact[i])
          == before.rounded[i] as real - before.exact[i] + (component.rounded[i] as real - component.exact[i]);
    }
  }

  /** Rounding twice does not pile up: a combined share is off by less than one Toman per component. */
  lemma CombinedClose(item: CostItem, units: seq<Unit>, i: int)
    requires item.rule == Combined && ItemSpec(item, units).Ok? && 0 <= i < |Participants(item.includeVacant, units)|
    ensures var split := ItemSpec(item, units).value;
            split.els == Participants(item.includeVacant, units)
            && Abs(split.rounded[i] as real - split.exact[i]) < |item.comboWeights| as real
  {
    hide CombineSpec, Abs;
    CombineClose(item, units, Pools(item), |item.comboWeights|, i);
  }

  // ----- When a combined item can be calculated

  predicate Shareable(rule: Method, els: seq<Unit>) {
    els != [] && Sum(Weights(rule, els)) > 0
  }

  /** A component can be calculated: it has participants with weight, and a pool where one is required. */
  predicate ComponentPossible(item: CostItem, pool: int, w: ComboWeight, units: seq<Unit>) {
    var els := Participants(item.includeVacant, units);
    match w.rule
    case Fixed => Shareable(Fixed, els)
    case Equal | PerOccupant | PerArea => pool > 0 && Shareable(w.rule, els)
    case _ => false
  }

  lemma ComponentSucceeds(item: CostItem, pool: nat, w: ComboWeight, units: seq<Unit>)
    requires w.rule != Combined
    ensures ComponentSpec(item, pool, w, units).Ok? <==> ComponentPossible(item, pool, w, units)
  {
  }

  lemma {:induction false} CombineSucceeds(item: CostItem, units: seq<Unit>, pools: seq<int>, k: nat)
    requires k <= |pools| == |item.comboWeights| && forall i :: 0 <= i < |pools| ==> pools[i] >= 0
    requires forall i :: 0 <= i < |pools| ==> item.comboWeights[i].rule != Combined
    ensures CombineSpec(item, units, pools, k).Ok? <==>
              forall i :: 0 <= i < k ==> ComponentPossible(item, pools[i], item.comboWeights[i], units)
  {
    hide ComponentSpec, ComponentPossible;
    if k > 0 {
      hide CombineSpec;
      var last := k - 1;
      CombineStep(item, units, pools, last);
      CombineSucceeds(item, units, pools, last);
      ComponentSucceeds(item, pools[last], item.comboWeights[last], units);
    }
  }

  /** What the cost-item form accepts as a combined item. */
  predicate AcceptedCombined(item: CostItem) {
    item.rule == Combined && item.total > 0 && WeightsValid(item.comboWeights)
  }

  /** An accepted combined item can be calculated exactly when each of its components can. */
  lemma CombinedSucceeds(item: CostItem, units: seq<Unit>)
    requires AcceptedCombined(item)
    ensures ItemSpec(item, units).Ok? <==>
              forall i :: 0 <= i < |item.comboWeights| ==>
                ComponentPossible(item, Pools(item)[i], item.comboWeights[i], units)
  {
    CombineSucceeds(item, units, Pools(item), |item.comboWeights|);
  }

  /** From 100 Toman on no pool is empty, so only the participants can stand in the way. */
  lemma PoolsPositive(item: CostItem, i: int)
    requires AcceptedCombined(item) && item.total >= 100 && 0 <= i < |item.comboWeights|
    ensures Pools(item)[i] > 0
  {
  }

  /** A component that charges chosen units is accepted by the form, yet no calculation of the
      item ever succeeds: the component is given no chosen units. */
  lemma ChosenUnitsNeverCombine(item: CostItem, units: seq<Unit>, i: int)
    requires AcceptedCombined(item) && 0 <= i < |item.comboWeights| && item.comboWeights[i].rule == SpecificUnits
    ensures ItemSpec(item, units).Err?
  {
    CombinedSucceeds(item, units);
    assert !ComponentPossible(item, Pools(item)[i], item.comboWeights[i], units);
  }

  const ONE_TOMAN := CostItem(1, Combined, 0, [ComboWeight(Equal, 50), ComboWeight(Equal, 50)], true, [])

  /** Below 100 Toman an accepted item can fail on an empty pool: one Toman does not divide in two. */
  lemma OneTomanFails()
    ensures AcceptedCombined(ONE_TOMAN)
    ensures Pools(ONE_TOMAN) == [1, 0]
    ensures ItemSpec(ONE_TOMAN, [Unit(1, 1, 1, false)]).Err?
  {
    var combo := ONE_TOMAN.comboWeights;
    var p := Percentages(combo);
    assert p == [50, 50];
    assert p[..1] == [50] && [50][..0] == [];
    assert Sum([50]) == 50;
    assert Sum(p) == 100;
    var exact := ExactShares(1, p, 100);
    ExactSharesSplit(1, p);
    assert exact == [0.5, 0.5];
    assert [1, 0][..1] == [1];
    assert LargestRemainder(1, exact, [1, 0]);
    LargestRemainderUnique(1, exact, Rounded(1, exact), [1, 0]);
    CombinedSucceeds(ONE_TOMAN, [Unit(1, 1, 1, false)]);
    assert !ComponentPossible(ONE_TOMAN, Pools(ONE_TOMAN)[1], combo[1], [Unit(1, 1, 1, false)]);
  }
}
