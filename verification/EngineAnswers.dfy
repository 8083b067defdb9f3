/** What the charge engine answers, said of the cost item and the units alone: who pays, in proportion to what, out of
    which pool, and which error there is when. */
module EngineAnswers {
  import opened Rounding
  import opened Engine
  import opened EngineGuarantees
  import Charges

  function Occupants(els: seq<Unit>): nat {
    if els == [] then 0 else Occupants(els[..|els| - 1]) + els[|els| - 1].occupants
  }

  function Area(els: seq<Unit>): nat {
    if els == [] then 0 else Area(els[..|els| - 1]) + els[|els| - 1].areaM2
  }

  // ----- Shares in proportion

  lemma {:induction false} WeightSums(els: seq<Unit>, rule: Method)
    ensures rule == PerOccupant ==> Sum(Weights(rule, els)) == Occupants(els)
    ensures rule == PerArea ==> Sum(Weights(rule, els)) == Area(els)
    ensures rule != PerOccupant && rule != PerArea ==> Sum(Weights(rule, els)) == |els|
  {
    if els != [] {
      WeightSums(els[..|els| - 1], rule);
      assert Weights(rule, els)[..|els| - 1] == Weights(rule, els[..|els| - 1]);
    }
  }

  lemma ExactShareTimes(total: int, weight: int, sum: int)
    requires sum > 0
    ensures ExactShare(total, weight, sum) * sum as real == (total * weight) as real
  {
    var part := weight as real / sum as real;
    assert part * sum as real == weight as real;
    assert total as real * part * sum as real == total as real * (part * sum as real);
  }

  /** The share stands to the total as what the unit brings in stands to what all bring in: its occupants, its square
      metres, or itself. */
  ghost predicate InProportion(total: int, els: seq<Unit>, rule: Method, u: Unit, share: real) {
    match rule
    case PerOccupant => Occupants(els) > 0 && share * Occupants(els) as real == (total * u.occupants) as real
    case PerArea => Area(els) > 0 && share * Area(els) as real == (total * u.areaM2) as real
    case _ => share * |els| as real == total as real
  }

  lemma WeightOfIs(rule: Method, u: Unit)
    ensures WeightOf(rule, u) == match rule case PerOccupant => u.occupants case PerArea => u.areaM2 case _ => 1
  {
  }

  lemma WeightIsProportion(total: int, els: seq<Unit>, rule: Method, u: Unit, sum: int)
    requires sum == Sum(Weights(rule, els)) && sum > 0
    ensures InProportion(total, els, rule, u, ExactShare(total, WeightOf(rule, u), sum))
  {
    hide ExactShare, Sum, Weights, Occupants, Area, WeightOf;
    WeightSums(els, rule);
    ExactShareTimes(total, WeightOf(rule, u), sum);
    WeightOfIs(rule, u);
  }

  lemma DistributedInProportion(total: nat, els: seq<Unit>, rule: Method, i: int)
    requires DistributeSpec(total, els, rule).Ok? && 0 <= i < |els|
    ensures InProportion(total, els, rule, els[i], DistributeSpec(total, els, rule).value.exact[i])
    ensures Abs(DistributeSpec(total, els, rule).value.rounded[i] as real - DistributeSpec(total, els, rule).value.exact[i]) < 1.0
  {
    hide InProportion, ExactShare, Sum, Rounded, WeightOf, Abs;
    WeightIsProportion(total, els, rule, els[i], Sum(Weights(rule, els)));
    DistributionClose(total, els, rule, i);
  }

  lemma SimpleInProportion(item: CostItem, units: seq<Unit>, i: int)
    requires item.rule != Combined && ItemSpec(item, units).Ok? && 0 <= i < |ItemSpec(item, units).value.els|
    ensures var split := ItemSpec(item, units).value;
            && split.els == (if item.rule == SpecificUnits then Chosen(item.unitIds, units)
                             else Participants(item.includeVacant, units))
            && Abs(split.rounded[i] as real - split.exact[i]) < 1.0 && item.rule != Unknown
            && (item.rule == Fixed ==> split.rounded[i] == item.fixedAmountPerUnit)
            && (item.rule != Fixed ==> InProportion(item.total, split.els, item.rule, split.els[i], split.exact[i]))
  {
    hide InProportion, DistributeSpec, Participants, Chosen;
    if item.rule != Fixed {
      DistributedInProportion(item.total, ItemSpec(item, units).value.els, item.rule, i);
    }
  }

  /** Of an item that is not combined every participant pays, to less than one Toman, its part of the total by the item's
      method: by occupants, by area, an equal part, or the fixed amount exactly. */
  lemma SimpleShares(item: CostItem, units: seq<Unit>, i: int)
    requires item.rule != Combined && ItemSpec(item, units).Ok? && 0 <= i < |ItemSpec(item, units).value.els|
    ensures var split := ItemSpec(item, units).value;
            var els := if item.rule == SpecificUnits then Chosen(item.unitIds, units) else Participants(item.includeVacant, units);
            && split.els == els
            && Abs(split.rounded[i] as real - split.exact[i]) < 1.0
            && match item.rule
               case Equal => split.exact[i] * |els| as real == item.total as real
               case SpecificUnits => split.exact[i] * |els| as real == item.total as real
               case PerOccupant =>
                 Occupants(els) > 0 && split.exact[i] * Occupants(els) as real == (item.total * els[i].occupants) as real
               case PerArea => Area(els) > 0 && split.exact[i] * Area(els) as real == (item.total * els[i].areaM2) as real
               case Fixed => split.rounded[i] == item.fixedAmountPerUnit
               case _ => false
  {
    hide ItemSpec, Participants, Chosen, Occupants, Area, Abs;
    SimpleInProportion(item, units, i);
  }

  // ----- Pools and combined shares

  /** Each component's pool is its own percentage of the total, to less than one Toman. */
  lemma PoolsFollowPercentages(item: CostItem, k: int)
    requires AcceptedCombined(item) && 0 <= k < |item.comboWeights|
    ensures -100 < 100 * Pools(item)[k] - item.total * item.comboWeights[k].weight < 100
  {
    var p := Percentages(item.comboWeights);
    var exact := ExactShares(item.total, p, 100);
    ExactSharesSplit(item.total, p);
    Quota(item.total, exact, Rounded(item.total, exact), k);
    ExactShareTimes(item.total, p[k], 100);
  }

  lemma ComponentInProportion(item: CostItem, pool: nat, w: ComboWeight, units: seq<Unit>, i: int)
    requires w.rule != Combined && ComponentSpec(item, pool, w, units).Ok?
    requires 0 <= i < |Participants(item.includeVacant, units)|
    ensures var els := Participants(item.includeVacant, units);
            var split := ComponentSpec(item, pool, w, units).value;
            split.els == els && InProportion(pool, els, w.rule, els[i], split.exact[i])
  {
    hide Participants, InProportion;
    ComponentTakesAll(item, pool, w, units);
    DistributedInProportion(pool, Participants(item.includeVacant, units), w.rule, i);
  }

  lemma {:induction false} CombineInParts(item: CostItem, units: seq<Unit>, pools: seq<int>, n: nat, i: int)
    returns (parts: seq<real>)
    requires n <= |pools| == |item.comboWeights| && forall k :: 0 <= k < |pools| ==> pools[k] >= 0
    requires forall k :: 0 <= k < |pools| ==> item.comboWeights[k].rule != Combined
    requires CombineSpec(item, units, pools, n).Ok? && 0 <= i < |Participants(item.includeVacant, units)|
    ensures |parts| == n && ExactSum(parts) == CombineSpec(item, units, pools, n).value.exact[i]
    ensures var els := Participants(item.includeVacant, units);
            forall k :: 0 <= k < n ==> InProportion(pools[k], els, item.comboWeights[k].rule, els[i], parts[k])
  {
    hide ComponentSpec, Participants, InProportion;
    parts := [];
    if n > 0 {
      hide CombineSpec;
      var last := n - 1;
      CombineStep(item, units, pools, last);
      var before := CombineInParts(item, units, pools, last, i);
      ComponentInProportion(item, pools[last], item.comboWeights[last], units, i);
      parts := before + [ComponentSpec(item, pools[last], item.comboWeights[last], units).value.exact[i]];
      assert parts[..last] == before;
    }
  }

  /** The exact share of a combined item is made of one part per component: that component's pool in proportion to
      what that component goes by; the rounded share is within the number of components of it. */
  lemma CombinedShares(item: CostItem, units: seq<Unit>, i: int) returns (parts: seq<real>)
    requires item.rule == Combined && ItemSpec(item, units).Ok? && 0 <= i < |Participants(item.includeVacant, units)|
    ensures WeightsValid(item.comboWeights) && item.total > 0 && |parts| == |item.comboWeights|
    ensures var split := ItemSpec(item, units).value;
            && split.els == Participants(item.includeVacant, units) && split.exact[i] == ExactSum(parts)
            && Abs(split.rounded[i] as real - split.exact[i]) < |parts| as real
    ensures var els := Participants(item.includeVacant, units);
            forall k :: 0 <= k < |parts| ==>
              match item.comboWeights[k].rule
              case PerOccupant =>
                Occupants(els) > 0 && parts[k] * Occupants(els) as real == (Pools(item)[k] * els[i].occupants) as real
              case PerArea => Area(els) > 0 && parts[k] * Area(els) as real == (Pools(item)[k] * els[i].areaM2) as real
              case _ => parts[k] * |els| as real == Pools(item)[k] as real
  {
    hide CombineSpec, Participants, Occupants, Area, Abs, ExactSum, Pools;
    parts := CombineInParts(item, units, Pools(item), |item.comboWeights|, i);
    CombinedClose(item, units, i);
    var els := Participants(item.includeVacant, units);
    forall k | 0 <= k < |parts|
      ensures match item.comboWeights[k].rule
              case PerOccupant =>
                Occupants(els) > 0 && parts[k] * Occupants(els) as real == (Pools(item)[k] * els[i].occupants) as real
              case PerArea => Area(els) > 0 && parts[k] * Area(els) as real == (Pools(item)[k] * els[i].areaM2) as real
              case _ => parts[k] * |els| as real == Pools(item)[k] as real
    {
      assert InProportion(Pools(item)[k], els, item.comboWeights[k].rule, els[i], parts[k]);
    }
  }

  // ----- Combined shares without the pools

  function Brought(rule: Method, u: Unit): nat {
    match rule case PerOccupant => u.occupants case PerArea => u.areaM2 case _ => 1
  }

  function BroughtByAll(rule: Method, els: seq<Unit>): nat {
    match rule case PerOccupant => Occupants(els) case PerArea => Area(els) case _ => |els|
  }

  lemma {:induction false} BringsAtMostAll(rule: Method, els: seq<Unit>, i: int)
    requires 0 <= i < |els|
    ensures Brought(rule, els[i]) <= BroughtByAll(rule, els)
  {
    if i < |els| - 1 {
      BringsAtMostAll(rule, els[..|els| - 1], i);
    }
  }

  function Times(x: real, n: nat): real {
    x * n as real
  }

  lemma TimesDifference(x: real, y: real, n: nat)
    ensures Times(x - y, n) == Times(x, n) - Times(y, n)
    ensures Times(100.0 * y, n) == 100.0 * Times(y, n)
  {
  }

  lemma TimesOrder(x: real, y: real, n: nat)
    ensures x <= y ==> Times(x, n) <= Times(y, n)
  {
    TimesDifference(y, x, n);
    TimesPositive(y - x, n);
    hide Times;
  }

  lemma TimesPositive(x: real, n: nat)
    ensures x >= 0.0 ==> Times(x, n) >= 0.0
  {
    var m := n as real;
    if x >= 0.0 && m >= 0.0 {
      assert x * m >= 0.0;
    }
  }

  lemma BelowOne(x: real, n: nat)
    requires -(n as real) < Times(x, n) < n as real
    ensures Abs(x) < 1.0
  {
    TimesOrder(1.0, x, n);
    TimesOrder(x, -1.0, n);
    assert Times(1.0, n) == n as real && Times(-1.0, n) == -(n as real);
    hide Times;
  }

  lemma ProductRange(gap: int, mine: nat)
    requires -99 <= gap <= 99
    ensures -99 * mine <= gap * mine <= 99 * mine
  {
    assert (99 - gap) * mine >= 0 && (99 + gap) * mine >= 0;
  }

  lemma GapTimes(pool: int, hundredfold: int, mine: nat, all: nat)
    requires -100 < 100 * pool - hundredfold < 100 && mine <= all && 0 < all
    ensures -100 * all < 100 * (pool * mine) - hundredfold * mine < 100 * all
  {
    ProductRange(100 * pool - hundredfold, mine);
    assert (100 * pool - hundredfold) * mine == 100 * (pool * mine) - hundredfold * mine by {
      assert 100 * (pool * mine) == 100 * pool * mine;
    }
  }

  /** Pool and percentage of the total differ by less than one Toman, so the parts of them do. */
  lemma PartsClose(pool: int, hundredfold: int, mine: nat, all: nat, part: real, ideal: real)
    requires mine <= all && 0 < all && -100 < 100 * pool - hundredfold < 100
    requires Times(part, all) == (pool * mine) as real && Times(100.0 * ideal, all) == (hundredfold * mine) as real
    ensures Abs(part - ideal) < 1.0
  {
    hide Times, Abs;
    TimesDifference(part, ideal, all);
    GapTimes(pool, hundredfold, mine, all);
    BelowOne(part - ideal, all);
  }

  lemma {:induction false} SumsClose(parts: seq<real>, ideal: seq<real>)
    requires |parts| == |ideal| && forall k :: 0 <= k < |parts| ==> Abs(parts[k] - ideal[k]) < 1.0
    ensures Abs(ExactSum(parts) - ExactSum(ideal)) <= |parts| as real
  {
    if parts != [] {
      var last := |parts| - 1;
      SumsClose(parts[..last], ideal[..last]);
    }
  }

  ghost function IdealPart(hundredfold: int, mine: nat, all: nat): real
    requires all > 0
  {
    (hundredfold * mine) as real / (100 * all) as real
  }

  lemma IdealPartIs(hundredfold: int, mine: nat, all: nat)
    requires all > 0
    ensures 100.0 * IdealPart(hundredfold, mine, all) * all as real == (hundredfold * mine) as real
  {
    assert (100 * all) as real == 100.0 * all as real;
    assert IdealPart(hundredfold, mine, all) * (100 * all) as real == (hundredfold * mine) as real;
  }

  lemma InProportionIs(total: int, els: seq<Unit>, rule: Method, u: Unit, share: real)
    requires InProportion(total, els, rule, u, share)
    ensures share * BroughtByAll(rule, els) as real == (total * Brought(rule, u)) as real
    ensures els != [] ==> BroughtByAll(rule, els) > 0
  {
  }

  lemma IdealClose(item: CostItem, units: seq<Unit>, i: int, k: int, part: real)
    requires AcceptedCombined(item) && 0 <= i < |Participants(item.includeVacant, units)| && 0 <= k < |item.comboWeights|
    requires var els := Participants(item.includeVacant, units);
             InProportion(Pools(item)[k], els, item.comboWeights[k].rule, els[i], part)
    ensures var els, w := Participants(item.includeVacant, units), item.comboWeights[k];
            && BroughtByAll(w.rule, els) > 0
            && Abs(part - IdealPart(item.total * w.weight, Brought(w.rule, els[i]), BroughtByAll(w.rule, els))) < 1.0
  {
    hide Participants, InProportion, Brought, BroughtByAll, IdealPart, Abs, Pools, WeightsValid;
    var els, w := Participants(item.includeVacant, units), item.comboWeights[k];
    InProportionIs(Pools(item)[k], els, w.rule, els[i], part);
    PoolsFollowPercentages(item, k);
    BringsAtMostAll(w.rule, els, i);
    var mine, all := Brought(w.rule, els[i]), BroughtByAll(w.rule, els);
    IdealPartIs(item.total * w.weight, mine, all);
    PartsClose(Pools(item)[k], item.total * w.weight, mine, all, part, IdealPart(item.total * w.weight, mine, all));
  }

  /** The part is the component's percentage of the total, divided by what the component goes by. */
  ghost predicate IsIdeal(total: int, els: seq<Unit>, w: ComboWeight, u: Unit, ideal: real) {
    match w.rule
    case PerOccupant =>
      Occupants(els) > 0 && 100.0 * ideal * Occupants(els) as real == (total * w.weight * u.occupants) as real
    case PerArea => Area(els) > 0 && 100.0 * ideal * Area(els) as real == (total * w.weight * u.areaM2) as real
    case _ => 100.0 * ideal * |els| as real == (total * w.weight) as real
  }

  ghost function Ideal(total: int, els: seq<Unit>, w: ComboWeight, u: Unit): real
    requires BroughtByAll(w.rule, els) > 0
  {
    IdealPart(total * w.weight, Brought(w.rule, u), BroughtByAll(w.rule, els))
  }

  lemma IdealIs(total: int, els: seq<Unit>, w: ComboWeight, u: Unit)
    requires BroughtByAll(w.rule, els) > 0
    ensures IsIdeal(total, els, w, u, Ideal(total, els, w, u))
  {
    hide IdealPart;
    IdealPartIs(total * w.weight, Brought(w.rule, u), BroughtByAll(w.rule, els));
  }

  lemma CombinedIdeal(item: CostItem, units: seq<Unit>, i: int) returns (ideal: seq<real>)
    requires item.rule == Combined && ItemSpec(item, units).Ok? && 0 <= i < |Participants(item.includeVacant, units)|
    ensures |ideal| == |item.comboWeights| && |ItemSpec(item, units).value.els| == |Participants(item.includeVacant, units)|
    ensures Abs(ItemSpec(item, units).value.rounded[i] as real - ExactSum(ideal)) < (2 * |ideal|) as real
    ensures var els := Participants(item.includeVacant, units);
            forall k :: 0 <= k < |ideal| ==> IsIdeal(item.total, els, item.comboWeights[k], els[i], ideal[k])
  {
    hide CombineSpec, Participants, Brought, BroughtByAll, Abs, ExactSum, Pools, InProportion, IdealPart, IsIdeal;
    var els := Participants(item.includeVacant, units);
    var parts := CombineInParts(item, units, Pools(item), |item.comboWeights|, i);
    CombinedClose(item, units, i);
    forall k | 0 <= k < |parts|
      ensures var w := item.comboWeights[k];
              && BroughtByAll(w.rule, els) > 0 && Abs(parts[k] - Ideal(item.total, els, w, els[i])) < 1.0
              && IsIdeal(item.total, els, w, els[i], Ideal(item.total, els, w, els[i]))
    {
      IdealClose(item, units, i, k, parts[k]);
      IdealIs(item.total, els, item.comboWeights[k], els[i]);
    }
    ideal := seq(|parts|, k requires 0 <= k < |parts| => Ideal(item.total, els, item.comboWeights[k], els[i]));
    SumsClose(parts, ideal);
    NearNear(ItemSpec(item, units).value.rounded[i] as real, ExactSum(parts), ExactSum(ideal), |parts|);
  }

  lemma NearNear(a: real, b: real, c: real, n: nat)
    requires Abs(a - b) < n as real && Abs(b - c) <= n as real
    ensures Abs(a - c) < (2 * n) as real
  {
  }

  /** In terms of the item and the units alone: a participant of a combined item pays, to less than two Toman per
      component, the sum over the components of the component's percentage of the total, divided by what that component
      goes by. */
  lemma CombinedPays(item: CostItem, units: seq<Unit>, i: int) returns (ideal: seq<real>)
    requires item.rule == Combined && ItemSpec(item, units).Ok? && 0 <= i < |Participants(item.includeVacant, units)|
    ensures |ideal| == |item.comboWeights| && |ItemSpec(item, units).value.els| == |Participants(item.includeVacant, units)|
    ensures Abs(ItemSpec(item, units).value.rounded[i] as real - ExactSum(ideal)) < (2 * |ideal|) as real
    ensures var els := Participants(item.includeVacant, units);
            forall k :: 0 <= k < |ideal| ==>
              var w := item.comboWeights[k];
              match w.rule
              case PerOccupant =>
                Occupants(els) > 0
                && 100.0 * ideal[k] * Occupants(els) as real == (item.total * w.weight * els[i].occupants) as real
              case PerArea =>
                Area(els) > 0 && 100.0 * ideal[k] * Area(els) as real == (item.total * w.weight * els[i].areaM2) as real
              case _ => 100.0 * ideal[k] * |els| as real == (item.total * w.weight) as real
  {
    hide ItemSpec, Participants, Occupants, Area, Abs, ExactSum;
    ideal := CombinedIdeal(item, units, i);
  }

  // ----- Who gets the odd Toman

  lemma {:induction false} ParticipantsInOrder(includeVacant: bool, units: seq<Unit>, i: int, j: int) returns (p: int, q: int)
    requires 0 <= i < j < |Participants(includeVacant, units)|
    ensures 0 <= p < q < |units|
    ensures Participants(includeVacant, units)[i] == units[p] && Participants(includeVacant, units)[j] == units[q]
  {
    var last := |units| - 1;
    var rest := Participants(includeVacant, units[..last]);
    if j < |rest| {
      p, q := ParticipantsInOrder(includeVacant, units[..last], i, j);
    } else {
      assert rest[i] in rest;
      p :| 0 <= p < last && units[p] == rest[i];
      q := last;
    }
  }

  lemma {:induction false} ChosenInOrder(wanted: seq<Id>, units: seq<Unit>, i: int, j: int) returns (p: int, q: int)
    requires 0 <= i < j < |Chosen(wanted, units)|
    ensures 0 <= p < q < |units| && Chosen(wanted, units)[i] == units[p] && Chosen(wanted, units)[j] == units[q]
  {
    var last := |units| - 1;
    var rest := Chosen(wanted, units[..last]);
    if j < |rest| {
      p, q := ChosenInOrder(wanted, units[..last], i, j);
    } else {
      assert rest[i] in rest;
      p :| 0 <= p < last && units[p] == rest[i];
      q := last;
    }
  }

  lemma EarlierIndex(item: CostItem, units: seq<Unit>, p: int, q: int, i: int, j: int)
    requires item.rule != Combined && ItemSpec(item, units).Ok? && DistinctUnits(units) && 0 <= p < q < |units|
    requires var els := ItemSpec(item, units).value.els;
             0 <= i < |els| && 0 <= j < |els| && els[i] == units[p] && els[j] == units[q]
    ensures i < j
  {
    SimpleInProportion(item, units, i);
    hide ItemSpec, Participants, Chosen;
    if j < i {
      var a, b;
      if item.rule == SpecificUnits {
        a, b := ChosenInOrder(item.unitIds, units, j, i);
      } else {
        a, b := ParticipantsInOrder(item.includeVacant, units, j, i);
      }
      OnePlace(units, a, q);
      OnePlace(units, b, p);
      assert false;
    }
    if i == j {
      OnePlace(units, p, q);
      assert false;
    }
  }

  lemma OnePlace(units: seq<Unit>, a: int, b: int)
    requires DistinctUnits(units) && 0 <= a < |units| && 0 <= b < |units| && units[a] == units[b]
    ensures a == b
  {
  }

  /** Of two units that bring in the same the one that comes first in the building's list never pays less, and at most
      one Toman more. */
  lemma EarlierPaysTheOddToman(item: CostItem, units: seq<Unit>, p: int, q: int, i: int, j: int)
    requires item.rule != Combined && ItemSpec(item, units).Ok? && DistinctUnits(units) && 0 <= p < q < |units|
    requires var els := ItemSpec(item, units).value.els;
             0 <= i < |els| && 0 <= j < |els| && els[i] == units[p] && els[j] == units[q]
    requires item.rule == PerOccupant ==> units[p].occupants == units[q].occupants
    requires item.rule == PerArea ==> units[p].areaM2 == units[q].areaM2
    ensures var rounded := ItemSpec(item, units).value.rounded;
            rounded[j] <= rounded[i] <= rounded[j] + 1
  {
    EarlierIndex(item, units, p, q, i, j);
    SimpleInProportion(item, units, i);
    hide Participants, Chosen, DistinctUnits;
    if item.rule != Fixed {
      SameWeight(item.total, ItemSpec(item, units).value.els, item.rule, i, j);
    } else {
      SimpleInProportion(item, units, j);
    }
  }

  lemma SameWeight(total: nat, els: seq<Unit>, rule: Method, i: int, j: int)
    requires DistributeSpec(total, els, rule).Ok? && 0 <= i < j < |els|
    requires WeightOf(rule, els[i]) == WeightOf(rule, els[j])
    ensures var rounded := DistributeSpec(total, els, rule).value.rounded;
            rounded[j] <= rounded[i] <= rounded[j] + 1
  {
    var exact := ExactShares(total, Weights(rule, els), Sum(Weights(rule, els)));
    ExactSharesSplit(total, Weights(rule, els));
    hide ExactShare, Sum, Splits;
    Monotone(total, exact, Rounded(total, exact), i, j);
  }

  // ----- Which error there is when

  lemma {:induction false} NobodyBrings(els: seq<Unit>)
    ensures Occupants(els) == 0 <==> forall u :: u in els ==> u.occupants == 0
    ensures Area(els) == 0 <==> forall u :: u in els ==> u.areaM2 == 0
  {
    if els != [] {
      NobodyBrings(els[..|els| - 1]);
      assert els == els[..|els| - 1] + [els[|els| - 1]];
    }
  }

  lemma NoneIn(els: seq<Unit>)
    ensures els == [] <==> forall u :: u !in els
  {
    assert els != [] ==> els[0] in els;
  }

  lemma DistributeFails(total: nat, els: seq<Unit>, rule: Method)
    ensures match DistributeSpec(total, els, rule)
            case Err(e) =>
              if e == NoParticipants then forall u :: u !in els
              else
                && e == ZeroFactor && (exists u :: u in els) && (rule == PerOccupant || rule == PerArea)
                && forall u :: u in els ==> if rule == PerOccupant then u.occupants == 0 else u.areaM2 == 0
            case Ok(_) =>
              && (exists u :: u in els)
              && (rule == PerOccupant ==> exists u :: u in els && u.occupants > 0)
              && (rule == PerArea ==> exists u :: u in els && u.areaM2 > 0)
  {
    NoneIn(els);
    WeightSums(els, rule);
    NobodyBrings(els);
    SumNonNegative(Weights(rule, els));
    assert els != [] ==> els[0] in els;
    hide Occupants, Area, Sum;
  }

  /** Whether the unit takes part in the item. */
  predicate TakesPart(item: CostItem, u: Unit) {
    if item.rule == SpecificUnits then u.id in item.unitIds else !u.vacant || item.includeVacant
  }

  /** An item that is not combined fails exactly for an amount that is not positive, an unknown method, no unit that takes
      part, or none that has any of what the item goes by; in this order. */
  lemma SimpleFailsIff(item: CostItem, units: seq<Unit>)
    requires item.rule != Combined
    ensures var positive := if item.rule == Fixed then item.fixedAmountPerUnit > 0 else item.total > 0;
            var some := exists u :: u in units && TakesPart(item, u);
            match ItemSpec(item, units)
            case Err(NonPositiveTotal) => !positive
            case Err(UnknownMethod) => positive && item.rule == Unknown
            case Err(SpecificUnitsEmpty) => positive && item.rule == SpecificUnits && !some
            case Err(NoParticipants) => positive && item.rule != Unknown && item.rule != SpecificUnits && !some
            case Err(ZeroFactor) =>
              && positive && some && (item.rule == PerOccupant || item.rule == PerArea)
              && forall u :: u in units && TakesPart(item, u) ==>
                   if item.rule == PerOccupant then u.occupants == 0 else u.areaM2 == 0
            case Err(BadWeights) => false
            case Ok(_) =>
              && positive && some && item.rule != Unknown
              && (item.rule == PerOccupant ==> exists u :: u in units && TakesPart(item, u) && u.occupants > 0)
              && (item.rule == PerArea ==> exists u :: u in units && TakesPart(item, u) && u.areaM2 > 0)
  {
    hide DistributeSpec;
    var els := if item.rule == SpecificUnits then Chosen(item.unitIds, units) else Participants(item.includeVacant, units);
    assert forall u :: u in els <==> u in units && TakesPart(item, u);
    hide Participants, Chosen, TakesPart;
    NoneIn(els);
    if item.total >= 0 {
      DistributeFails(item.total, els, item.rule);
    }
    NobodyChosen(units);
  }

  lemma NobodyChosen(units: seq<Unit>)
    ensures Chosen([], units) == []
  {
  }

  /** A combined item is refused for its percentages exactly when there are none, one is not positive or combined again, or
      they do not add up to 100. */
  lemma BadWeightsIff(item: CostItem, units: seq<Unit>)
    requires item.rule == Combined
    ensures ItemSpec(item, units) == Err(NonPositiveTotal) <== item.total <= 0
    ensures ItemSpec(item, units) == Err(BadWeights)
       <==> item.total > 0
            && (item.comboWeights == []
                || (exists k :: 0 <= k < |item.comboWeights|
                      && (item.comboWeights[k].weight <= 0 || item.comboWeights[k].rule == Combined))
                || Sum(Percentages(item.comboWeights)) != 100)
  {
    if item.total > 0 && WeightsValid(item.comboWeights) {
      CombineError(item, units, Pools(item), |item.comboWeights|);
    }
    hide CombineSpec, Pools;
  }

  lemma {:induction false} CombineError(item: CostItem, units: seq<Unit>, pools: seq<int>, n: nat)
    requires n <= |pools| == |item.comboWeights| && forall k :: 0 <= k < |pools| ==> pools[k] >= 0
    requires forall k :: 0 <= k < |pools| ==> item.comboWeights[k].rule != Combined
    ensures CombineSpec(item, units, pools, n) != Err(BadWeights)
  {
    hide DistributeSpec, Participants, Chosen, ComponentSpec;
    if n > 0 {
      CombineError(item, units, pools, n - 1);
      CombineStep(item, units, pools, n - 1);
      hide CombineSpec;
      if ComponentSpec(item, pools[n - 1], item.comboWeights[n - 1], units).Err? {
        ComponentError(item, pools[n - 1], item.comboWeights[n - 1], units);
      }
    }
  }

  /** The first component that cannot be calculated decides the error: a method that charges chosen units or is unknown,
      an empty pool, nobody to pay, or nothing to go by. */
  lemma FirstComponentFails(item: CostItem, units: seq<Unit>, k: int)
    requires AcceptedCombined(item) && 0 <= k < |item.comboWeights|
    requires forall i :: 0 <= i < k ==> ComponentPossible(item, Pools(item)[i], item.comboWeights[i], units)
    requires !ComponentPossible(item, Pools(item)[k], item.comboWeights[k], units)
    ensures var w := item.comboWeights[k];
            var some := exists u :: u in units && (!u.vacant || item.includeVacant);
            ItemSpec(item, units) == Err(
              if w.rule == Fixed then NoParticipants
              else if Pools(item)[k] == 0 then NonPositiveTotal
              else if w.rule == SpecificUnits then SpecificUnitsEmpty
              else if w.rule == Unknown then UnknownMethod
              else if some then ZeroFactor else NoParticipants)
  {
    var pools := Pools(item);
    hide Pools, ComponentPossible, CombineSpec;
    CombineSucceeds(item, units, pools, k);
    ComponentSucceeds(item, pools[k], item.comboWeights[k], units);
    CombineFails(item, units, pools, k, |pools|);
    ComponentError(item, pools[k], item.comboWeights[k], units);
    hide ComponentSpec;
  }

  lemma ComponentError(item: CostItem, pool: nat, w: ComboWeight, units: seq<Unit>)
    requires w.rule != Combined && ComponentSpec(item, pool, w, units).Err?
    ensures var some := exists u :: u in units && (!u.vacant || item.includeVacant);
            ComponentSpec(item, pool, w, units).error
            == if w.rule == Fixed then NoParticipants
               else if pool == 0 then NonPositiveTotal
               else if w.rule == SpecificUnits then SpecificUnitsEmpty
               else if w.rule == Unknown then UnknownMethod
               else if some then ZeroFactor else NoParticipants
  {
    var sub := SubItem(item, pool, w);
    hide DistributeSpec;
    if w.rule == Fixed {
      DistributeFails(pool, Participants(item.includeVacant, units), Fixed);
    } else {
      SimpleFailsIff(sub, units);
      assert ItemSpec(sub, units) == ComponentSpec(item, pool, w, units);
      hide ItemSpec, ComponentSpec;
    }
    assert forall u :: TakesPart(sub, u) <==> if w.rule == SpecificUnits then false else !u.vacant || item.includeVacant;
    hide Participants, Chosen;
  }

  /** What a calculation returns: one share for each that takes part, in the order of the units' identifiers, with the exact
      and the rounded share that the unit has in the split; the shares add up to the total that is reported. */
  lemma ReturnsTheShares(item: CostItem, units: seq<Unit>, res: Result<ItemResult>)
    requires Matches(res, ItemSpec(item, units), TotalUsed(item, units)) && DistinctUnits(units) && res.Ok?
    ensures ItemSpec(item, units).Ok?
    ensures var split, shares := ItemSpec(item, units).value, res.value.shares;
            && Ordered(shares) && |shares| == |split.els|
            && (forall j :: 0 <= j < |split.els| ==> Share(split.els[j].id, split.exact[j], split.rounded[j]) in shares)
            && res.value.totalUsed == RoundedSum(shares) && res.value.reconciled
            && (item.rule != Fixed ==> res.value.totalUsed == item.total)
  {
    var split := ItemSpec(item, units).value;
    ItemConserves(item, units);
    SortSharesSum(split.Shares());
    SharesSum(split);
    Charges.ParticipantsAreUnits(item, units);
    SplitSharesOrdered(split);
    hide ItemSpec, SortShares, Ordered, RoundedSum, Sum, ExactSum, DistinctUnits;
    forall j | 0 <= j < |split.els|
      ensures Share(split.els[j].id, split.exact[j], split.rounded[j]) in res.value.shares
    {
      assert split.Shares()[j] in split.Shares();
    }
  }
}
