/** From cost items to invoices (backend/internal/billing/calc_service.go): the shares of every
    item, turned round into one list of charge rows per unit. */
module Charges {
  import opened Rounding
  import opened Engine

  datatype PeriodItem = PeriodItem(id: Id, cost: CostItem)

  /** A stored share of one unit in one item. */
  datatype ShareRow = ShareRow(item: Id, unit: Id, rounded: int)

  /** A displayed invoice row. */
  datatype Row = ChargeRow(item: Id, amount: int) | LateFeeRow(amount: int) | AdjustmentRow(amount: int)

  function RowSum(rows: seq<Row>): int {
    if rows == [] then 0 else RowSum(rows[..|rows| - 1]) + rows[|rows| - 1].amount
  }

  lemma RowSumAppend(rows: seq<Row>, row: Row)
    ensures RowSum(rows + [row]) == RowSum(rows) + row.amount
  {
  }

  ghost predicate Calculable(items: seq<PeriodItem>, units: seq<Unit>) {
    forall k :: 0 <= k < |items| ==> ItemSpec(items[k].cost, units).Ok?
  }

  /** The unit's place among those who share the item, if it has one. */
  ghost predicate SharesAt(split: Split, unit: Id, j: int) {
    0 <= j < |split.els| && split.els[j].id == unit
  }

  /** What the unit owes of one item: one row if it takes part, none otherwise. */
  ghost function RowsFor(item: Id, split: Split, unit: Id): seq<Row>
    requires split.Aligned()
  {
    if exists j :: SharesAt(split, unit, j) then
      var j :| SharesAt(split, unit, j);
      [ChargeRow(item, split.rounded[j])]
    else []
  }

  /** The unit's charge rows, item by item. */
  ghost function ChargeRows(items: seq<PeriodItem>, units: seq<Unit>, unit: Id): seq<Row>
    requires Calculable(items, units)
  {
    if items == [] then []
    else
      var last := |items| - 1;
      ChargeRows(items[..last], units, unit) + RowsFor(items[last].id, ItemSpec(items[last].cost, units).value, unit)
  }

  function ToShareRows(item: Id, shares: seq<Share>): (rows: seq<ShareRow>)
    ensures |rows| == |shares|
    ensures forall k :: 0 <= k < |shares| ==> rows[k] == ShareRow(item, shares[k].unit, shares[k].rounded)
  {
    seq(|shares|, k requires 0 <= k < |shares| => ShareRow(item, shares[k].unit, shares[k].rounded))
  }

  /** All shares of the calculation, item by item and sorted by unit within an item. */
  ghost function ShareRows(items: seq<PeriodItem>, units: seq<Unit>): seq<ShareRow>
    requires Calculable(items, units)
  {
    if items == [] then []
    else
      var last := |items| - 1;
      ShareRows(items[..last], units)
      + ToShareRows(items[last].id, SortShares(ItemSpec(items[last].cost, units).value.Shares()))
  }

  /** The error of the first item that cannot be calculated. */
  ghost function FirstError(items: seq<PeriodItem>, units: seq<Unit>): Error
    requires !Calculable(items, units)
  {
    if ItemSpec(items[0].cost, units).Err? then ItemSpec(items[0].cost, units).error
    else
      assert !Calculable(items[1..], units) by {
        var k :| 0 <= k < |items| && ItemSpec(items[k].cost, units).Err?;
        assert items[1..][k - 1] == items[k];
      }
      FirstError(items[1..], units)
  }

  // ----- What rows and stored shares say

  lemma CalculableParts(a: seq<PeriodItem>, b: seq<PeriodItem>, units: seq<Unit>)
    ensures Calculable(a + b, units) <==> Calculable(a, units) && Calculable(b, units)
  {
    hide ItemSpec;
    if Calculable(a + b, units) {
      assert forall k :: 0 <= k < |a| ==> (a + b)[k] == a[k];
      assert forall k :: 0 <= k < |b| ==> (a + b)[|a| + k] == b[k];
    }
  }

  /** Rows and shares follow the order of the items. */
  lemma {:induction false} ItemByItem(a: seq<PeriodItem>, b: seq<PeriodItem>, units: seq<Unit>, unit: Id)
    requires Calculable(a + b, units)
    ensures Calculable(a, units) && Calculable(b, units)
    ensures ChargeRows(a + b, units, unit) == ChargeRows(a, units, unit) + ChargeRows(b, units, unit)
    ensures ShareRows(a + b, units) == ShareRows(a, units) + ShareRows(b, units)
  {
    hide ItemSpec, RowsFor, ToShareRows, SortShares, Calculable, ChargeRows, ShareRows;
    CalculableParts(a, b, units);
    if b == [] {
      assert a + b == a;
      NoItemsNoRows(units, unit);
    } else {
      var last := |b| - 1;
      assert (a + b)[..|a + b| - 1] == a + b[..last] && (a + b)[|a + b| - 1] == b[last];
      LastItem(a + b, units, unit);
      LastItem(b, units, unit);
      ItemByItem(a, b[..last], units, unit);
    }
  }

  lemma NoItemsNoRows(units: seq<Unit>, unit: Id)
    ensures Calculable([], units) && ChargeRows([], units, unit) == [] && ShareRows([], units) == []
  {
  }

  lemma LastItem(items: seq<PeriodItem>, units: seq<Unit>, unit: Id)
    requires items != [] && Calculable(items, units)
    ensures var last := items[|items| - 1];
            && Calculable(items[..|items| - 1], units) && ItemSpec(last.cost, units).Ok?
            && ChargeRows(items, units, unit)
               == ChargeRows(items[..|items| - 1], units, unit) + RowsFor(last.id, ItemSpec(last.cost, units).value, unit)
            && ShareRows(items, units)
               == ShareRows(items[..|items| - 1], units)
                  + ToShareRows(last.id, SortShares(ItemSpec(last.cost, units).value.Shares()))
  {
    hide ItemSpec, RowsFor, ToShareRows, SortShares;
  }

  /** Of one item a unit that shares it gets one row, with its own rounded share; any other unit gets none. */
  lemma RowOfItem(item: PeriodItem, units: seq<Unit>, unit: Id)
    requires ItemSpec(item.cost, units).Ok? && DistinctUnits(units)
    ensures Calculable([item], units)
    ensures var split := ItemSpec(item.cost, units).value;
            && (forall j :: 0 <= j < |split.els| && split.els[j].id == unit ==>
                  ChargeRows([item], units, unit) == [ChargeRow(item.id, split.rounded[j])])
            && ((forall j :: 0 <= j < |split.els| ==> split.els[j].id != unit) ==> ChargeRows([item], units, unit) == [])
  {
    var split := ItemSpec(item.cost, units).value;
    ParticipantsAreUnits(item.cost, units);
    hide ItemSpec;
    assert [item][..0] == [];
    assert ChargeRows([item], units, unit) == [] + RowsFor(item.id, split, unit);
    forall j | 0 <= j < |split.els| && split.els[j].id == unit
      ensures RowsFor(item.id, split, unit) == [ChargeRow(item.id, split.rounded[j])]
    {
      assert SharesAt(split, unit, j);
    }
  }

  /** How often a unit has a charge row is how often the share is stored for it. */
  lemma {:induction false} RowsAreShares(items: seq<PeriodItem>, units: seq<Unit>, unit: Id, item: Id, amount: int)
    requires Calculable(items, units) && DistinctUnits(units)
    ensures multiset(ChargeRows(items, units, unit))[ChargeRow(item, amount)]
         == multiset(ShareRows(items, units))[ShareRow(item, unit, amount)]
  {
    if items != [] {
      var last := |items| - 1;
      var own := items[last];
      RowsAreShares(items[..last], units, unit, item, amount);
      var split := ItemSpec(own.cost, units).value;
      ParticipantsAreUnits(own.cost, units);
      SplitSharesOrdered(split);
      hide ItemSpec, DistinctUnits, Ordered, SortShares;
      OneItemRow(own.id, split, unit, item, amount);
      hide RowsFor, ToShareRows;
    }
  }

  lemma OneItemRow(own: Id, split: Split, unit: Id, item: Id, amount: int)
    requires split.Aligned() && DistinctUnits(split.els) && Ordered(SortShares(split.Shares()))
    ensures multiset(RowsFor(own, split, unit))[ChargeRow(item, amount)]
         == multiset(ToShareRows(own, SortShares(split.Shares())))[ShareRow(item, unit, amount)]
  {
    var shares := SortShares(split.Shares());
    CountShares(own, shares, unit, item, amount);
    if j :| SharesAt(split, unit, j) {
      assert RowsFor(own, split, unit) == [ChargeRow(own, split.rounded[j])];
      assert split.Shares()[j] in shares;
      var k :| 0 <= k < |shares| && shares[k] == split.Shares()[j];
    } else {
      forall k | 0 <= k < |shares|
        ensures shares[k].unit != unit
      {
        assert shares[k] in split.Shares();
        var j :| 0 <= j < |split.els| && split.Shares()[j] == shares[k];
        assert !SharesAt(split, unit, j);
      }
    }
  }

  lemma {:induction false} CountShares(own: Id, shares: seq<Share>, unit: Id, item: Id, amount: int)
    requires Ordered(shares)
    ensures multiset(ToShareRows(own, shares))[ShareRow(item, unit, amount)]
         == if own == item && exists k :: 0 <= k < |shares| && shares[k].unit == unit && shares[k].rounded == amount then 1 else 0
  {
    if shares != [] {
      var last := |shares| - 1;
      CountShares(own, shares[..last], unit, item, amount);
      assert ToShareRows(own, shares) == ToShareRows(own, shares[..last]) + [ShareRow(own, shares[last].unit, shares[last].rounded)];
      if k :| 0 <= k < last && shares[..last][k].unit == unit && shares[..last][k].rounded == amount {
        assert shares[k].unit == unit && shares[last].unit != unit;
      } else if shares[last].unit == unit && shares[last].rounded == amount {
        assert exists k :: 0 <= k < |shares| && shares[k].unit == unit && shares[k].rounded == amount;
      }
    }
  }

  // ----- No money is lost between items and invoices

  lemma {:induction false} ParticipantsAreUnits(item: CostItem, units: seq<Unit>)
    requires ItemSpec(item, units).Ok? && DistinctUnits(units)
    ensures var els := ItemSpec(item, units).value.els;
            DistinctUnits(els) && forall u :: u in els ==> u in units
  {
    ParticipantsDistinct(item.includeVacant, units);
    ChosenDistinct(item.unitIds, units);
    hide DistinctUnits, CombineSpec, Participants, Chosen, Rounded, ExactShares, Weights, Sum;
  }

  /** The base amounts that one item contributes to the first `n` units. */
  ghost function ItemOverUnits(item: Id, split: Split, units: seq<Unit>, n: nat): int
    requires split.Aligned() && n <= |units|
  {
    if n == 0 then 0
    else ItemOverUnits(item, split, units, n - 1) + RowSum(RowsFor(item, split, units[n - 1].id))
  }

  /** Taking the last participant out of a split takes its share out of the units' total. */
  lemma {:induction false} DropParticipant(item: Id, split: Split, rest: Split, units: seq<Unit>, n: nat, at: int)
    requires split.Aligned() && split.els != [] && DistinctUnits(split.els) && DistinctUnits(units) && n <= |units|
    requires rest == Split(split.els[..|split.els| - 1], split.exact[..|split.els| - 1], split.rounded[..|split.els| - 1])
    requires 0 <= at < |units| && units[at].id == split.els[|split.els| - 1].id
    ensures ItemOverUnits(item, split, units, n)
         == ItemOverUnits(item, rest, units, n) + if at < n then split.rounded[|split.els| - 1] else 0
  {
    if n > 0 {
      DropParticipant(item, split, rest, units, n - 1, at);
      DropOne(item, split, rest, units[n - 1].id);
    }
  }

  lemma DropOne(item: Id, split: Split, rest: Split, unit: Id)
    requires split.Aligned() && split.els != [] && DistinctUnits(split.els)
    requires rest == Split(split.els[..|split.els| - 1], split.exact[..|split.els| - 1], split.rounded[..|split.els| - 1])
    ensures RowSum(RowsFor(item, split, unit))
         == if split.els[|split.els| - 1].id == unit then split.rounded[|split.els| - 1]
            else RowSum(RowsFor(item, rest, unit))
    ensures split.els[|split.els| - 1].id == unit ==> RowSum(RowsFor(item, rest, unit)) == 0
  {
    var last := |split.els| - 1;
    if split.els[last].id == unit {
      assert SharesAt(split, unit, last);
      assert forall j :: SharesAt(rest, unit, j) ==> split.els[j].id == unit;
    } else if exists j :: SharesAt(split, unit, j) {
      var j :| SharesAt(split, unit, j);
      assert SharesAt(rest, unit, j);
    } else {
      assert forall j :: SharesAt(rest, unit, j) ==> SharesAt(split, unit, j);
    }
  }

  lemma {:induction false} NoParticipantsNoRows(item: Id, split: Split, units: seq<Unit>, n: nat)
    requires split.Aligned() && split.els == [] && n <= |units|
    ensures ItemOverUnits(item, split, units, n) == 0
  {
    if n > 0 {
      NoParticipantsNoRows(item, split, units, n - 1);
      var unit := units[n - 1].id;
      assert !exists j :: SharesAt(split, unit, j);
    }
  }

  /** Every rounded share of an item lands in the base of exactly one unit. */
  lemma {:induction false} ItemOverAllUnits(item: Id, split: Split, units: seq<Unit>)
    requires split.Aligned() && DistinctUnits(split.els) && DistinctUnits(units)
    requires forall u :: u in split.els ==> u in units
    ensures ItemOverUnits(item, split, units, |units|) == Sum(split.rounded)
    decreases |split.els|
  {
    if split.els == [] {
      NoParticipantsNoRows(item, split, units, |units|);
    } else {
      var last := |split.els| - 1;
      var rest := Split(split.els[..last], split.exact[..last], split.rounded[..last]);
      assert split.els[last] in units;
      var at :| 0 <= at < |units| && units[at] == split.els[last];
      DropParticipant(item, split, rest, units, |units|, at);
      ItemOverAllUnits(item, rest, units);
    }
  }

  /** The base amounts of the first `n` units. */
  ghost function BaseTotal(items: seq<PeriodItem>, units: seq<Unit>, n: nat): int
    requires Calculable(items, units) && n <= |units|
  {
    if n == 0 then 0
    else BaseTotal(items, units, n - 1) + RowSum(ChargeRows(items, units, units[n - 1].id))
  }

  /** What the items distribute. */
  ghost function UsedTotal(items: seq<PeriodItem>, units: seq<Unit>): int {
    if items == [] then 0
    else UsedTotal(items[..|items| - 1], units) + TotalUsed(items[|items| - 1].cost, units)
  }

  lemma LastItemRows(items: seq<PeriodItem>, units: seq<Unit>, unit: Id)
    requires items != [] && Calculable(items, units)
    ensures RowSum(ChargeRows(items, units, unit))
         == RowSum(ChargeRows(items[..|items| - 1], units, unit))
            + RowSum(RowsFor(items[|items| - 1].id, ItemSpec(items[|items| - 1].cost, units).value, unit))
  {
    hide ItemSpec, SharesAt;
    var last := |items| - 1;
    var before := ChargeRows(items[..last], units, unit);
    var rows := RowsFor(items[last].id, ItemSpec(items[last].cost, units).value, unit);
    if rows == [] {
      assert before + rows == before;
    } else {
      assert rows == [rows[0]];
      RowSumAppend(before, rows[0]);
      RowSumAppend([], rows[0]);
    }
  }

  lemma {:induction false} BaseSplitsByItem(items: seq<PeriodItem>, units: seq<Unit>, n: nat)
    requires items != [] && Calculable(items, units) && n <= |units|
    ensures BaseTotal(items, units, n)
         == BaseTotal(items[..|items| - 1], units, n)
            + ItemOverUnits(items[|items| - 1].id, ItemSpec(items[|items| - 1].cost, units).value, units, n)
  {
    hide ItemSpec, RowSum, ChargeRows, RowsFor;
    if n > 0 {
      BaseSplitsByItem(items, units, n - 1);
      LastItemRows(items, units, units[n - 1].id);
    }
  }

  lemma {:induction false} NoItemsNoBase(items: seq<PeriodItem>, units: seq<Unit>, n: nat)
    requires items == [] && n <= |units|
    ensures BaseTotal(items, units, n) == 0
  {
    if n > 0 {
      NoItemsNoBase(items, units, n - 1);
    }
  }

  /** The base amounts of all invoices add up to what all items distribute. */
  lemma {:induction false} NoMoneyLost(items: seq<PeriodItem>, units: seq<Unit>)
    requires Calculable(items, units) && DistinctUnits(units)
    ensures BaseTotal(items, units, |units|) == UsedTotal(items, units)
  {
    if items == [] {
      NoItemsNoBase(items, units, |units|);
    } else {
      var last := |items| - 1;
      var split := ItemSpec(items[last].cost, units).value;
      NoMoneyLost(items[..last], units);
      BaseSplitsByItem(items, units, |units|);
      ParticipantsAreUnits(items[last].cost, units);
      ItemOverAllUnits(items[last].id, split, units);
      ItemConserves(items[last].cost, units);
    }
  }

  // ----- The preview's reconciliation

  /** The sum and the number of an item's stored shares. */
  function ShareTotal(rows: seq<ShareRow>, item: Id): int {
    if rows == [] then 0
    else ShareTotal(rows[..|rows| - 1], item) + if rows[|rows| - 1].item == item then rows[|rows| - 1].rounded else 0
  }

  function ShareCount(rows: seq<ShareRow>, item: Id): nat {
    if rows == [] then 0
    else ShareCount(rows[..|rows| - 1], item) + if rows[|rows| - 1].item == item then 1 else 0
  }

  /** Fixed items reconcile against amount times shares, every other item against its total. */
  function PreviewTarget(item: PeriodItem, rows: seq<ShareRow>): int {
    if item.cost.rule == Fixed then item.cost.fixedAmountPerUnit * ShareCount(rows, item.id) else item.cost.total
  }

  predicate ItemReconciled(item: PeriodItem, rows: seq<ShareRow>) {
    ShareTotal(rows, item.id) == PreviewTarget(item, rows)
  }

  /** The preview's flag: every item's stored shares meet their target. */
  method PreviewReconciled(items: seq<PeriodItem>, rows: seq<ShareRow>) returns (reconciled: bool)
    ensures reconciled <==> forall k :: 0 <= k < |items| ==> ItemReconciled(items[k], rows)
  {
    reconciled := true;
    for k := 0 to |items|
      invariant reconciled <==> forall i :: 0 <= i < k ==> ItemReconciled(items[i], rows)
    {
      var sum, n := 0, 0;
      for r := 0 to |rows|
        invariant sum == ShareTotal(rows[..r], items[k].id) && n == ShareCount(rows[..r], items[k].id)
      {
        assert rows[..r + 1][..r] == rows[..r];
        if rows[r].item == items[k].id {
          sum, n := sum + rows[r].rounded, n + 1;
        }
      }
      assert rows[..|rows|] == rows;
      var target := if items[k].cost.rule == Fixed then items[k].cost.fixedAmountPerUnit * n else items[k].cost.total;
      if sum != target {
        reconciled := false;
      }
    }
  }

  lemma {:induction false} SharesAppend(a: seq<ShareRow>, b: seq<ShareRow>, item: Id)
    ensures ShareTotal(a + b, item) == ShareTotal(a, item) + ShareTotal(b, item)
    ensures ShareCount(a + b, item) == ShareCount(a, item) + ShareCount(b, item)
  {
    if b == [] {
      assert a + b == a;
    } else {
      assert (a + b)[..|a + b| - 1] == a + b[..|b| - 1];
      SharesAppend(a, b[..|b| - 1], item);
    }
  }

  lemma {:induction false} OneItemShares(own: Id, shares: seq<Share>, item: Id)
    ensures ShareTotal(ToShareRows(own, shares), item) == if own == item then RoundedSum(shares) else 0
    ensures ShareCount(ToShareRows(own, shares), item) == if own == item then |shares| else 0
  {
    if shares != [] {
      OneItemShares(own, shares[..|shares| - 1], item);
      assert ToShareRows(own, shares)[..|shares| - 1] == ToShareRows(own, shares[..|shares| - 1]);
    }
  }

  ghost predicate DistinctItems(items: seq<PeriodItem>) {
    forall i, j :: 0 <= i < j < |items| ==> items[i].id != items[j].id
  }

  lemma ItemShareSums(item: PeriodItem, units: seq<Unit>)
    requires ItemSpec(item.cost, units).Ok?
    ensures var shares := SortShares(ItemSpec(item.cost, units).value.Shares());
            && RoundedSum(shares) == TotalUsed(item.cost, units)
            && (item.cost.rule == Fixed ==> RoundedSum(shares) == item.cost.fixedAmountPerUnit * |shares|)
  {
    var split := ItemSpec(item.cost, units).value;
    ItemConserves(item.cost, units);
    SortSharesSum(split.Shares());
    SharesSum(split);
  }

  /** The shares that the calculation stores for one item. */
  ghost function SharesOf(item: PeriodItem, units: seq<Unit>): seq<Share>
    requires ItemSpec(item.cost, units).Ok?
  {
    SortShares(ItemSpec(item.cost, units).value.Shares())
  }

  lemma LastItemShares(items: seq<PeriodItem>, units: seq<Unit>, id: Id)
    requires items != [] && Calculable(items, units)
    ensures var own := items[|items| - 1];
            && ShareTotal(ShareRows(items, units), id)
               == ShareTotal(ShareRows(items[..|items| - 1], units), id)
                  + (if own.id == id then RoundedSum(SharesOf(own, units)) else 0)
            && ShareCount(ShareRows(items, units), id)
               == ShareCount(ShareRows(items[..|items| - 1], units), id) + if own.id == id then |SharesOf(own, units)| else 0
  {
    hide ItemSpec, SortShares, RoundedSum, ShareTotal, ShareCount;
    var own := items[|items| - 1];
    SharesAppend(ShareRows(items[..|items| - 1], units), ToShareRows(own.id, SharesOf(own, units)), id);
    OneItemShares(own.id, SharesOf(own, units), id);
  }

  lemma {:induction false} ForeignShares(items: seq<PeriodItem>, units: seq<Unit>, id: Id)
    requires Calculable(items, units) && forall k :: 0 <= k < |items| ==> items[k].id != id
    ensures ShareTotal(ShareRows(items, units), id) == 0 && ShareCount(ShareRows(items, units), id) == 0
  {
    if items != [] {
      hide ItemSpec, ShareRows, ShareTotal, ShareCount;
      ForeignShares(items[..|items| - 1], units, id);
      LastItemShares(items, units, id);
    }
  }

  lemma {:induction false} StoredShares(items: seq<PeriodItem>, units: seq<Unit>, k: int)
    requires Calculable(items, units) && DistinctItems(items) && 0 <= k < |items|
    ensures ShareTotal(ShareRows(items, units), items[k].id) == RoundedSum(SharesOf(items[k], units))
    ensures ShareCount(ShareRows(items, units), items[k].id) == |SharesOf(items[k], units)|
  {
    hide ItemSpec, ShareRows, ShareTotal, ShareCount, SharesOf, RoundedSum;
    var last := |items| - 1;
    LastItemShares(items, units, items[k].id);
    if k == last {
      ForeignShares(items[..last], units, items[k].id);
    } else {
      StoredShares(items[..last], units, k);
    }
  }

  /** After a calculation the preview reports every item as reconciled. */
  lemma PreviewReconciles(items: seq<PeriodItem>, units: seq<Unit>, k: int)
    requires Calculable(items, units) && DistinctItems(items) && 0 <= k < |items|
    ensures ItemReconciled(items[k], ShareRows(items, units))
  {
    hide ItemSpec, SortShares, RoundedSum, ShareRows, ShareTotal, ShareCount;
    StoredShares(items, units, k);
    ItemShareSums(items[k], units);
  }

  lemma {:induction false} TotalsOfChange(rows: seq<ShareRow>, r: int, rounded: int, item: Id)
    requires 0 <= r < |rows|
    ensures var changed := rows[r := rows[r].(rounded := rounded)];
            && ShareTotal(changed, item)
               == ShareTotal(rows, item) + (if rows[r].item == item then rounded - rows[r].rounded else 0)
            && ShareCount(changed, item) == ShareCount(rows, item)
  {
    var last := |rows| - 1;
    var changed := rows[r := rows[r].(rounded := rounded)];
    if r < last {
      TotalsOfChange(rows[..last], r, rounded, item);
      assert changed[..last] == rows[..last][r := rows[..last][r].(rounded := rounded)];
    } else {
      assert changed[..last] == rows[..last];
    }
  }

  /** Changing one stored share of a reconciled item shows on that item and on no other. */
  lemma ChangedShareShows(item: PeriodItem, rows: seq<ShareRow>, r: int, rounded: int)
    requires 0 <= r < |rows| && rounded != rows[r].rounded
    ensures var changed := rows[r := rows[r].(rounded := rounded)];
            && (rows[r].item == item.id && ItemReconciled(item, rows) ==> !ItemReconciled(item, changed))
            && (rows[r].item != item.id ==> (ItemReconciled(item, changed) <==> ItemReconciled(item, rows)))
  {
    TotalsOfChange(rows, r, rounded, item.id);
  }

  // ----- The calculation loop

  function Lines(charges: map<Id, seq<Row>>, unit: Id): seq<Row> {
    if unit in charges then charges[unit] else []
  }

  /** Each of the first `n` shares adds one row to its unit; the other units keep theirs. */
  ghost predicate RowsAdded(before: map<Id, seq<Row>>, after: map<Id, seq<Row>>, item: Id, shares: seq<Share>, n: nat)
    requires n <= |shares|
  {
    && (forall k :: 0 <= k < n ==>
          Lines(after, shares[k].unit) == Lines(before, shares[k].unit) + [ChargeRow(item, shares[k].rounded)])
    && (forall unit :: (forall k :: 0 <= k < n ==> shares[k].unit != unit) ==>
          Lines(after, unit) == Lines(before, unit))
  }

  lemma RowsAddedOne(before: map<Id, seq<Row>>, charges: map<Id, seq<Row>>, item: Id, shares: seq<Share>, n: nat)
    requires n < |shares| && Ordered(shares) && RowsAdded(before, charges, item, shares, n)
    ensures var sh := shares[n];
            RowsAdded(before, charges[sh.unit := Lines(charges, sh.unit) + [ChargeRow(item, sh.rounded)]], item, shares, n + 1)
  {
    var unit := shares[n].unit;
    assert Lines(charges, unit) == Lines(before, unit);
    var after := charges[unit := Lines(charges, unit) + [ChargeRow(item, shares[n].rounded)]];
    assert forall other :: other != unit ==> Lines(after, other) == Lines(charges, other);
  }

  method AddRows(before: map<Id, seq<Row>>, item: Id, shares: seq<Share>) returns (charges: map<Id, seq<Row>>)
    requires Ordered(shares)
    ensures RowsAdded(before, charges, item, shares, |shares|)
  {
    charges := before;
    for i := 0 to |shares|
      invariant RowsAdded(before, charges, item, shares, i)
    {
      var sh := shares[i];
      RowsAddedOne(before, charges, item, shares, i);
      hide RowsAdded, Ordered;
      charges := charges[sh.unit := Lines(charges, sh.unit) + [ChargeRow(item, sh.rounded)]];
    }
  }

  /** The rows that an item's shares add are the unit's rows of that item. */
  lemma AddedRowsAre(before: map<Id, seq<Row>>, after: map<Id, seq<Row>>, item: Id, split: Split, unit: Id)
    requires split.Aligned() && DistinctUnits(split.els)
    requires RowsAdded(before, after, item, SortShares(split.Shares()), |SortShares(split.Shares())|)
    ensures Lines(after, unit) == Lines(before, unit) + RowsFor(item, split, unit)
  {
    var shares := SortShares(split.Shares());
    if j :| SharesAt(split, unit, j) {
      assert split.Shares()[j] in split.Shares();
      assert split.Shares()[j] in shares;
      var k :| 0 <= k < |shares| && shares[k] == split.Shares()[j];
      assert RowsFor(item, split, unit) == [ChargeRow(item, split.rounded[j])];
    } else {
      forall k | 0 <= k < |shares|
        ensures shares[k].unit != unit
      {
        assert shares[k] in split.Shares();
        var j :| 0 <= j < |split.els| && split.Shares()[j] == shares[k];
        assert !SharesAt(split, unit, j);
      }
      assert Lines(before, unit) + [] == Lines(before, unit);
    }
  }

  lemma CalculableAppend(items: seq<PeriodItem>, units: seq<Unit>, k: int)
    requires 0 <= k < |items| && Calculable(items[..k], units)
    ensures items[..k + 1][..k] == items[..k]
    ensures Calculable(items[..k + 1], units) <==> ItemSpec(items[k].cost, units).Ok?
  {
  }

  lemma {:induction false} FirstErrorAt(items: seq<PeriodItem>, units: seq<Unit>, k: int)
    requires 0 <= k < |items| && Calculable(items[..k], units) && ItemSpec(items[k].cost, units).Err?
    ensures !Calculable(items, units) && FirstError(items, units) == ItemSpec(items[k].cost, units).error
  {
    hide ItemSpec;
    if k > 0 {
      assert items[..k][0] == items[0];
      var before, rest := items[..k], items[1..][..k - 1];
      forall i | 0 <= i < k - 1
        ensures ItemSpec(rest[i].cost, units).Ok?
      {
        assert rest[i] == before[i + 1];
      }
      FirstErrorAt(items[1..], units, k - 1);
    }
  }

  /** The stored shares and the per-unit charge rows of a whole calculation. */
  datatype Calculation = Calculation(shares: seq<ShareRow>, charges: map<Id, seq<Row>>)

  /** Runs every item of a period and turns the item-by-unit shares into rows per unit; the first
      item that cannot be calculated stops the run. */
  method RunItems(items: seq<PeriodItem>, units: seq<Unit>) returns (res: Result<Calculation>)
    requires DistinctUnits(units)
    ensures !Calculable(items, units) ==> res == Err(FirstError(items, units))
    ensures Calculable(items, units) ==>
      res.Ok? && res.value.shares == ShareRows(items, units)
      && forall unit :: Lines(res.value.charges, unit) == ChargeRows(items, units, unit)
  {
    hide ItemSpec, SortShares, DistinctUnits, RowsFor, Lines, RowsAdded, Ordered, Split.Shares;
    var shares: seq<ShareRow> := [];
    var charges: map<Id, seq<Row>> := map[];
    NoLines();
    for k := 0 to |items|
      invariant Calculable(items[..k], units)
      invariant shares == ShareRows(items[..k], units)
      invariant forall unit :: Lines(charges, unit) == ChargeRows(items[..k], units, unit)
    {
      var calculated := Engine.Calculate(items[k].cost, units);
      CalculableAppend(items, units, k);
      if calculated.Err? {
        FirstErrorAt(items, units, k);
        return Err(calculated.error);
      }
      ghost var split := ItemSpec(items[k].cost, units).value;
      ParticipantsAreUnits(items[k].cost, units);
      SplitSharesOrdered(split);
      var before := charges;
      shares := shares + ToShareRows(items[k].id, calculated.value.shares);
      charges := AddRows(charges, items[k].id, calculated.value.shares);
      forall unit
        ensures Lines(charges, unit) == ChargeRows(items[..k + 1], units, unit)
      {
        AddedRowsAre(before, charges, items[k].id, split, unit);
      }
    }
    assert items[..|items|] == items;
    res := Ok(Calculation(shares, charges));
  }

  lemma NoLines()
    ensures forall unit :: Lines(map[], unit) == []
  {
  }
}
