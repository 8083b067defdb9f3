/** What each call on a period does to the rows, and when it is refused, said of the rows themselves. */
module LedgerPeriods {
  import opened Wrappers
  import opened MapSum
  import opened Engine
  import opened Charges
  import opened Ledger
  import opened LedgerLifecycle
  import opened LedgerAnswers

  // ----- When a call is refused, and why

  lemma {:induction false} FirstFailing(items: seq<PeriodItem>, units: seq<Unit>) returns (k: int)
    requires !Calculable(items, units)
    ensures 0 <= k < |items| && Calculable(items[..k], units)
    ensures ItemSpec(items[k].cost, units).Err? && FirstError(items, units) == ItemSpec(items[k].cost, units).error
  {
    hide ItemSpec;
    var last := |items| - 1;
    if Calculable(items[..last], units) {
      k := last;
      assert forall i :: 0 <= i < last ==> items[..last][i] == items[i];
    } else {
      k := FirstFailing(items[..last], units);
      assert items[..last][..k] == items[..k];
    }
    FirstErrorAt(items, units, k);
  }

  /** A payment was opened or booked on an invoice of the period. */
  ghost predicate PaidOn(db: Db, period: Id) {
    exists p :: p in db.payments && db.payments[p].invoice in db.invoices
      && db.invoices[db.payments[p].invoice].period == period
  }

  lemma ReferencedIsPaidOn(db: Db, period: Id)
    ensures Referenced(db, period) <==> PaidOn(db, period)
  {
    if Referenced(db, period) {
      var p :| p in db.payments && db.payments[p].invoice in OwnInvoices(db.invoices, period);
    }
    if PaidOn(db, period) {
      var p :| p in db.payments && db.payments[p].invoice in db.invoices
        && db.invoices[db.payments[p].invoice].period == period;
      assert db.payments[p].invoice in OwnInvoices(db.invoices, period);
    }
  }

  /** The answer of a calculation: an issued or closed period, no items or no units, the first item that cannot be
      calculated, a payment on one of the period's invoices; otherwise it is done. */
  lemma CalculateRefusedExactly(db: Db, period: Id, units: seq<Unit>, lateFee: int -> int)
    requires period in db.periods
    ensures var p := db.periods[period];
            match CalculatePeriod(db, period, units, lateFee)
            case Done(_) =>
              && (p.status == PeriodDraft || p.status == PeriodCalculated) && p.items != [] && units != []
              && (forall k :: 0 <= k < |p.items| ==> ItemSpec(p.items[k].cost, units).Ok?) && !PaidOn(db, period)
            case Refused(why) =>
              match why
              case Conflict => p.status == PeriodIssued || p.status == PeriodClosed
              case BadRequest => (p.status == PeriodDraft || p.status == PeriodCalculated) && (p.items == [] || units == [])
              case NotCalculable(error) =>
                exists k :: 0 <= k < |p.items| && ItemSpec(p.items[k].cost, units) == Err(error)
                  && forall i :: 0 <= i < k ==> ItemSpec(p.items[i].cost, units).Ok?
              case StillReferenced => PaidOn(db, period)
              case _ => false
  {
    var items := db.periods[period].items;
    hide ItemSpec, FirstError, Referenced, PaidOn, AddInvoices, ShareRows;
    ReferencedIsPaidOn(db, period);
    if !Calculable(items, units) {
      var k := FirstFailing(items, units);
      assert forall i :: 0 <= i < k ==> items[..k][i] == items[i];
      assert ItemSpec(items[k].cost, units) == Err(FirstError(items, units));
    }
  }

  /** The answers of the other calls on a period that exists. */
  lemma RefusedExactly(db: Db, period: Id, items: seq<PeriodItem>, year: int)
    requires period in db.periods
    ensures var status := db.periods[period].status;
            && (EditItems(db, period, items).Done? <==> status == PeriodDraft)
            && (Reopen(db, period).Done? <==> status == PeriodCalculated && !PaidOn(db, period))
            && (Reopen(db, period) == Refused(Conflict) <==> status != PeriodCalculated)
            && (Reopen(db, period) == Refused(StillReferenced) <==> status == PeriodCalculated && PaidOn(db, period))
            && (Issue(db, period, year).Done? <==> status == PeriodCalculated)
            && (Close(db, period).Done? <==> status == PeriodIssued)
            && (EditItems(db, period, items).Done? || EditItems(db, period, items) == Refused(Conflict))
            && (Issue(db, period, year).Done? || Issue(db, period, year) == Refused(Conflict))
            && (Close(db, period).Done? || Close(db, period) == Refused(Conflict))
  {
    hide Referenced, PaidOn, Derive, NumberAll, ByUnit, KeepShares;
    ReferencedIsPaidOn(db, period);
  }

  /** A period that does not exist is not found by any of them. */
  lemma MissingPeriod(db: Db, step: Step)
    requires match step
             case DoEditItems(period, _) => period !in db.periods
             case DoCalculate(period, _, _) => period !in db.periods
             case DoReopen(period) => period !in db.periods
             case DoIssue(period, _) => period !in db.periods
             case DoClose(period) => period !in db.periods
             case _ => false
    ensures Call(db, step) == Refused(NotFound) && Apply(db, step) == db
  {
  }

  // ----- What they do

  /** Closing closes the issued period and touches nothing else. */
  lemma CloseEffect(db: Db, period: Id)
    requires Close(db, period).Done?
    ensures var after := Close(db, period).db;
            && OnlyRow(db.periods, after.periods, period) && db.periods[period].status == PeriodIssued
            && after.periods[period].status == PeriodClosed && after.periods[period].items == db.periods[period].items
            && after.periods[period].shares == db.periods[period].shares
            && after.invoices == db.invoices && after.payments == db.payments && after.balances == db.balances
            && after.nextId == db.nextId
  {
  }

  /** A new period is an empty draft of its building; editing gives a draft the new items and keeps the rest. */
  lemma DraftEffect(db: Db, building: Id, period: Id, items: seq<PeriodItem>)
    requires Lifecycle(db)
    ensures var after := CreatePeriod(db, building).db;
            && OneMore(db.periods, after.periods, db.nextId)
            && after.periods[db.nextId] == Period(building, PeriodDraft, [], []) && after.nextId == db.nextId + 1
            && after.invoices == db.invoices && after.payments == db.payments && after.balances == db.balances
    ensures EditItems(db, period, items).Done? ==>
              var after := EditItems(db, period, items).db;
              && OnlyRow(db.periods, after.periods, period)
              && after.periods[period] == db.periods[period].(items := items)
              && after.invoices == db.invoices && after.payments == db.payments && after.balances == db.balances
              && after.nextId == db.nextId
  {
    hide OnePerUnit, AllPlaced, AllSequential, AllComposed, PaymentsPoint;
    if EditItems(db, period, items).Done? {
      assert db.periods[period].shares == [];
    }
  }

  /** What goes into the invoice of one unit: its stored shares as charge rows, its stored balance and credit, and the late
      fee on the charges. */
  lemma CalculatedInvoice(db: Db, period: Id, units: seq<Unit>, lateFee: int -> int, k: int, item: Id, amount: int)
    requires FreshIds(db) && DistinctUnits(units) && CalculatePeriod(db, period, units, lateFee).Done? && 0 <= k < |units|
    ensures var after := CalculatePeriod(db, period, units, lateFee).db;
            && db.nextId + k in after.invoices && period in after.periods
            && after.periods[period].items == db.periods[period].items
            && var inv := after.invoices[db.nextId + k];
            && inv.unit == units[k].id && inv.status == Unpaid && inv.paid == 0 && inv.notes == []
            && (inv.unit in db.balances ==>
                  inv.prior == db.balances[inv.unit].balance && inv.credit == db.balances[inv.unit].creditAsset)
            && (inv.unit !in db.balances ==> inv.prior == 0 && inv.credit == 0)
            && inv.late == lateFee(inv.base) && RowSum(inv.rows) == inv.base + (if inv.late > 0 then inv.late else 0)
            && multiset(inv.rows)[ChargeRow(item, amount)]
               == multiset(after.periods[period].shares)[ShareRow(item, units[k].id, amount)]
  {
    hide Calculable, ChargeRows, ShareRows, Referenced, FirstError, DistinctUnits, RowSum;
    var items := db.periods[period].items;
    AddInvoicesAre(db, period, units, lateFee, |units|);
    hide AddInvoices;
    RowsAreShares(items, units, units[k].id, item, amount);
    var rows := ChargeRows(items, units, units[k].id);
    RowSumAppend(rows, LateFeeRow(lateFee(RowSum(rows))));
    assert rows + [] == rows;
  }

  lemma NewAreOfPeriod(db: Db, after: Db, period: Id, units: seq<Unit>)
    requires Recalculated(db, after, period, units) && FreshIds(db)
    requires forall id :: id in db.invoices ==> db.invoices[id].period != period
    ensures forall id :: id in db.invoices ==> id in after.invoices && after.invoices[id] == db.invoices[id]
    ensures forall id :: id in after.invoices && id !in db.invoices ==> after.invoices[id].period == period
  {
  }

  lemma DiscardNew(a: map<Id, Invoice>, b: map<Id, Invoice>, period: Id)
    requires forall id :: id in a ==> a[id].period != period && id in b && b[id] == a[id]
    requires forall id :: id in b && id !in a ==> b[id].period == period
    ensures b - OwnInvoices(b, period) == a
  {
    var kept := b - OwnInvoices(b, period);
    forall id
      ensures id in kept <==> id in a
      ensures id in a ==> kept[id] == a[id]
    {
      assert id in b ==> (id in OwnInvoices(b, period) <==> b[id].period == period);
    }
  }

  lemma NotReferenced(db: Db, after: Db, period: Id)
    requires PaymentsPoint(db) && after.payments == db.payments
    requires forall id :: id in db.invoices ==> id in after.invoices && after.invoices[id].period != period
    ensures !Referenced(after, period)
  {
  }

  lemma NoInvoicesInDraft(db: Db, period: Id)
    requires Lifecycle(db) && period in db.periods && db.periods[period].status == PeriodDraft
    ensures FreshIds(db) && PaymentsPoint(db) && db.periods[period].shares == []
    ensures forall id :: id in db.invoices ==> db.invoices[id].period != period
  {
    forall id | id in db.invoices
      ensures db.invoices[id].period != period
    {
      assert Placed(db.periods, db.invoices[id]);
    }
  }

  /** Discarding a calculation undoes it: calculating a draft period and reopening it leaves every table as it was. */
  lemma ReopenUndoes(db: Db, period: Id, units: seq<Unit>, lateFee: int -> int)
    requires Lifecycle(db) && CalculatePeriod(db, period, units, lateFee).Done? && db.periods[period].status == PeriodDraft
    ensures var after := CalculatePeriod(db, period, units, lateFee).db;
            Reopen(after, period) == Done(db.(nextId := db.nextId + |units|))
  {
    hide Lifecycle, FreshIds, PaymentsPoint, Calculable, ShareRows, FirstError, Referenced, AddInvoices, OwnInvoices;
    var after := CalculatePeriod(db, period, units, lateFee).db;
    NoInvoicesInDraft(db, period);
    CalculateIs(db, period, units, lateFee);
    NewAreOfPeriod(db, after, period, units);
    hide Recalculated;
    NotReferenced(db, after, period);
    DiscardNew(db.invoices, after.invoices, period);
    assert after.periods[period := db.periods[period]] == db.periods;
  }

  lemma IssuedOrder(db: Db, after: Db, period: Id, year: int, order: seq<Id>, a: Id, b: Id)
    requires OnePerUnit(db.invoices) && IssuedAs(db, after, period, year, order)
    requires forall i, j :: 0 <= i < j < |order| ==> db.invoices[order[i]].unit <= db.invoices[order[j]].unit
    requires a in db.invoices && b in db.invoices && db.invoices[a].period == period == db.invoices[b].period
    ensures var count := |NumberedInvoices(db.invoices, db.periods[period].building)|;
            && a in after.invoices && b in after.invoices
            && after.invoices[a].number.Numbered? && after.invoices[b].number.Numbered?
            && after.invoices[a] == db.invoices[a].(number := after.invoices[a].number)
            && after.invoices[a].number.year == year
            && count < after.invoices[a].number.sequence <= count + |OwnInvoices(db.invoices, period)|
            && (db.invoices[a].unit < db.invoices[b].unit
                <==> after.invoices[a].number.sequence < after.invoices[b].number.sequence)
  {
    hide NumberedInvoices;
    assert a in order && b in order;
    var i :| 0 <= i < |order| && order[i] == a;
    var j :| 0 <= j < |order| && order[j] == b;
    assert i != j ==> db.invoices[order[i]].unit != db.invoices[order[j]].unit;
  }

  /** Issuing gives the period's invoices the year and the building's next numbers in the order of their units. Neither
      the rest of these invoices nor any other invoice, payment or period changes. */
  lemma IssueEffect(db: Db, period: Id, year: int, a: Id, b: Id)
    requires Lifecycle(db) && Issue(db, period, year).Done?
    requires a in db.invoices && b in db.invoices && db.invoices[a].period == period == db.invoices[b].period
    ensures var after := Issue(db, period, year).db;
            var count := |NumberedInvoices(db.invoices, db.periods[period].building)|;
            && after.invoices.Keys == db.invoices.Keys
            && after.invoices[a].number.Numbered? && after.invoices[b].number.Numbered?
            && after.invoices[a] == db.invoices[a].(number := after.invoices[a].number)
            && after.invoices[a].number.year == year
            && count < after.invoices[a].number.sequence <= count + |OwnInvoices(db.invoices, period)|
            && (db.invoices[a].unit < db.invoices[b].unit
                <==> after.invoices[a].number.sequence < after.invoices[b].number.sequence)
            && (forall id :: id in db.invoices && db.invoices[id].period != period ==> after.invoices[id] == db.invoices[id])
            && OnlyRow(db.periods, after.periods, period) && after.periods[period].status == PeriodIssued
            && after.payments == db.payments && after.nextId == db.nextId
  {
    hide Derive, NumberAll, ByUnit, NumberedInvoices, Issue, OnePerUnit, FreshIds, PaymentsPoint, AllPlaced, AllSequential,
         AllComposed, DraftsWithoutShares;
    var order := IssueIs(db, period, year);
    IssuedOrder(db, Issue(db, period, year).db, period, year, order, a, b);
  }
}
