/** Verified money covers what invoices show as paid, in every run and without any condition on it; so without
    embedded credit every verified Toman is accounted for. */
module LedgerCoverage {
  import opened MapSum
  import opened Engine
  import opened Charges
  import opened Ledger
  import opened LedgerLifecycle
  import opened LedgerBalance
  import opened LedgerCache
  import opened LedgerMoney

  function PaidBy(unit: Id): Invoice -> int {
    (inv: Invoice) => if inv.unit == unit then inv.paid else 0
  }

  /** What the unit's invoices show as paid, cancelled ones included. */
  ghost function PaidTotal(invoices: map<Id, Invoice>, unit: Id): int {
    Total(invoices, PaidBy(unit))
  }

  ghost predicate Covered(db: Db, unit: Id) {
    PaidTotal(db.invoices, unit) <= VerifiedSum(db.payments, unit)
  }

  // ----- Steps on one invoice

  lemma PaidUpdate(invoices: map<Id, Invoice>, id: Id, inv: Invoice, unit: Id)
    requires id in invoices
    ensures PaidTotal(invoices[id := inv], unit)
         == PaidTotal(invoices, unit) - PaidBy(unit)(invoices[id]) + PaidBy(unit)(inv)
  {
    TotalUpdate(invoices, PaidBy(unit), id, inv);
  }

  lemma RecordManualCovered(db: Db, invoice: Id, amount: int, unit: Id)
    requires FreshIds(db) && Covered(db, unit) && RecordManual(db, invoice, amount).Done?
    ensures Covered(RecordManual(db, invoice, amount).db, unit)
  {
    hide Derive, VerifiedSum, PaidTotal, Effective;
    var after := RecordManual(db, invoice, amount).db;
    PaymentInserted(db.payments, db.nextId, Payment(db.invoices[invoice].unit, invoice, false, amount, Verified), unit);
    PaidUpdate(db.invoices, invoice, after.invoices[invoice], unit);
  }

  lemma CallbackCovered(db: Db, payment: Id, verified: bool, unit: Id)
    requires PaymentsPoint(db) && Covered(db, unit) && HandleCallback(db, payment, verified).Done?
    ensures Covered(HandleCallback(db, payment, verified).db, unit)
  {
    hide Derive, VerifiedSum, PaidTotal, Effective;
    var after := HandleCallback(db, payment, verified).db;
    var p := db.payments[payment];
    if p.status == Recorded && p.gateway {
      assert p.invoice in db.invoices && p.unit == db.invoices[p.invoice].unit;
      PaymentReplaced(db.payments, payment, after.payments[payment], unit);
      if verified {
        PaidUpdate(db.invoices, p.invoice, after.invoices[p.invoice], unit);
      }
    }
  }

  lemma InvoiceStepCovered(db: Db, step: Step, unit: Id)
    requires FreshIds(db) && PaymentsPoint(db) && Covered(db, unit) && OnInvoicesOnly(step) && Call(db, step).Done?
    ensures Covered(Apply(db, step), unit)
  {
    hide Derive, VerifiedSum, PaidTotal, Effective, RecordManual, HandleCallback, PaymentsPoint;
    var after := Apply(db, step);
    match step
    case DoCancel(invoice) => PaidUpdate(db.invoices, invoice, after.invoices[invoice], unit);
    case DoAdjust(invoice, _, _) => PaidUpdate(db.invoices, invoice, after.invoices[invoice], unit);
    case DoRecordManual(invoice, amount) => RecordManualCovered(db, invoice, amount, unit);
    case DoCallback(payment, verified) => CallbackCovered(db, payment, verified, unit);
    case DoStartGateway(_, _, _) =>
      PaymentInserted(db.payments, db.nextId, after.payments[db.nextId], unit);
    case _ =>
  }

  // ----- Steps on periods

  function Picked(invoices: map<Id, Invoice>, ids: set<Id>): map<Id, Invoice> {
    map id | id in invoices && id in ids :: invoices[id]
  }

  lemma PickedParts(invoices: map<Id, Invoice>, ids: set<Id>)
    ensures Parts(invoices, Picked(invoices, ids), invoices - ids)
  {
  }

  lemma PickedSame(before: map<Id, Invoice>, after: map<Id, Invoice>, kept: set<Id>)
    requires forall id :: id in kept ==> id in before && id in after && after[id] == before[id]
    ensures Picked(after, kept) == Picked(before, kept)
  {
    var a, b := Picked(before, kept), Picked(after, kept);
    assert forall id :: id in a <==> id in kept;
    assert forall id :: id in b <==> id in kept;
    assert a.Keys == b.Keys;
    assert forall id :: id in a ==> a[id] == b[id];
  }

  /** Dropping invoices, and adding unpaid ones, can only lower what is shown as paid. */
  lemma PaidShrinks(before: map<Id, Invoice>, kept: set<Id>, after: map<Id, Invoice>, unit: Id)
    requires forall id :: id in before ==> before[id].paid >= 0
    requires forall id :: id in kept ==> id in before && id in after && after[id] == before[id]
    requires forall id :: id in after && id !in kept ==> after[id].paid == 0
    ensures PaidTotal(after, unit) <= PaidTotal(before, unit)
  {
    var gone, added := before - kept, after - kept;
    PickedSame(before, after, kept);
    hide Picked;
    PickedParts(before, kept);
    PickedParts(after, kept);
    assert forall id :: id in gone ==> PaidBy(unit)(gone[id]) >= 0;
    assert forall id :: id in added ==> PaidBy(unit)(added[id]) == 0;
    hide Total, Parts, PaidBy;
    TotalParts(before, Picked(before, kept), gone, PaidBy(unit));
    TotalParts(after, Picked(after, kept), added, PaidBy(unit));
    TotalPositive(gone, PaidBy(unit));
    TotalZero(added, PaidBy(unit));
  }

  lemma CalculateCovered(db: Db, period: Id, units: seq<Unit>, lateFee: int -> int, unit: Id)
    requires FreshIds(db) && AllComposed(db) && Covered(db, unit)
    requires CalculatePeriod(db, period, units, lateFee).Done?
    ensures Covered(CalculatePeriod(db, period, units, lateFee).db, unit)
  {
    CalculateIs(db, period, units, lateFee);
    RecalculatedCovered(db, CalculatePeriod(db, period, units, lateFee).db, period, units, unit);
    hide CalculatePeriod, Recalculated, Covered, AllComposed, FreshIds;
  }

  lemma RecalculatedCovered(db: Db, after: Db, period: Id, units: seq<Unit>, unit: Id)
    requires FreshIds(db) && AllComposed(db) && Covered(db, unit) && Recalculated(db, after, period, units)
    ensures Covered(after, unit)
  {
    hide PaidTotal, VerifiedSum, ChargeSum;
    var kept := set id | id in db.invoices && db.invoices[id].period != period;
    forall id | id in after.invoices && id !in kept
      ensures after.invoices[id].paid == 0
    {
      assert DraftFor(after.invoices[id], db.periods[period].building, period, units[id - db.nextId].id);
    }
    PaidShrinks(db.invoices, kept, after.invoices, unit);
  }

  lemma ReopenCovered(db: Db, period: Id, unit: Id)
    requires AllComposed(db) && Covered(db, unit) && Reopen(db, period).Done?
    ensures Covered(Reopen(db, period).db, unit)
  {
    hide PaidTotal, VerifiedSum, ChargeSum, Referenced;
    var kept := db.invoices.Keys - OwnInvoices(db.invoices, period);
    PaidShrinks(db.invoices, kept, Reopen(db, period).db.invoices, unit);
  }

  lemma IssueCovered(db: Db, period: Id, year: int, unit: Id)
    requires AllPlaced(db) && Covered(db, unit) && Issue(db, period, year).Done?
    ensures Covered(Issue(db, period, year).db, unit)
  {
    var after := Issue(db, period, year).db;
    var order := IssueIs(db, period, year);
    assert after.invoices.Keys == db.invoices.Keys;
    hide Issue, NumberedInOrder;
    forall id | id in db.invoices
      ensures PaidBy(unit)(db.invoices[id]) == PaidBy(unit)(after.invoices[id])
    {
      IssuedInvoice(db, after, period, year, order, id);
    }
    TotalSame(db.invoices, after.invoices, PaidBy(unit));
  }

  /** Every service call keeps the verified money above what is shown as paid. */
  lemma StepCovered(db: Db, step: Step, unit: Id)
    requires Lifecycle(db) && WellFormed(step) && Covered(db, unit)
    ensures Covered(Apply(db, step), unit)
  {
    assert FreshIds(db) && AllPlaced(db) && AllComposed(db) && PaymentsPoint(db);
    hide Lifecycle, FreshIds, AllPlaced, AllComposed, PaymentsPoint, Covered, DistinctUnits;
    if Call(db, step).Done? {
      if OnInvoicesOnly(step) {
        hide Apply, Call;
        InvoiceStepCovered(db, step, unit);
      } else {
        hide CalculatePeriod, Reopen, Issue, KeepShares;
        match step
        case DoCalculate(period, units, lateFee) => CalculateCovered(db, period, units, lateFee, unit);
        case DoReopen(period) => ReopenCovered(db, period, unit);
        case DoIssue(period, year) => IssueCovered(db, period, year, unit);
        case _ => SameCovered(db, Apply(db, step), unit);
      }
    }
  }

  lemma SameCovered(db: Db, after: Db, unit: Id)
    requires Covered(db, unit) && after.invoices == db.invoices && after.payments == db.payments
    ensures Covered(after, unit)
  {
  }

  // ----- Every run

  lemma {:induction false} RunCovered(db: Db, steps: seq<Step>, unit: Id)
    requires Lifecycle(db) && Covered(db, unit) && forall i :: 0 <= i < |steps| ==> WellFormed(steps[i])
    ensures Covered(Run(db, steps), unit)
  {
    if steps != [] {
      var before := steps[..|steps| - 1];
      RunCovered(db, before, unit);
      RunKeeps(db, before);
      hide Lifecycle, Covered, Apply, WellFormed;
      StepCovered(Run(db, before), steps[|steps| - 1], unit);
    }
  }

  lemma EmptyCovered(unit: Id)
    ensures Covered(EMPTY_DB, unit)
  {
  }

  /** In every reachable state what a unit's invoices show as paid is covered by its verified payments; what
      credit notes, cancellations and stale calculations may cost is at most the credit embedded in invoices. */
  lemma {:induction false} ReachableCovered(steps: seq<Step>, unit: Id)
    requires forall i :: 0 <= i < |steps| ==> WellFormed(steps[i])
    ensures var db := Run(EMPTY_DB, steps);
            && Covered(db, unit)
            && InvoiceSum(db.invoices, AbsorbedPaid, unit) <= VerifiedSum(db.payments, unit)
            && Slack(db, unit) >= -InvoiceSum(db.invoices, AbsorbedCredit, unit)
  {
    EmptyKeeps();
    EmptyCovered(unit);
    RunCovered(EMPTY_DB, steps, unit);
    ReachableLifecycle(steps);
    var db := Run(EMPTY_DB, steps);
    hide Run, VerifiedSum, ChargeSum;
    assert AllComposed(db);
    forall id | id in db.invoices
      ensures Cells(AbsorbedPaid, unit)(db.invoices[id]) <= PaidBy(unit)(db.invoices[id])
    {
      assert Composed(db.invoices[id]);
    }
    TotalAtMost(db.invoices, Cells(AbsorbedPaid, unit), PaidBy(unit));
  }

  /** In every reachable state whose invoices embed no credit for the unit, verified payments are the paid amounts
      of the invoices that are not cancelled plus the credit asset, and the clamp has nothing to cut. */
  lemma {:induction false} ConservedWithoutCredit(steps: seq<Step>, unit: Id)
    requires forall i :: 0 <= i < |steps| ==> WellFormed(steps[i])
    requires var db := Run(EMPTY_DB, steps);
             forall id :: id in db.invoices && db.invoices[id].unit == unit && db.invoices[id].status != Cancelled ==>
               db.invoices[id].credit == 0
    ensures var db := Run(EMPTY_DB, steps);
            && Conserved(db, unit) && Slack(db, unit) >= 0
            && VerifiedSum(db.payments, unit)
               == InvoiceSum(db.invoices, AbsorbedPaid, unit) + Derive(db.invoices, db.payments, unit).creditAsset
  {
    var db := Run(EMPTY_DB, steps);
    ReachableCovered(steps, unit);
    assert forall id :: id in db.invoices ==> Cells(AbsorbedCredit, unit)(db.invoices[id]) == 0;
    TotalZero(db.invoices, Cells(AbsorbedCredit, unit));
    hide Run, VerifiedSum;
    ConservedIff(db, unit);
  }
}
