/** When the stored unit_balances row agrees with the tables it is derived from, and what happens to
    verified money that no invoice has absorbed. */
module LedgerCache {
  import opened Wrappers
  import opened MapSum
  import opened Engine
  import opened Charges
  import opened Ledger
  import opened LedgerLifecycle
  import opened LedgerBalance

  /** The unit's stored balance is what its invoices and payments give. */
  ghost predicate Fresh(db: Db, unit: Id) {
    Stored(db, unit) == Derive(db.invoices, db.payments, unit)
  }

  // ----- What leaves a unit's columns alone

  /** A row of one unit counts in no column of another. */
  lemma OtherUnitsRow(invoices: map<Id, Invoice>, id: Id, inv: Invoice, unit: Id)
    requires id in invoices && invoices[id].unit != unit && inv.unit != unit
    ensures forall c :: InvoiceSum(invoices[id := inv], c, unit) == InvoiceSum(invoices, c, unit)
  {
    forall c
      ensures InvoiceSum(invoices[id := inv], c, unit) == InvoiceSum(invoices, c, unit)
    {
      TotalUpdate(invoices, Cells(c, unit), id, inv);
    }
  }

  lemma SameColumns(a: map<Id, Invoice>, b: map<Id, Invoice>, unit: Id)
    requires a.Keys == b.Keys
    requires forall id, c :: id in a ==> Cell(c, unit, a[id]) == Cell(c, unit, b[id])
    ensures forall c :: InvoiceSum(a, c, unit) == InvoiceSum(b, c, unit)
  {
    hide Cell;
    forall c
      ensures InvoiceSum(a, c, unit) == InvoiceSum(b, c, unit)
    {
      assert forall id :: id in a ==> Cells(c, unit)(a[id]) == Cells(c, unit)(b[id]);
      TotalSame(a, b, Cells(c, unit));
    }
  }

  lemma SameDerivation(a: map<Id, Invoice>, b: map<Id, Invoice>, p: map<Id, Payment>, q: map<Id, Payment>, unit: Id)
    requires forall c :: InvoiceSum(a, c, unit) == InvoiceSum(b, c, unit)
    requires VerifiedSum(p, unit) == VerifiedSum(q, unit)
    ensures Derive(a, p, unit) == Derive(b, q, unit)
  {
  }

  lemma PaymentInserted(payments: map<Id, Payment>, id: Id, p: Payment, unit: Id)
    requires id !in payments
    ensures VerifiedSum(payments[id := p], unit) == VerifiedSum(payments, unit) + VerifiedAmount(unit, p)
  {
    TotalInsert(payments, VerifiedAmounts(unit), id, p);
  }

  lemma PaymentReplaced(payments: map<Id, Payment>, id: Id, p: Payment, unit: Id)
    requires id in payments
    ensures VerifiedSum(payments[id := p], unit)
         == VerifiedSum(payments, unit) - VerifiedAmount(unit, payments[id]) + VerifiedAmount(unit, p)
  {
    TotalUpdate(payments, VerifiedAmounts(unit), id, p);
  }

  // ----- Cache agreement

  /** A change to one invoice and to the payments of its unit, followed by a recompute of that unit. */
  lemma RecomputedIsFresh(db: Db, after: Db, id: Id, inv: Invoice, unit: Id)
    requires id in db.invoices && inv.unit == db.invoices[id].unit
    requires after.invoices == db.invoices[id := inv]
    requires unit != inv.unit ==> VerifiedSum(after.payments, unit) == VerifiedSum(db.payments, unit)
    requires after.balances == db.balances[inv.unit := Derive(after.invoices, after.payments, inv.unit)]
    requires unit == inv.unit || Fresh(db, unit)
    ensures Fresh(after, unit)
  {
    hide InvoiceSum, VerifiedSum;
    if unit != inv.unit {
      OtherUnitsRow(db.invoices, id, inv, unit);
      SameDerivation(db.invoices, after.invoices, db.payments, after.payments, unit);
    }
    hide Derive;
  }

  lemma RecordManualFresh(db: Db, invoice: Id, amount: int, unit: Id)
    requires FreshIds(db) && RecordManual(db, invoice, amount).Done?
    requires Fresh(db, unit) || unit == db.invoices[invoice].unit
    ensures Fresh(RecordManual(db, invoice, amount).db, unit)
  {
    hide Fresh, Derive, VerifiedSum, ApplyToInvoice, Effective;
    var after := RecordManual(db, invoice, amount).db;
    PaymentInserted(db.payments, db.nextId, Payment(db.invoices[invoice].unit, invoice, false, amount, Verified), unit);
    RecomputedIsFresh(db, after, invoice, after.invoices[invoice], unit);
  }

  /** An effective callback: the payment was pending and the gateway confirms it. */
  ghost predicate Confirms(db: Db, payment: Id, verified: bool) {
    && payment in db.payments && verified
    && db.payments[payment].status == Recorded && db.payments[payment].gateway
    && db.payments[payment].invoice in db.invoices
  }

  lemma CallbackFresh(db: Db, payment: Id, verified: bool, unit: Id)
    requires PaymentsPoint(db) && HandleCallback(db, payment, verified).Done?
    requires Fresh(db, unit) || (Confirms(db, payment, verified) && unit == db.payments[payment].unit)
    ensures Fresh(HandleCallback(db, payment, verified).db, unit)
  {
    hide VerifiedSum, ApplyToInvoice, Effective, InvoiceSum;
    var after := HandleCallback(db, payment, verified).db;
    var p := db.payments[payment];
    if p.status == Recorded && p.gateway {
      if verified {
        PaymentReplaced(db.payments, payment, p.(status := Verified), unit);
        assert p.invoice in db.invoices && p.unit == db.invoices[p.invoice].unit;
        hide Fresh, Derive, PaymentsPoint;
        RecomputedIsFresh(db, after, p.invoice, after.invoices[p.invoice], unit);
      } else {
        PaymentReplaced(db.payments, payment, p.(status := Failed), unit);
        SameDerivation(db.invoices, after.invoices, db.payments, after.payments, unit);
      }
    }
  }

  lemma StartGatewayFresh(db: Db, invoice: Id, requested: Option<int>, gatewayUp: bool, unit: Id)
    requires FreshIds(db) && Fresh(db, unit) && StartGateway(db, invoice, requested, gatewayUp).Done?
    ensures Fresh(StartGateway(db, invoice, requested, gatewayUp).db, unit)
  {
    hide VerifiedSum, InvoiceSum;
    var after := StartGateway(db, invoice, requested, gatewayUp).db;
    PaymentInserted(db.payments, db.nextId, after.payments[db.nextId], unit);
    SameDerivation(db.invoices, after.invoices, db.payments, after.payments, unit);
  }

  lemma CancelFresh(db: Db, invoice: Id, unit: Id)
    requires CancelInvoice(db, invoice).Done? && (Fresh(db, unit) || unit == db.invoices[invoice].unit)
    ensures Fresh(CancelInvoice(db, invoice).db, unit)
  {
    hide Fresh, Derive, VerifiedSum;
    var after := CancelInvoice(db, invoice).db;
    RecomputedIsFresh(db, after, invoice, after.invoices[invoice], unit);
  }

  lemma AdjustFresh(db: Db, invoice: Id, note: Note, reasonGiven: bool, unit: Id)
    requires AddAdjustment(db, invoice, note, reasonGiven).Done? && (Fresh(db, unit) || unit == db.invoices[invoice].unit)
    ensures Fresh(AddAdjustment(db, invoice, note, reasonGiven).db, unit)
  {
    hide Fresh, Derive, VerifiedSum;
    var after := AddAdjustment(db, invoice, note, reasonGiven).db;
    RecomputedIsFresh(db, after, invoice, after.invoices[invoice], unit);
  }

  lemma NumberCountsNowhere(inv: Invoice, number: Number, c: Column, unit: Id)
    ensures Cell(c, unit, inv.(number := number)) == Cell(c, unit, inv)
  {
  }

  /** Numbers count in no column: issuing leaves every derivation as it was. */
  lemma IssueDerives(db: Db, period: Id, year: int, unit: Id)
    requires AllPlaced(db) && Issue(db, period, year).Done?
    ensures forall c :: InvoiceSum(Issue(db, period, year).db.invoices, c, unit) == InvoiceSum(db.invoices, c, unit)
  {
    var after := Issue(db, period, year).db;
    var order := IssueIs(db, period, year);
    assert after.invoices.Keys == db.invoices.Keys;
    hide AllPlaced, IssuedAs, Issue, Cell, InvoiceSum;
    forall id, c | id in db.invoices
      ensures Cell(c, unit, db.invoices[id]) == Cell(c, unit, after.invoices[id])
    {
      IssuedInvoice(db, after, period, year, order, id);
      NumberCountsNowhere(db.invoices[id], after.invoices[id].number, c, unit);
    }
    SameColumns(db.invoices, after.invoices, unit);
  }

  /** Issuing brings the rows of every unit of the period up to date, whatever they were before. */
  lemma IssueFresh(db: Db, period: Id, year: int, unit: Id)
    requires AllPlaced(db) && Issue(db, period, year).Done?
    requires Fresh(db, unit) || unit in UnitsOf(db.invoices, period)
    ensures Fresh(Issue(db, period, year).db, unit)
  {
    hide VerifiedSum, InvoiceSum, NumberAll, ByUnit;
    var after := Issue(db, period, year).db;
    IssueDerives(db, period, year, unit);
    SameDerivation(db.invoices, after.invoices, db.payments, after.payments, unit);
    hide Derive;
  }

  lemma InvoiceStepFresh(db: Db, step: Step, unit: Id)
    requires FreshIds(db) && PaymentsPoint(db) && Fresh(db, unit) && OnInvoicesOnly(step) && Call(db, step).Done?
    ensures Fresh(Apply(db, step), unit)
  {
    hide FreshIds, PaymentsPoint, Fresh, RecordManual, StartGateway, HandleCallback, CancelInvoice, AddAdjustment, Recompute;
    match step
    case DoCancel(invoice) => CancelFresh(db, invoice, unit);
    case DoAdjust(invoice, note, reasonGiven) => AdjustFresh(db, invoice, note, reasonGiven, unit);
    case DoRecordManual(invoice, amount) => RecordManualFresh(db, invoice, amount, unit);
    case DoStartGateway(invoice, requested, gatewayUp) => StartGatewayFresh(db, invoice, requested, gatewayUp, unit);
    case DoCallback(payment, verified) => CallbackFresh(db, payment, verified, unit);
    case DoReadBalance(u) => ReadFresh(db, u, unit);
  }

  lemma ReadFresh(db: Db, u: Id, unit: Id)
    requires Fresh(db, unit)
    ensures Fresh(Recompute(db, u), unit)
  {
    hide Derive;
  }

  /** Every step other than a calculation and a reopening preserves agreement, for every unit. */
  lemma StepFresh(db: Db, step: Step, unit: Id)
    requires Lifecycle(db) && Fresh(db, unit) && !step.DoCalculate? && !step.DoReopen?
    ensures Fresh(Apply(db, step), unit)
  {
    assert FreshIds(db) && AllPlaced(db) && PaymentsPoint(db);
    hide Lifecycle, FreshIds, AllPlaced, PaymentsPoint;
    if Call(db, step).Done? {
      if OnInvoicesOnly(step) {
        hide Call, Apply, Fresh;
        InvoiceStepFresh(db, step, unit);
      } else {
        hide Derive, CalculatePeriod, Issue, KeepShares;
        match step
        case DoIssue(period, year) => hide Fresh; IssueFresh(db, period, year, unit);
        case _ =>
      }
    }
  }

  /** Over runs: what agrees once goes on agreeing until the next calculation or reopening. */
  lemma {:induction false} RunFresh(db: Db, steps: seq<Step>, unit: Id)
    requires Lifecycle(db) && Fresh(db, unit)
    requires forall i :: 0 <= i < |steps| ==> !steps[i].DoCalculate? && !steps[i].DoReopen?
    ensures Fresh(Run(db, steps), unit)
  {
    if steps != [] {
      var before := steps[..|steps| - 1];
      RunFresh(db, before, unit);
      RunKeeps(db, before);
      hide Lifecycle, Fresh, Apply;
      StepFresh(Run(db, before), steps[|steps| - 1], unit);
    }
  }

  /** A unit's rows are its own business: the step names no invoice, payment or period of it. */
  ghost predicate Elsewhere(db: Db, step: Step, unit: Id) {
    match step
    case DoCancel(invoice) => invoice in db.invoices ==> db.invoices[invoice].unit != unit
    case DoAdjust(invoice, _, _) => invoice in db.invoices ==> db.invoices[invoice].unit != unit
    case DoRecordManual(invoice, _) => invoice in db.invoices ==> db.invoices[invoice].unit != unit
    case DoCallback(payment, _) => payment in db.payments ==> db.payments[payment].unit != unit
    case DoIssue(period, _) => unit !in UnitsOf(db.invoices, period)
    case DoReadBalance(u) => u != unit
    case _ => true
  }

  /** No step writes the row of another unit. */
  lemma OtherRowsStay(db: Db, step: Step, unit: Id)
    requires Lifecycle(db) && Elsewhere(db, step, unit)
    ensures unit in Apply(db, step).balances <==> unit in db.balances
    ensures Stored(Apply(db, step), unit) == Stored(db, unit)
  {
    assert PaymentsPoint(db);
    hide Lifecycle, Derive;
    if Call(db, step).Done? {
      match step
      case DoCallback(payment, verified) => CallbackWrites(db, payment, verified, unit);
      case DoIssue(period, year) => IssueWrites(db, period, year, unit);
      case DoCalculate(period, units, lateFee) => CalculateWritesNone(db, period, units, lateFee);
      case DoCancel(_) => CorrectionWrites(db, step, unit);
      case DoAdjust(_, _, _) => CorrectionWrites(db, step, unit);
      case _ => hide Issue, HandleCallback, PaymentsPoint, ApplyToInvoice, Effective, CalculatePeriod, Referenced, KeepShares,
             CancelInvoice, AddAdjustment;
    }
  }

  lemma CallbackWrites(db: Db, payment: Id, verified: bool, unit: Id)
    requires PaymentsPoint(db) && HandleCallback(db, payment, verified).Done? && db.payments[payment].unit != unit
    ensures var after := HandleCallback(db, payment, verified).db;
            (unit in after.balances <==> unit in db.balances) && Stored(after, unit) == Stored(db, unit)
  {
  }

  lemma CorrectionWrites(db: Db, step: Step, unit: Id)
    requires (step.DoCancel? || step.DoAdjust?) && Elsewhere(db, step, unit) && Call(db, step).Done?
    ensures var after := Apply(db, step);
            (unit in after.balances <==> unit in db.balances) && Stored(after, unit) == Stored(db, unit)
  {
    hide Derive, Effective;
  }

  lemma IssueWrites(db: Db, period: Id, year: int, unit: Id)
    requires Issue(db, period, year).Done? && unit !in UnitsOf(db.invoices, period)
    ensures var after := Issue(db, period, year).db;
            (unit in after.balances <==> unit in db.balances) && Stored(after, unit) == Stored(db, unit)
  {
  }

  lemma CalculateWritesNone(db: Db, period: Id, units: seq<Unit>, lateFee: int -> int)
    requires CalculatePeriod(db, period, units, lateFee).Done?
    ensures CalculatePeriod(db, period, units, lateFee).db.balances == db.balances
  {
    hide AddInvoices, Calculable, ShareRows, FirstError, Referenced;
  }

  /** Reading a balance recomputes it; doing so again changes nothing. */
  lemma RecomputeIdempotent(db: Db, unit: Id)
    ensures Fresh(Recompute(db, unit), unit)
    ensures Recompute(Recompute(db, unit), unit) == Recompute(db, unit)
  {
  }
}
