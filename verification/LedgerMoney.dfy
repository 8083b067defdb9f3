/** Where verified money goes: exactly how each step changes what no invoice has absorbed, when every
    verified Toman is accounted for, and when not. */
module LedgerMoney {
  import opened Wrappers
  import opened MapSum
  import opened Engine
  import opened Charges
  import opened Ledger
  import opened LedgerLifecycle
  import opened LedgerBalance
  import opened LedgerCache

  /** Verified payments less what the unit's invoices took in, as paid amounts or as embedded credit. */
  ghost function Slack(db: Db, unit: Id): int {
    VerifiedSum(db.payments, unit)
    - InvoiceSum(db.invoices, AbsorbedPaid, unit) - InvoiceSum(db.invoices, AbsorbedCredit, unit)
  }

  /** Every verified Toman of the unit is in a paid amount, in an embedded credit or in the credit asset. */
  ghost predicate Conserved(db: Db, unit: Id) {
    VerifiedSum(db.payments, unit)
    == InvoiceSum(db.invoices, AbsorbedPaid, unit) + InvoiceSum(db.invoices, AbsorbedCredit, unit)
       + Derive(db.invoices, db.payments, unit).creditAsset
  }

  /** The clamp on the credit asset is harmless exactly when the slack is not negative. */
  lemma ConservedIff(db: Db, unit: Id)
    ensures Conserved(db, unit) <==> Slack(db, unit) >= 0
    ensures Slack(db, unit) >= 0 ==> Derive(db.invoices, db.payments, unit).creditAsset == Slack(db, unit)
  {
  }

  // ----- What a calculation does to the columns

  function OwnRows(invoices: map<Id, Invoice>, period: Id): map<Id, Invoice> {
    map id | id in invoices && invoices[id].period == period :: invoices[id]
  }

  lemma DiscardColumns(invoices: map<Id, Invoice>, period: Id, c: Column, unit: Id)
    ensures InvoiceSum(invoices, c, unit)
         == InvoiceSum(invoices - OwnInvoices(invoices, period), c, unit) + InvoiceSum(OwnRows(invoices, period), c, unit)
  {
    OwnAndRest(invoices, period);
    hide Total, Cells, Parts, OwnRows;
    TotalParts(invoices, invoices - OwnInvoices(invoices, period), OwnRows(invoices, period), Cells(c, unit));
  }

  lemma OwnAndRest(invoices: map<Id, Invoice>, period: Id)
    ensures Parts(invoices, invoices - OwnInvoices(invoices, period), OwnRows(invoices, period))
  {
  }

  /** One of the first `n` units is this one. */
  ghost predicate Billed(units: seq<Unit>, n: nat, unit: Id)
    requires n <= |units|
  {
    exists i :: 0 <= i < n && units[i].id == unit
  }

  lemma BilledStep(units: seq<Unit>, n: nat, unit: Id)
    requires 0 < n <= |units| && DistinctUnits(units)
    ensures Billed(units, n, unit) <==> Billed(units, n - 1, unit) || units[n - 1].id == unit
    ensures !(Billed(units, n - 1, unit) && units[n - 1].id == unit)
  {
  }

  lemma {:induction false} AddColumns(
    db: Db, period: Id, units: seq<Unit>, lateFee: int -> int, n: nat, c: Column, unit: Id)
    requires n <= |units| && period in db.periods && Calculable(db.periods[period].items, units)
    requires DistinctUnits(units) && forall id :: id in db.invoices ==> id < db.nextId
    ensures InvoiceSum(AddInvoices(db, period, units, lateFee, n), c, unit)
         == InvoiceSum(db.invoices - OwnInvoices(db.invoices, period), c, unit)
            + if Billed(units, n, unit) then Cell(c, unit, NewInvoice(db, period, units, lateFee, unit)) else 0
  {
    hide Calculable, NewInvoice, InvoiceSum, Cell, DistinctUnits;
    if n > 0 {
      hide Billed;
      var last := n - 1;
      var id := units[last].id;
      AddColumns(db, period, units, lateFee, last, c, unit);
      BilledStep(units, n, unit);
      AddInvoicesAre(db, period, units, lateFee, last);
      InsertColumn(AddInvoices(db, period, units, lateFee, last), db.nextId + last,
                   NewInvoice(db, period, units, lateFee, id), c, unit);
      NewForUnit(db, period, units, lateFee, id, c, unit);
    }
  }

  lemma InsertColumn(invoices: map<Id, Invoice>, id: Id, inv: Invoice, c: Column, unit: Id)
    requires id !in invoices
    ensures InvoiceSum(invoices[id := inv], c, unit) == InvoiceSum(invoices, c, unit) + Cell(c, unit, inv)
  {
    TotalInsert(invoices, Cells(c, unit), id, inv);
  }

  lemma NewForUnit(db: Db, period: Id, units: seq<Unit>, lateFee: int -> int, id: Id, c: Column, unit: Id)
    requires period in db.periods && Calculable(db.periods[period].items, units)
    ensures id != unit ==> Cell(c, unit, NewInvoice(db, period, units, lateFee, id)) == 0
  {
  }

  /** A calculation takes the period's old drafts out of each column and puts the new invoice of the unit in. */
  lemma CalculateColumns(db: Db, period: Id, units: seq<Unit>, lateFee: int -> int, c: Column, unit: Id)
    requires FreshIds(db) && DistinctUnits(units) && CalculatePeriod(db, period, units, lateFee).Done?
    ensures InvoiceSum(CalculatePeriod(db, period, units, lateFee).db.invoices, c, unit)
         == InvoiceSum(db.invoices, c, unit) - InvoiceSum(OwnRows(db.invoices, period), c, unit)
            + if Billed(units, |units|, unit) then Cell(c, unit, NewInvoice(db, period, units, lateFee, unit)) else 0
  {
    hide NewInvoice, InvoiceSum, Cell, Billed, DistinctUnits, Calculable, Referenced, FirstError, ShareRows;
    AddColumns(db, period, units, lateFee, |units|, c, unit);
    DiscardColumns(db.invoices, period, c, unit);
    hide AddInvoices;
  }

  // ----- No money lost: items to invoices

  function BaseIn(period: Id): Invoice -> int {
    (inv: Invoice) => if inv.period == period then inv.base else 0
  }

  lemma NewBase(db: Db, period: Id, units: seq<Unit>, lateFee: int -> int, unit: Id)
    requires period in db.periods && Calculable(db.periods[period].items, units)
    ensures BaseIn(period)(NewInvoice(db, period, units, lateFee, unit))
         == RowSum(ChargeRows(db.periods[period].items, units, unit))
  {
  }

  lemma {:induction false} BaseOfAdded(db: Db, period: Id, units: seq<Unit>, lateFee: int -> int, n: nat)
    requires n <= |units| && period in db.periods && Calculable(db.periods[period].items, units)
    requires forall id :: id in db.invoices ==> id < db.nextId
    ensures Total(AddInvoices(db, period, units, lateFee, n), BaseIn(period))
         == BaseTotal(db.periods[period].items, units, n)
  {
    hide Calculable, NewInvoice, Total, BaseIn, ChargeRows, RowSum, OwnInvoices;
    if n == 0 {
      NoBaseLeft(db.invoices, period);
    } else {
      var last := n - 1;
      var inv := NewInvoice(db, period, units, lateFee, units[last].id);
      var before := AddInvoices(db, period, units, lateFee, last);
      BaseOfAdded(db, period, units, lateFee, last);
      assert db.nextId + last !in before by {
        AddInvoicesAre(db, period, units, lateFee, last);
      }
      assert AddInvoices(db, period, units, lateFee, n) == before[db.nextId + last := inv];
      hide AddInvoices;
      TotalInsert(before, BaseIn(period), db.nextId + last, inv);
      NewBase(db, period, units, lateFee, units[last].id);
    }
  }

  lemma NoBaseLeft(invoices: map<Id, Invoice>, period: Id)
    ensures Total(invoices - OwnInvoices(invoices, period), BaseIn(period)) == 0
  {
    var rest := invoices - OwnInvoices(invoices, period);
    forall id | id in rest
      ensures BaseIn(period)(rest[id]) == 0
    {
      assert id !in OwnInvoices(invoices, period);
    }
    TotalZero(rest, BaseIn(period));
  }

  /** After a calculation the base amounts of the period's invoices add up to what its items distribute. */
  lemma CalculatedTotal(db: Db, period: Id, units: seq<Unit>, lateFee: int -> int)
    requires FreshIds(db) && DistinctUnits(units) && CalculatePeriod(db, period, units, lateFee).Done?
    ensures var after := CalculatePeriod(db, period, units, lateFee).db;
            period in after.periods
            && Total(after.invoices, BaseIn(period)) == UsedTotal(after.periods[period].items, units)
  {
    hide Total, BaseIn, AddInvoices, ShareRows, Referenced, FirstError, Calculable, UsedTotal, BaseTotal, DistinctUnits;
    BaseOfAdded(db, period, units, lateFee, |units|);
    NoMoneyLost(db.periods[period].items, units);
  }

  // ----- Exactly how each step changes the slack

  /** What discarding the period's drafts gives back to the unit. */
  ghost function Freed(db: Db, period: Id, unit: Id): int {
    InvoiceSum(OwnRows(db.invoices, period), AbsorbedPaid, unit)
    + InvoiceSum(OwnRows(db.invoices, period), AbsorbedCredit, unit)
  }

  function Applied(inv: Invoice, amount: int): int {
    ApplyToInvoice(Effective(inv), inv.paid, amount).applied
  }

  ghost function Change(db: Db, step: Step, unit: Id): int {
    if Call(db, step).Refused? then 0
    else match step
      case DoRecordManual(invoice, amount) =>
        if db.invoices[invoice].unit == unit then amount - Applied(db.invoices[invoice], amount) else 0
      case DoCallback(payment, verified) =>
        if Confirms(db, payment, verified) && db.payments[payment].unit == unit then
          var p := db.payments[payment];
          var inv := db.invoices[p.invoice];
          p.amount - Applied(inv, p.amount) - if inv.status == Cancelled then inv.paid + inv.credit else 0
        else 0
      case DoCancel(invoice) =>
        if db.invoices[invoice].unit == unit then db.invoices[invoice].paid + db.invoices[invoice].credit else 0
      case DoCalculate(period, units, _) =>
        Freed(db, period, unit) - if Billed(units, |units|, unit) then Stored(db, unit).creditAsset else 0
      case DoReopen(period) => Freed(db, period, unit)
      case _ => 0
  }

  lemma UpdateColumn(invoices: map<Id, Invoice>, id: Id, inv: Invoice, c: Column, unit: Id)
    requires id in invoices
    ensures InvoiceSum(invoices[id := inv], c, unit)
         == InvoiceSum(invoices, c, unit) - Cell(c, unit, invoices[id]) + Cell(c, unit, inv)
  {
    TotalUpdate(invoices, Cells(c, unit), id, inv);
  }

  /** What one invoice has absorbed. */
  function Absorbed(unit: Id, inv: Invoice): int {
    if inv.unit == unit && inv.status != Cancelled then inv.paid + inv.credit else 0
  }

  lemma SlackOfUpdate(db: Db, after: Db, id: Id, inv: Invoice, unit: Id)
    requires id in db.invoices && after.invoices == db.invoices[id := inv]
    ensures Slack(after, unit) == Slack(db, unit) + VerifiedSum(after.payments, unit) - VerifiedSum(db.payments, unit)
                                  + Absorbed(unit, db.invoices[id]) - Absorbed(unit, inv)
  {
    hide InvoiceSum, VerifiedSum;
    UpdateColumn(db.invoices, id, inv, AbsorbedPaid, unit);
    UpdateColumn(db.invoices, id, inv, AbsorbedCredit, unit);
  }

  lemma BookedIsOpen(inv: Invoice, amount: int)
    ensures ApplyToInvoice(Effective(inv), inv.paid, amount).status != Cancelled
  {
  }

  lemma RecordManualSlack(db: Db, invoice: Id, amount: int, unit: Id)
    requires FreshIds(db) && RecordManual(db, invoice, amount).Done?
    ensures Slack(RecordManual(db, invoice, amount).db, unit)
         == Slack(db, unit) + if db.invoices[invoice].unit == unit then amount - Applied(db.invoices[invoice], amount) else 0
  {
    hide Derive, VerifiedSum, Slack, ApplyToInvoice, Effective;
    var after := RecordManual(db, invoice, amount).db;
    PaymentInserted(db.payments, db.nextId, Payment(db.invoices[invoice].unit, invoice, false, amount, Verified), unit);
    SlackOfUpdate(db, after, invoice, after.invoices[invoice], unit);
    BookedIsOpen(db.invoices[invoice], amount);
  }

  lemma CallbackSlack(db: Db, payment: Id, verified: bool, unit: Id)
    requires PaymentsPoint(db) && HandleCallback(db, payment, verified).Done?
    ensures Slack(HandleCallback(db, payment, verified).db, unit)
         == Slack(db, unit) + Change(db, DoCallback(payment, verified), unit)
  {
    hide Derive, VerifiedSum, ApplyToInvoice, Effective, InvoiceSum;
    var after := HandleCallback(db, payment, verified).db;
    var p := db.payments[payment];
    if p.status == Recorded && p.gateway {
      assert p.invoice in db.invoices && p.unit == db.invoices[p.invoice].unit;
      if verified {
        hide Slack;
        PaymentReplaced(db.payments, payment, p.(status := Verified), unit);
        SlackOfUpdate(db, after, p.invoice, after.invoices[p.invoice], unit);
        BookedIsOpen(db.invoices[p.invoice], p.amount);
      } else {
        PaymentReplaced(db.payments, payment, p.(status := Failed), unit);
      }
    }
  }

  lemma StartGatewaySlack(db: Db, invoice: Id, requested: Option<int>, gatewayUp: bool, unit: Id)
    requires FreshIds(db) && StartGateway(db, invoice, requested, gatewayUp).Done?
    ensures Slack(StartGateway(db, invoice, requested, gatewayUp).db, unit) == Slack(db, unit)
  {
    hide VerifiedSum, InvoiceSum;
    PaymentInserted(db.payments, db.nextId, StartGateway(db, invoice, requested, gatewayUp).db.payments[db.nextId], unit);
  }

  lemma CancelSlack(db: Db, invoice: Id, unit: Id)
    requires CancelInvoice(db, invoice).Done?
    ensures Slack(CancelInvoice(db, invoice).db, unit)
         == Slack(db, unit)
            + if db.invoices[invoice].unit == unit then db.invoices[invoice].paid + db.invoices[invoice].credit else 0
  {
    hide Derive, Slack;
    var after := CancelInvoice(db, invoice).db;
    SlackOfUpdate(db, after, invoice, after.invoices[invoice], unit);
  }

  lemma AdjustSlack(db: Db, invoice: Id, note: Note, reasonGiven: bool, unit: Id)
    requires AddAdjustment(db, invoice, note, reasonGiven).Done?
    ensures Slack(AddAdjustment(db, invoice, note, reasonGiven).db, unit) == Slack(db, unit)
  {
    hide Derive, Slack;
    var after := AddAdjustment(db, invoice, note, reasonGiven).db;
    SlackOfUpdate(db, after, invoice, after.invoices[invoice], unit);
  }

  lemma NewAbsorbs(db: Db, period: Id, units: seq<Unit>, lateFee: int -> int, unit: Id)
    requires period in db.periods && Calculable(db.periods[period].items, units)
    ensures var inv := NewInvoice(db, period, units, lateFee, unit);
            Cell(AbsorbedPaid, unit, inv) == 0 && Cell(AbsorbedCredit, unit, inv) == Stored(db, unit).creditAsset
  {
  }

  lemma CalculateSlack(db: Db, period: Id, units: seq<Unit>, lateFee: int -> int, unit: Id)
    requires FreshIds(db) && DistinctUnits(units) && CalculatePeriod(db, period, units, lateFee).Done?
    ensures Slack(CalculatePeriod(db, period, units, lateFee).db, unit)
         == Slack(db, unit) + Freed(db, period, unit)
            - if Billed(units, |units|, unit) then Stored(db, unit).creditAsset else 0
  {
    hide InvoiceSum, VerifiedSum, Cell, NewInvoice, Calculable, Billed, DistinctUnits, AddInvoices, ShareRows, Referenced,
         FirstError;
    NewAbsorbs(db, period, units, lateFee, unit);
    CalculateColumns(db, period, units, lateFee, AbsorbedPaid, unit);
    CalculateColumns(db, period, units, lateFee, AbsorbedCredit, unit);
  }

  lemma ReopenSlack(db: Db, period: Id, unit: Id)
    requires Reopen(db, period).Done?
    ensures Slack(Reopen(db, period).db, unit) == Slack(db, unit) + Freed(db, period, unit)
  {
    hide InvoiceSum, VerifiedSum, Referenced;
    DiscardColumns(db.invoices, period, AbsorbedPaid, unit);
    DiscardColumns(db.invoices, period, AbsorbedCredit, unit);
  }

  lemma IssueSlack(db: Db, period: Id, year: int, unit: Id)
    requires AllPlaced(db) && Issue(db, period, year).Done?
    ensures Slack(Issue(db, period, year).db, unit) == Slack(db, unit)
  {
    hide InvoiceSum, VerifiedSum, Derive, ByUnit, NumberAll;
    IssueDerives(db, period, year, unit);
  }

  predicate OnPeriods(step: Step) {
    step.DoCreatePeriod? || step.DoEditItems? || step.DoCalculate? || step.DoReopen? || step.DoIssue? || step.DoClose?
  }

  lemma PeriodStepSlack(db: Db, step: Step, unit: Id)
    requires FreshIds(db) && AllPlaced(db) && WellFormed(step) && OnPeriods(step) && Call(db, step).Done?
    ensures Slack(Apply(db, step), unit) == Slack(db, unit) + Change(db, step, unit)
  {
    hide FreshIds, AllPlaced, DistinctUnits, CalculatePeriod, Issue, Reopen, KeepShares, Billed, Freed;
    match step
    case DoIssue(period, year) => hide Slack; IssueSlack(db, period, year, unit);
    case DoReopen(period) => hide Slack; ReopenSlack(db, period, unit);
    case DoCalculate(period, units, lateFee) => hide Slack; CalculateSlack(db, period, units, lateFee, unit);
    case _ =>
  }

  lemma InvoiceStepSlack(db: Db, step: Step, unit: Id)
    requires FreshIds(db) && PaymentsPoint(db) && OnInvoicesOnly(step) && Call(db, step).Done?
    ensures Slack(Apply(db, step), unit) == Slack(db, unit) + Change(db, step, unit)
  {
    hide FreshIds, PaymentsPoint, Derive, RecordManual, StartGateway, HandleCallback, CancelInvoice, AddAdjustment;
    match step
    case DoCancel(invoice) => hide Slack; CancelSlack(db, invoice, unit);
    case DoAdjust(invoice, note, reasonGiven) => hide Slack; AdjustSlack(db, invoice, note, reasonGiven, unit);
    case DoRecordManual(invoice, amount) => hide Slack; RecordManualSlack(db, invoice, amount, unit);
    case DoStartGateway(invoice, requested, gatewayUp) =>
      hide Slack; StartGatewaySlack(db, invoice, requested, gatewayUp, unit);
    case DoCallback(payment, verified) => hide Slack; CallbackSlack(db, payment, verified, unit);
    case _ =>
  }

  /** The slack after a step is the slack before it plus the step's change. */
  lemma SlackExact(db: Db, step: Step, unit: Id)
    requires Lifecycle(db) && WellFormed(step)
    ensures Slack(Apply(db, step), unit) == Slack(db, unit) + Change(db, step, unit)
  {
    assert FreshIds(db) && AllPlaced(db) && PaymentsPoint(db);
    hide Lifecycle, FreshIds, AllPlaced, PaymentsPoint, WellFormed, Slack, Call;
    if Call(db, step).Done? {
      if OnPeriods(step) {
        PeriodStepSlack(db, step, unit);
      } else {
        InvoiceStepSlack(db, step, unit);
      }
    }
  }

  // ----- Conservation

  /** Embedded credits and stored credit assets are never negative. */
  ghost predicate Sound(db: Db) {
    && (forall id :: id in db.invoices ==> db.invoices[id].credit >= 0)
    && (forall unit :: unit in db.balances ==> db.balances[unit].creditAsset >= 0)
  }

  lemma StepSound(db: Db, step: Step)
    requires Lifecycle(db) && Sound(db) && WellFormed(step)
    ensures Sound(Apply(db, step))
  {
    var after := Apply(db, step);
    forall unit | unit in after.balances
      ensures after.balances[unit].creditAsset >= 0
    {
      hide Call, Lifecycle, WellFormed;
      WrittenIsDerived(db, step, unit);
      hide InvoiceSum, VerifiedSum;
    }
    hide Lifecycle, Apply;
    StepCredits(db, step);
  }

  ghost predicate CreditsNotNegative(invoices: map<Id, Invoice>) {
    forall id :: id in invoices ==> invoices[id].credit >= 0
  }

  lemma StepCredits(db: Db, step: Step)
    requires Lifecycle(db) && Sound(db) && WellFormed(step)
    ensures CreditsNotNegative(Apply(db, step).invoices)
  {
    assert FreshIds(db) && AllPlaced(db) && CreditsNotNegative(db.invoices);
    hide Lifecycle, FreshIds, AllPlaced, CreditsNotNegative, Sound, DistinctUnits;
    if Call(db, step).Done? {
      match step
      case DoCalculate(period, units, lateFee) => CalculateCredits(db, period, units, lateFee);
      case DoIssue(period, year) => IssueCredits(db, period, year);
      case DoReopen(period) => FewerCredits(db.invoices, OwnInvoices(db.invoices, period));
      case _ => TouchCredits(db, step);
    }
  }

  lemma FewerCredits(invoices: map<Id, Invoice>, gone: set<Id>)
    requires CreditsNotNegative(invoices)
    ensures CreditsNotNegative(invoices - gone)
  {
  }

  lemma OneCredit(invoices: map<Id, Invoice>, id: Id, inv: Invoice)
    requires CreditsNotNegative(invoices) && id in invoices && inv.credit == invoices[id].credit
    ensures CreditsNotNegative(invoices[id := inv])
  {
  }

  lemma TouchCredits(db: Db, step: Step)
    requires CreditsNotNegative(db.invoices) && !step.DoCalculate? && !step.DoIssue? && !step.DoReopen?
    ensures CreditsNotNegative(Apply(db, step).invoices)
  {
    hide CreditsNotNegative, Derive, ApplyToInvoice, Effective, KeepShares;
    if Call(db, step).Done? {
      var after := Apply(db, step);
      match step
      case DoCancel(invoice) => OneCredit(db.invoices, invoice, after.invoices[invoice]);
      case DoAdjust(invoice, _, _) => OneCredit(db.invoices, invoice, after.invoices[invoice]);
      case DoRecordManual(invoice, _) => OneCredit(db.invoices, invoice, after.invoices[invoice]);
      case DoCallback(payment, verified) =>
        if Confirms(db, payment, verified) {
          var invoice := db.payments[payment].invoice;
          OneCredit(db.invoices, invoice, after.invoices[invoice]);
        }
      case _ =>
    }
  }

  lemma CalculateCredits(db: Db, period: Id, units: seq<Unit>, lateFee: int -> int)
    requires FreshIds(db) && Sound(db) && CalculatePeriod(db, period, units, lateFee).Done?
    ensures var after := CalculatePeriod(db, period, units, lateFee).db;
            CreditsNotNegative(after.invoices)
  {
    hide Calculable, NewInvoice, ShareRows, FirstError, Referenced;
    AddInvoicesAre(db, period, units, lateFee, |units|);
    hide AddInvoices;
    var after := CalculatePeriod(db, period, units, lateFee).db;
    forall id | id in after.invoices
      ensures after.invoices[id].credit >= 0
    {
      if id >= db.nextId {
        NewCredit(db, period, units, lateFee, units[id - db.nextId].id);
      }
    }
  }

  lemma NewCredit(db: Db, period: Id, units: seq<Unit>, lateFee: int -> int, unit: Id)
    requires period in db.periods && Calculable(db.periods[period].items, units)
    ensures NewInvoice(db, period, units, lateFee, unit).credit == Stored(db, unit).creditAsset
  {
  }

  lemma IssueCredits(db: Db, period: Id, year: int)
    requires AllPlaced(db) && Sound(db) && Issue(db, period, year).Done?
    ensures var after := Issue(db, period, year).db;
            CreditsNotNegative(after.invoices)
  {
    var after := Issue(db, period, year).db;
    var order := IssueIs(db, period, year);
    assert after.invoices.Keys == db.invoices.Keys;
    hide Issue;
    forall id | id in after.invoices
      ensures after.invoices[id].credit >= 0
    {
      IssuedInvoice(db, after, period, year, order, id);
    }
  }

  /** The two steps that can spend more than there is: embedding a stale credit, and confirming a payment on
      an invoice that was cancelled meanwhile. */
  ghost predicate Overdraws(db: Db, step: Step, unit: Id) {
    match step
    case DoCalculate(period, units, lateFee) =>
      && Call(db, step).Done? && Billed(units, |units|, unit)
      && Stored(db, unit).creditAsset > Slack(db, unit) + Freed(db, period, unit)
    case DoCallback(payment, verified) =>
      && Confirms(db, payment, verified) && db.payments[payment].unit == unit
      && var p := db.payments[payment];
         var inv := db.invoices[p.invoice];
         inv.status == Cancelled && inv.paid + inv.credit + Applied(inv, p.amount) > Slack(db, unit) + p.amount
    case _ => false
  }

  lemma FreedIsPositive(db: Db, period: Id, unit: Id)
    requires AllComposed(db) && Sound(db)
    ensures Freed(db, period, unit) >= 0
  {
    hide ChargeSum, Total;
    var own := OwnRows(db.invoices, period);
    forall id | id in own
      ensures Cells(AbsorbedPaid, unit)(own[id]) >= 0 && Cells(AbsorbedCredit, unit)(own[id]) >= 0
    {
      assert Composed(db.invoices[id]);
    }
    TotalPositive(own, Cells(AbsorbedPaid, unit));
    TotalPositive(own, Cells(AbsorbedCredit, unit));
  }

  lemma AppliedAtMost(inv: Invoice, amount: int)
    ensures Applied(inv, amount) <= amount
  {
  }

  lemma CancelFrees(db: Db, invoice: Id)
    requires AllComposed(db) && Sound(db) && invoice in db.invoices
    ensures db.invoices[invoice].paid + db.invoices[invoice].credit >= 0
  {
  }

  lemma ChangeOverdraws(db: Db, step: Step, unit: Id)
    requires Lifecycle(db) && Sound(db) && Slack(db, unit) >= 0
    ensures Slack(db, unit) + Change(db, step, unit) >= 0 <==> !Overdraws(db, step, unit)
  {
    assert AllComposed(db);
    hide Lifecycle, Slack, Billed, Applied, Freed, Sound, AllComposed, Confirms;
    hide CreatePeriod, EditItems, CalculatePeriod, Issue, Reopen, Close, StartGateway, HandleCallback, AddAdjustment;
    match step
    case DoCalculate(period, units, lateFee) => FreedIsPositive(db, period, unit);
    case DoReopen(period) => FreedIsPositive(db, period, unit);
    case DoCancel(invoice) =>
      if invoice in db.invoices {
        CancelFrees(db, invoice);
      }
    case DoRecordManual(invoice, amount) =>
      if invoice in db.invoices {
        AppliedAtMost(db.invoices[invoice], amount);
      }
    case DoCallback(payment, verified) => CallbackOverdraws(db, payment, verified, unit);
    case _ => hide RecordManual, CancelInvoice;
  }

  lemma CallbackOverdraws(db: Db, payment: Id, verified: bool, unit: Id)
    requires Slack(db, unit) >= 0
    ensures Slack(db, unit) + Change(db, DoCallback(payment, verified), unit) >= 0
            <==> !Overdraws(db, DoCallback(payment, verified), unit)
  {
  }

  /** A conserving state stays conserving under every step, except exactly the two that overdraw. */
  lemma ConservedStep(db: Db, step: Step, unit: Id)
    requires Lifecycle(db) && Sound(db) && WellFormed(step) && Conserved(db, unit)
    ensures Conserved(Apply(db, step), unit) <==> !Overdraws(db, step, unit)
  {
    hide Conserved, Slack, Apply, Lifecycle, Sound, Change, Overdraws, WellFormed;
    ConservedIff(db, unit);
    ConservedIff(Apply(db, step), unit);
    SlackExact(db, step, unit);
    ChangeOverdraws(db, step, unit);
  }

  /** What a caller can see to: calculate on balances that are up to date, and confirm no payment of a cancelled invoice. */
  ghost predicate Careful(db: Db, step: Step) {
    match step
    case DoCalculate(period, units, _) => forall i :: 0 <= i < |units| ==> Fresh(db, units[i].id)
    case DoCallback(payment, verified) =>
      Confirms(db, payment, verified) ==> db.invoices[db.payments[payment].invoice].status != Cancelled
    case _ => true
  }

  lemma CarefulNeverOverdraws(db: Db, step: Step, unit: Id)
    requires Lifecycle(db) && Sound(db) && Conserved(db, unit) && Careful(db, step)
    ensures !Overdraws(db, step, unit)
  {
    assert AllComposed(db);
    hide Lifecycle, AllComposed, Sound, Call, Applied, Freed;
    ConservedIff(db, unit);
    hide Conserved, Slack, Derive;
    match step
    case DoCalculate(period, units, lateFee) => FreedIsPositive(db, period, unit);
    case _ =>
  }

  ghost predicate CarefulRun(db: Db, steps: seq<Step>) {
    steps == []
    || (CarefulRun(db, steps[..|steps| - 1])
        && Careful(Run(db, steps[..|steps| - 1]), steps[|steps| - 1]) && WellFormed(steps[|steps| - 1]))
  }

  /** Over every careful run each unit's verified payments are exactly its paid amounts, its embedded credits
      and its credit asset. */
  lemma {:induction false} ConservedRun(steps: seq<Step>, unit: Id)
    requires CarefulRun(EMPTY_DB, steps)
    ensures Lifecycle(Run(EMPTY_DB, steps)) && Sound(Run(EMPTY_DB, steps)) && Conserved(Run(EMPTY_DB, steps), unit)
  {
    if steps == [] {
      EmptyKeeps();
      hide Lifecycle;
    } else {
      var before := steps[..|steps| - 1];
      ConservedRun(before, unit);
      hide Lifecycle, Sound, Conserved, Apply, Careful, WellFormed, Overdraws;
      StepKeeps(Run(EMPTY_DB, before), steps[|steps| - 1]);
      StepSound(Run(EMPTY_DB, before), steps[|steps| - 1]);
      ConservedStep(Run(EMPTY_DB, before), steps[|steps| - 1], unit);
      CarefulNeverOverdraws(Run(EMPTY_DB, before), steps[|steps| - 1], unit);
    }
  }

  /** The state was conserving before the run and after each of its steps. */
  ghost predicate AlwaysConserved(steps: seq<Step>, unit: Id) {
    Conserved(Run(EMPTY_DB, steps), unit) && (steps == [] || AlwaysConserved(steps[..|steps| - 1], unit))
  }

  ghost predicate NeverOverdraws(steps: seq<Step>, unit: Id) {
    steps == []
    || (NeverOverdraws(steps[..|steps| - 1], unit) && !Overdraws(Run(EMPTY_DB, steps[..|steps| - 1]), steps[|steps| - 1], unit))
  }

  lemma {:induction false} ReachableSound(steps: seq<Step>)
    requires forall i :: 0 <= i < |steps| ==> WellFormed(steps[i])
    ensures Lifecycle(Run(EMPTY_DB, steps)) && Sound(Run(EMPTY_DB, steps))
  {
    ReachableLifecycle(steps);
    if steps != [] {
      ReachableSound(steps[..|steps| - 1]);
      hide Lifecycle, Sound, Apply, WellFormed;
      StepSound(Run(EMPTY_DB, steps[..|steps| - 1]), steps[|steps| - 1]);
    }
  }

  /** For every run: it conserves throughout if and only if none of its steps overdraws. */
  lemma {:induction false} AlwaysConservedIff(steps: seq<Step>, unit: Id)
    requires forall i :: 0 <= i < |steps| ==> WellFormed(steps[i])
    ensures AlwaysConserved(steps, unit) <==> NeverOverdraws(steps, unit)
  {
    if steps != [] {
      var before := steps[..|steps| - 1];
      AlwaysConservedIff(before, unit);
      ReachableSound(before);
      hide Lifecycle, Sound, Conserved, Apply, WellFormed, Overdraws;
      if AlwaysConserved(before, unit) {
        ConservedStep(Run(EMPTY_DB, before), steps[|steps| - 1], unit);
      }
    } else {
      EmptyConserved(unit);
    }
  }

  lemma EmptyConserved(unit: Id)
    ensures Conserved(EMPTY_DB, unit)
  {
  }

  // ----- Where the promise fails

  /** Two periods calculated before either is issued embed the same credit twice: the slack falls to minus the
      credit, the clamp hides it and a verified amount is spent twice. */
  lemma SameCreditTwice(
    db: Db, first: Id, second: Id, units: seq<Unit>, lateFee: int -> int, moreUnits: seq<Unit>, moreFee: int -> int, unit: Id)
    requires Lifecycle(db) && first != second && DistinctUnits(units) && DistinctUnits(moreUnits)
    requires OwnInvoices(db.invoices, first) == {} && OwnInvoices(db.invoices, second) == {}
    requires Billed(units, |units|, unit) && Billed(moreUnits, |moreUnits|, unit)
    requires Fresh(db, unit) && Stored(db, unit).creditAsset > 0
    requires CalculatePeriod(db, first, units, lateFee).Done?
    requires CalculatePeriod(CalculatePeriod(db, first, units, lateFee).db, second, moreUnits, moreFee).Done?
    ensures var after := CalculatePeriod(CalculatePeriod(db, first, units, lateFee).db, second, moreUnits, moreFee).db;
            && Slack(after, unit) == -Stored(db, unit).creditAsset
            && Derive(after.invoices, after.payments, unit).creditAsset == 0
            && !Conserved(after, unit)
  {
    var between := CalculatePeriod(db, first, units, lateFee).db;
    var after := CalculatePeriod(between, second, moreUnits, moreFee).db;
    var credit := Stored(db, unit).creditAsset;
    CalculateKeeps(db, first, units, lateFee);
    assert FreshIds(db) && FreshIds(between);
    CalculateSlack(db, first, units, lateFee, unit);
    CalculateSlack(between, second, moreUnits, moreFee, unit);
    NothingFreed(db, first, unit);
    CalculateIs(db, first, units, lateFee);
    assert OwnInvoices(between.invoices, second) == {} by {
      hide CalculatePeriod, Lifecycle, DraftFor, Composed;
      forall id | id in between.invoices
        ensures between.invoices[id].period != second
      {
        if id < db.nextId {
          assert id !in OwnInvoices(db.invoices, second);
        } else {
          SecondUntouched(db, between, first, units, id);
        }
      }
    }
    NothingFreed(between, second, unit);
    CalculateWritesNone(db, first, units, lateFee);
    assert Stored(between, unit).creditAsset == credit;
    hide CalculatePeriod, Lifecycle, DistinctUnits, Recalculated;
    ConservedIff(after, unit);
    SlackOfFresh(db, unit);
    hide Slack, Fresh, Derive;
  }

  lemma SecondUntouched(db: Db, between: Db, first: Id, units: seq<Unit>, id: Id)
    requires Recalculated(db, between, first, units) && db.nextId <= id < db.nextId + |units|
    ensures between.invoices[id].period == first
  {
  }

  lemma SlackOfFresh(db: Db, unit: Id)
    requires Fresh(db, unit) && Stored(db, unit).creditAsset > 0
    ensures Slack(db, unit) == Stored(db, unit).creditAsset
  {
  }

  lemma NothingFreed(db: Db, period: Id, unit: Id)
    requires OwnInvoices(db.invoices, period) == {}
    ensures Freed(db, period, unit) == 0
  {
  }
}
