/** What a balance row means: the ledger identity, the client's reconciliation test, and the closed
    form of a sequence of payments. */
module LedgerBalance {
  import opened Wrappers
  import opened MapSum
  import opened Engine
  import opened Charges
  import opened Ledger
  import opened LedgerLifecycle

  // ----- The ledger identity

  /** What an open invoice of the unit still asks for: effective amount less payments. */
  function Due(unit: Id, inv: Invoice): int {
    if inv.unit == unit && IsOpen(inv.status) then Effective(inv) - inv.paid else 0
  }

  /** The notes of a settled invoice: it is neither open nor cancelled. */
  function SettledNotes(unit: Id, inv: Invoice): int {
    if inv.unit == unit && !IsOpen(inv.status) && inv.status != Cancelled
    then NoteSum(inv.notes, true) - NoteSum(inv.notes, false)
    else 0
  }

  ghost function DueTotal(invoices: map<Id, Invoice>, unit: Id): int {
    Total(invoices, inv => Due(unit, inv))
  }

  ghost function SettledTotal(invoices: map<Id, Invoice>, unit: Id): int {
    Total(invoices, inv => SettledNotes(unit, inv))
  }

  /** The balance formula before it is clamped at zero. */
  ghost function Position(invoices: map<Id, Invoice>, unit: Id): int {
    InvoiceSum(invoices, OpenPrior, unit) + InvoiceSum(invoices, DebitNotes, unit) + InvoiceSum(invoices, OpenBase, unit)
    + InvoiceSum(invoices, OpenLate, unit) - InvoiceSum(invoices, OpenPaid, unit)
    - (InvoiceSum(invoices, OpenCredit, unit) + InvoiceSum(invoices, CreditNotes, unit))
  }

  lemma ColumnRemove(invoices: map<Id, Invoice>, c: Column, unit: Id, id: Id)
    requires id in invoices
    ensures InvoiceSum(invoices, c, unit) == Cell(c, unit, invoices[id]) + InvoiceSum(invoices - {id}, c, unit)
  {
    TotalRemove(invoices, Cells(c, unit), id);
  }

  lemma {:induction false} PositionIsDue(invoices: map<Id, Invoice>, unit: Id)
    requires forall id :: id in invoices ==> Composed(invoices[id])
    ensures Position(invoices, unit) == DueTotal(invoices, unit) + SettledTotal(invoices, unit)
    decreases |invoices|
  {
    hide Total, ChargeSum, NoteSum;
    if |invoices| == 0 {
      NoRows(invoices, unit);
    } else {
      var id := Unfold(invoices, Cells(OpenPrior, unit));
      PositionIsDue(invoices - {id}, unit);
      PositionRemove(invoices, unit, id);
      TotalRemove(invoices, inv => Due(unit, inv), id);
      TotalRemove(invoices, inv => SettledNotes(unit, inv), id);
    }
  }

  lemma NoRows(invoices: map<Id, Invoice>, unit: Id)
    requires |invoices| == 0
    ensures Position(invoices, unit) == 0 && DueTotal(invoices, unit) == 0 && SettledTotal(invoices, unit) == 0
  {
  }

  lemma PositionRemove(invoices: map<Id, Invoice>, unit: Id, id: Id)
    requires id in invoices && Composed(invoices[id])
    ensures Position(invoices, unit)
         == Position(invoices - {id}, unit) + Due(unit, invoices[id]) + SettledNotes(unit, invoices[id])
  {
    hide InvoiceSum, ChargeSum, NoteSum;
    ColumnRemove(invoices, OpenPrior, unit, id);
    ColumnRemove(invoices, OpenBase, unit, id);
    ColumnRemove(invoices, OpenLate, unit, id);
    ColumnRemove(invoices, OpenPaid, unit, id);
    ColumnRemove(invoices, OpenCredit, unit, id);
    ColumnRemove(invoices, DebitNotes, unit, id);
    ColumnRemove(invoices, CreditNotes, unit, id);
  }

  /** The derived balance is what open invoices still ask for plus the notes of settled ones, never below zero. */
  lemma LedgerIdentity(db: Db, unit: Id)
    requires AllComposed(db)
    ensures Derive(db.invoices, db.payments, unit).balance
         == AtLeastZero(DueTotal(db.invoices, unit) + SettledTotal(db.invoices, unit))
  {
    hide InvoiceSum, VerifiedSum, DueTotal, SettledTotal, Composed;
    PositionIsDue(db.invoices, unit);
  }

  /** In particular in every reachable state. */
  lemma {:induction false} ReachableIdentity(steps: seq<Step>, unit: Id)
    requires forall i :: 0 <= i < |steps| ==> WellFormed(steps[i])
    ensures var db := Run(EMPTY_DB, steps);
            Derive(db.invoices, db.payments, unit).balance
            == AtLeastZero(DueTotal(db.invoices, unit) + SettledTotal(db.invoices, unit))
  {
    hide Derive, DueTotal, SettledTotal;
    ReachableLifecycle(steps);
    LedgerIdentity(Run(EMPTY_DB, steps), unit);
  }

  // ----- The client's view (web/src/lib/payments/balance.ts)

  function PositiveDifference(a: int, b: int): int {
    if a - b > 0 then a - b else 0
  }

  function BalanceFromComponents(b: Balance): int {
    PositiveDifference(b.priorDebt + b.current + b.lateFees, b.paid + b.credit)
  }

  predicate BalanceReconciles(b: Balance) {
    BalanceFromComponents(b) == b.balance
  }

  function AmountSum(amounts: seq<int>): int {
    if amounts == [] then 0 else AmountSum(amounts[..|amounts| - 1]) + amounts[|amounts| - 1]
  }

  /** The amounts of the notes of one kind, in order. */
  function NotesOf(notes: seq<Note>, debit: bool): seq<int> {
    if notes == [] then []
    else
      var last := notes[|notes| - 1];
      NotesOf(notes[..|notes| - 1], debit) + if last.debit == debit then [last.amount] else []
  }

  function InvoiceOutstanding(inv: Invoice): int {
    PositiveDifference(inv.final + AmountSum(NotesOf(inv.notes, true)) - AmountSum(NotesOf(inv.notes, false)), inv.paid)
  }

  lemma {:induction false} ClientNotes(notes: seq<Note>, debit: bool)
    ensures AmountSum(NotesOf(notes, debit)) == NoteSum(notes, debit)
  {
    if notes != [] {
      ClientNotes(notes[..|notes| - 1], debit);
      var before, last := NotesOf(notes[..|notes| - 1], debit), notes[|notes| - 1];
      assert (before + [last.amount])[..|before|] == before;
      assert before + [] == before;
    }
  }

  /** The client shows as outstanding exactly what a gateway payment without an amount is opened for. */
  lemma ClientAgrees(inv: Invoice)
    ensures InvoiceOutstanding(inv) == GatewayAmount(inv, None)
  {
    ClientNotes(inv.notes, true);
    ClientNotes(inv.notes, false);
  }

  // ----- The balance and what the invoices themselves ask for

  function Dues(unit: Id): Invoice -> int {
    inv => Due(unit, inv) + SettledNotes(unit, inv)
  }

  /** What an invoice shows as outstanding; a cancelled one shows nothing. */
  function Outstanding(unit: Id): Invoice -> int {
    (inv: Invoice) => if inv.unit == unit && inv.status != Cancelled then InvoiceOutstanding(inv) else 0
  }

  /** What the balance counts for an invoice beyond that. */
  function Excess(unit: Id): Invoice -> int {
    (inv: Invoice) => Dues(unit)(inv) - Outstanding(unit)(inv)
  }

  /** An open invoice is in excess by what was paid over its effective amount, negatively; a paid one by its net
      notes, as far as they are not outstanding again. */
  lemma ExcessIs(unit: Id, inv: Invoice)
    requires inv.unit == unit
    ensures IsOpen(inv.status) ==> Excess(unit)(inv) == Least(0, Effective(inv) - inv.paid)
    ensures inv.status == Paid ==>
      Excess(unit)(inv) == NoteSum(inv.notes, true) - NoteSum(inv.notes, false) - AtLeastZero(Effective(inv) - inv.paid)
    ensures inv.status == Cancelled ==> Excess(unit)(inv) == 0
  {
    assert Excess(unit)(inv) == Dues(unit)(inv) - Outstanding(unit)(inv);
    assert Dues(unit)(inv) == Due(unit, inv) + SettledNotes(unit, inv);
    ClientAgrees(inv);
  }

  lemma OutstandingPositive(invoices: map<Id, Invoice>, unit: Id)
    ensures Total(invoices, Outstanding(unit)) >= 0
  {
    TotalPositive(invoices, Outstanding(unit));
  }

  lemma DuesSplit(invoices: map<Id, Invoice>, unit: Id)
    ensures DueTotal(invoices, unit) + SettledTotal(invoices, unit)
         == Total(invoices, Outstanding(unit)) + Total(invoices, Excess(unit))
  {
    TotalPlus(invoices, inv => Due(unit, inv), inv => SettledNotes(unit, inv), Dues(unit));
    TotalPlus(invoices, Outstanding(unit), Excess(unit), Dues(unit));
  }

  /** The balance is what the invoices show as outstanding if and only if the excesses cancel out, or nothing is
      outstanding and they are not positive. */
  lemma BalanceVersusOutstanding(db: Db, unit: Id)
    requires AllComposed(db)
    ensures var balance := Derive(db.invoices, db.payments, unit).balance;
            var outstanding, excess := Total(db.invoices, Outstanding(unit)), Total(db.invoices, Excess(unit));
            && balance == AtLeastZero(outstanding + excess)
            && (balance == outstanding <==> excess == 0 || (outstanding == 0 && excess <= 0))
  {
    hide Derive, DueTotal, SettledTotal, Total, AllComposed;
    LedgerIdentity(db, unit);
    DuesSplit(db.invoices, unit);
    OutstandingPositive(db.invoices, unit);
  }

  /** Every invoice of the unit that is not cancelled is paid to the last Toman, its notes included. */
  ghost predicate PaidUp(invoices: map<Id, Invoice>, unit: Id) {
    forall id :: id in invoices && invoices[id].unit == unit && invoices[id].status != Cancelled ==>
      invoices[id].status == Paid && invoices[id].paid == Effective(invoices[id])
  }

  /** A unit that is paid up still owes the net notes of its paid invoices: nothing is outstanding, and the balance is
      zero if and only if these notes are not a net debit. */
  lemma PaidUpStillOwes(db: Db, unit: Id)
    requires AllComposed(db) && PaidUp(db.invoices, unit)
    ensures var balance := Derive(db.invoices, db.payments, unit).balance;
            && Total(db.invoices, Outstanding(unit)) == 0
            && balance == AtLeastZero(SettledTotal(db.invoices, unit))
            && (balance == 0 <==> SettledTotal(db.invoices, unit) <= 0)
  {
    hide Derive, SettledTotal, AllComposed, Total;
    LedgerIdentity(db, unit);
    NothingDue(db.invoices, unit);
  }

  lemma NothingDue(invoices: map<Id, Invoice>, unit: Id)
    requires PaidUp(invoices, unit)
    ensures DueTotal(invoices, unit) == 0 && Total(invoices, Outstanding(unit)) == 0
  {
    forall id | id in invoices
      ensures Outstanding(unit)(invoices[id]) == 0 && Due(unit, invoices[id]) == 0
    {
      ClientAgrees(invoices[id]);
    }
    TotalZero(invoices, inv => Due(unit, inv));
    TotalZero(invoices, Outstanding(unit));
  }

  ghost predicate AllReconcile(db: Db) {
    forall unit :: unit in db.balances ==> BalanceReconciles(db.balances[unit])
  }

  lemma DerivedReconciles(invoices: map<Id, Invoice>, payments: map<Id, Payment>, unit: Id)
    ensures BalanceReconciles(Derive(invoices, payments, unit))
  {
  }

  lemma StepReconciles(db: Db, step: Step)
    requires AllReconcile(db)
    ensures AllReconcile(Apply(db, step))
  {
    hide BalanceReconciles, Derive, ApplyToInvoice, KeepShares, Referenced, AddInvoices, ShareRows, Calculable, NumberAll;
    var after := Apply(db, step);
    forall unit | unit in after.balances
      ensures BalanceReconciles(after.balances[unit])
    {
      if unit in db.balances && after.balances[unit] == db.balances[unit] {
      } else {
        WrittenIsDerived(db, step, unit);
        DerivedReconciles(after.invoices, after.payments, unit);
      }
    }
  }

  /** A step leaves a stored row alone or writes what the source rows then give. */
  lemma WrittenIsDerived(db: Db, step: Step, unit: Id)
    requires unit in Apply(db, step).balances
    ensures var after := Apply(db, step);
            (unit in db.balances && after.balances[unit] == db.balances[unit])
            || after.balances[unit] == Derive(after.invoices, after.payments, unit)
  {
    hide Derive, ApplyToInvoice, Effective, KeepShares, Referenced, AddInvoices, ShareRows, Calculable, NumberAll,
         ByUnit, NumberedInvoices;
  }

  /** The client's reconciliation test accepts every row the server ever stores. */
  lemma {:induction false} RowsReconcile(steps: seq<Step>)
    ensures AllReconcile(Run(EMPTY_DB, steps))
  {
    if steps != [] {
      RowsReconcile(steps[..|steps| - 1]);
      StepReconciles(Run(EMPTY_DB, steps[..|steps| - 1]), steps[|steps| - 1]);
    }
  }

  // ----- A sequence of payments

  function Least(a: int, b: int): int {
    if a <= b then a else b
  }

  function Most(a: int, b: int): int {
    if a <= b then b else a
  }

  /** What `paid` comes to: everything offered, capped at the effective amount. */
  function PaidAfter(effective: int, paid: int, offered: int): int {
    Most(paid, Least(paid + offered, effective))
  }

  /** The invoice after payments worth `offered` in all. */
  function Settled(inv: Invoice, offered: int): Invoice {
    var paid := PaidAfter(Effective(inv), inv.paid, offered);
    inv.(paid := paid, status := if paid >= Effective(inv) then Paid else Partial)
  }

  function ManualPayments(invoice: Id, amounts: seq<int>): seq<Step> {
    seq(|amounts|, k requires 0 <= k < |amounts| => DoRecordManual(invoice, amounts[k]))
  }

  ghost predicate AllPositive(amounts: seq<int>) {
    forall k :: 0 <= k < |amounts| ==> amounts[k] > 0
  }

  lemma {:induction false} AmountsPositive(amounts: seq<int>)
    requires AllPositive(amounts)
    ensures AmountSum(amounts) >= |amounts|
  {
    if amounts != [] {
      AmountsPositive(amounts[..|amounts| - 1]);
    }
  }

  lemma OneMorePayment(inv: Invoice, offered: int, amount: int)
    requires inv.paid >= 0 && offered > 0 && amount > 0
    ensures var was := Settled(inv, offered);
            var app := ApplyToInvoice(Effective(was), was.paid, amount);
            was.(paid := was.paid + app.applied, status := app.status) == Settled(inv, offered + amount)
  {
  }

  /** The invoice stands as `booked`, verified payments of its unit grew by `amount`, the unit's stored
      row is up to date, and nothing else changed. */
  ghost predicate Booked(db: Db, after: Db, invoice: Id, booked: Invoice, amount: int) {
    && after.periods == db.periods
    && after.invoices == db.invoices[invoice := booked]
    && (forall p :: p in after.payments ==> p < after.nextId)
    && (forall u :: VerifiedSum(after.payments, u) == VerifiedSum(db.payments, u) + if u == booked.unit then amount else 0)
    && after.balances == db.balances[booked.unit := Derive(after.invoices, after.payments, booked.unit)]
  }

  lemma OnePayment(db: Db, invoice: Id, amount: int)
    requires invoice in db.invoices && db.invoices[invoice].status != Cancelled && amount > 0
    requires forall p :: p in db.payments ==> p < db.nextId
    ensures var inv := db.invoices[invoice];
            var app := ApplyToInvoice(Effective(inv), inv.paid, amount);
            Booked(db, Apply(db, DoRecordManual(invoice, amount)), invoice,
                   inv.(paid := inv.paid + app.applied, status := app.status), amount)
  {
    hide Derive, ApplyToInvoice, Effective, VerifiedSum;
    var p := Payment(db.invoices[invoice].unit, invoice, false, amount, Verified);
    VerifiedGrows(db.payments, db.nextId, p);
    var after := Apply(db, DoRecordManual(invoice, amount));
    assert after.payments == db.payments[db.nextId := p] && after.nextId == db.nextId + 1;
    hide Total, VerifiedAmounts;
  }

  lemma VerifiedGrows(payments: map<Id, Payment>, id: Id, p: Payment)
    requires id !in payments && p.status == Verified
    ensures forall u :: VerifiedSum(payments[id := p], u) == VerifiedSum(payments, u) + if u == p.unit then p.amount else 0
  {
    forall u
      ensures VerifiedSum(payments[id := p], u) == VerifiedSum(payments, u) + if u == p.unit then p.amount else 0
    {
      TotalInsert(payments, VerifiedAmounts(u), id, p);
    }
  }

  lemma BookedTwice(db: Db, between: Db, after: Db, invoice: Id, first: Invoice, second: Invoice, a: int, b: int)
    requires first.unit == second.unit
    requires Booked(db, between, invoice, first, a) && Booked(between, after, invoice, second, b)
    ensures Booked(db, after, invoice, second, a + b)
  {
    hide Derive, VerifiedSum;
  }

  /** The closed form: any sequence of payments on an invoice leaves it paid by the sum of the amounts
      up to its effective amount. */
  lemma {:induction false} PaymentsClosedForm(db: Db, invoice: Id, amounts: seq<int>)
    requires invoice in db.invoices && db.invoices[invoice].status != Cancelled && db.invoices[invoice].paid >= 0
    requires forall p :: p in db.payments ==> p < db.nextId
    requires amounts != [] && AllPositive(amounts)
    ensures Booked(db, Run(db, ManualPayments(invoice, amounts)), invoice,
                   Settled(db.invoices[invoice], AmountSum(amounts)), AmountSum(amounts))
  {
    hide Booked, ApplyToInvoice, Effective, Apply;
    var last := |amounts| - 1;
    var steps := ManualPayments(invoice, amounts);
    var inv := db.invoices[invoice];
    assert steps[..last] == ManualPayments(invoice, amounts[..last]);
    var before := Run(db, steps[..last]);
    assert Run(db, steps) == Apply(before, DoRecordManual(invoice, amounts[last]));
    if last == 0 {
      FirstPayment(inv, amounts[0]);
      OnePayment(db, invoice, amounts[0]);
    } else {
      var offered := AmountSum(amounts[..last]);
      PaymentsClosedForm(db, invoice, amounts[..last]);
      AmountsPositive(amounts[..last]);
      OneMorePayment(inv, offered, amounts[last]);
      hide AmountSum, Run, ManualPayments, AllPositive;
      BookedInvoice(db, before, invoice, Settled(inv, offered), offered);
      OnePayment(before, invoice, amounts[last]);
      BookedTwice(db, before, Apply(before, DoRecordManual(invoice, amounts[last])), invoice, Settled(inv, offered),
                  Settled(inv, offered + amounts[last]), offered, amounts[last]);
    }
  }

  lemma BookedInvoice(db: Db, after: Db, invoice: Id, booked: Invoice, amount: int)
    requires Booked(db, after, invoice, booked, amount)
    ensures invoice in after.invoices && after.invoices[invoice] == booked
    ensures forall p :: p in after.payments ==> p < after.nextId
  {
  }

  lemma FirstPayment(inv: Invoice, amount: int)
    requires inv.paid >= 0 && amount > 0
    ensures var app := ApplyToInvoice(Effective(inv), inv.paid, amount);
            inv.(paid := inv.paid + app.applied, status := app.status) == Settled(inv, amount)
  {
  }

  /** Order and splitting do not matter: equal sums lead to the same invoices and the same balances. */
  lemma {:induction false} OrderAndSplittingIrrelevant(db: Db, invoice: Id, amounts: seq<int>, others: seq<int>)
    requires invoice in db.invoices && db.invoices[invoice].status != Cancelled && db.invoices[invoice].paid >= 0
    requires forall p :: p in db.payments ==> p < db.nextId
    requires amounts != [] && AllPositive(amounts) && others != [] && AllPositive(others)
    requires AmountSum(amounts) == AmountSum(others)
    ensures var a := Run(db, ManualPayments(invoice, amounts));
            var b := Run(db, ManualPayments(invoice, others));
            a.invoices == b.invoices && a.balances == b.balances && a.periods == b.periods
  {
    hide Run, InvoiceSum, VerifiedSum, Settled, ManualPayments;
    PaymentsClosedForm(db, invoice, amounts);
    PaymentsClosedForm(db, invoice, others);
  }

  /** On a fresh invoice: paid is the sum of the payments, at most the effective amount. */
  lemma PaidFromZero(inv: Invoice, offered: int)
    requires inv.paid == 0 && offered > 0
    ensures Settled(inv, offered).paid == Least(offered, Most(Effective(inv), 0))
    ensures Settled(inv, offered).status == if offered >= Effective(inv) then Paid else Partial
  {
  }
}
