/** What each call on invoices and payments does to the rows, and when it is refused, said of the rows themselves: payment
    states, what is owed after a note, a cancellation and a payment. */
module LedgerAnswers {
  import opened Wrappers
  import opened MapSum
  import opened Engine
  import opened Charges
  import opened Ledger
  import opened LedgerLifecycle
  import opened LedgerBalance
  import opened LedgerCache
  import opened LedgerMoney

  /** No row but this one differs. */
  ghost predicate OnlyRow<R(!new)>(a: map<Id, R>, b: map<Id, R>, id: Id) {
    id in a && b.Keys == a.Keys && forall other :: other in a && other != id ==> b[other] == a[other]
  }

  /** One row more, under a fresh identifier. */
  ghost predicate OneMore<R(!new)>(a: map<Id, R>, b: map<Id, R>, id: Id) {
    id !in a && b.Keys == a.Keys + {id} && forall other :: other in a ==> b[other] == a[other]
  }

  // ----- Payments

  /** A payment of a positive amount is added as verified and not by gateway; the invoice is paid by it up to its
      effective amount, the rest of the invoice and every other row of the invoices stay. */
  lemma ManualEffect(db: Db, invoice: Id, amount: int)
    requires FreshIds(db) && RecordManual(db, invoice, amount).Done?
    ensures var after := RecordManual(db, invoice, amount).db;
            && OneMore(db.payments, after.payments, db.nextId) && after.nextId == db.nextId + 1
            && var p := after.payments[db.nextId];
            && p.status == Verified && !p.gateway && p.amount == amount && p.invoice == invoice
            && p.unit == after.invoices[invoice].unit
            && OnlyRow(db.invoices, after.invoices, invoice) && Paying(db.invoices[invoice], after.invoices[invoice], amount)
            && after.periods == db.periods
  {
    hide Derive, NoteSum;
    PayingIs(db.invoices[invoice], amount);
  }

  /** The invoice after a payment: it has taken in as much as it asked for, and is settled when that is all. */
  predicate Paying(inv: Invoice, after: Invoice, amount: int) {
    && after == inv.(paid := after.paid, status := after.status)
    && after.paid - inv.paid == Least(amount, AtLeastZero(inv.final + NoteSum(inv.notes, true) - NoteSum(inv.notes, false) - inv.paid))
    && after.status == if after.paid >= inv.final + NoteSum(inv.notes, true) - NoteSum(inv.notes, false) then Paid
                       else if after.paid > 0 then Partial else Unpaid
  }

  lemma PayingIs(inv: Invoice, amount: int)
    ensures var app := ApplyToInvoice(Effective(inv), inv.paid, amount);
            Paying(inv, inv.(paid := inv.paid + app.applied, status := app.status), amount)
  {
    hide NoteSum;
  }

  /** Opening a gateway payment adds a pending one of the requested amount, or of all that is outstanding, and changes
      nothing else. */
  lemma GatewayEffect(db: Db, invoice: Id, requested: Option<int>, gatewayUp: bool)
    requires FreshIds(db) && StartGateway(db, invoice, requested, gatewayUp).Done?
    ensures var after := StartGateway(db, invoice, requested, gatewayUp).db;
            && OneMore(db.payments, after.payments, db.nextId) && after.nextId == db.nextId + 1
            && var p := after.payments[db.nextId];
            && p.status == Recorded && p.gateway && p.invoice == invoice && p.unit == db.invoices[invoice].unit
            && p.amount > 0
            && (requested.Some? ==> p.amount == requested.value)
            && (requested.None? ==> p.amount == Effective(db.invoices[invoice]) - db.invoices[invoice].paid)
            && after.invoices == db.invoices && after.periods == db.periods && after.balances == db.balances
  {
    hide NoteSum;
  }

  /** A callback of a pending gateway payment that the gateway does not confirm fails the payment and changes nothing
      else in any table. */
  lemma FailedEffect(db: Db, payment: Id)
    requires payment in db.payments && db.payments[payment].status == Recorded && db.payments[payment].gateway
    ensures HandleCallback(db, payment, false).Done?
    ensures var after := HandleCallback(db, payment, false).db;
            && OnlyRow(db.payments, after.payments, payment)
            && after.payments[payment].status == Failed && after.payments[payment].amount == db.payments[payment].amount
            && after.payments[payment].invoice == db.payments[payment].invoice && after.payments[payment].gateway
            && after.payments[payment].unit == db.payments[payment].unit
            && after.invoices == db.invoices && after.periods == db.periods && after.balances == db.balances
            && after.nextId == db.nextId
  {
  }

  /** One that it does confirm verifies the payment and pays the invoice by the payment's own amount. */
  lemma ConfirmedEffect(db: Db, payment: Id)
    requires Confirms(db, payment, true)
    ensures HandleCallback(db, payment, true).Done?
    ensures var after := HandleCallback(db, payment, true).db;
            var p := db.payments[payment];
            && OnlyRow(db.payments, after.payments, payment) && after.payments[payment] == p.(status := Verified)
            && OnlyRow(db.invoices, after.invoices, p.invoice)
            && Paying(db.invoices[p.invoice], after.invoices[p.invoice], p.amount)
            && after.periods == db.periods && after.nextId == db.nextId
  {
    hide Derive, NoteSum;
    PayingIs(db.invoices[db.payments[payment].invoice], db.payments[payment].amount);
  }

  /** Any other payment is left alone by its callback, whatever the gateway says. */
  lemma ReplayedEffect(db: Db, payment: Id, verified: bool)
    requires payment in db.payments && (db.payments[payment].status != Recorded || !db.payments[payment].gateway)
    ensures HandleCallback(db, payment, verified) == Done(db)
  {
  }

  /** From opening to confirmation: a payment of the requested amount books that amount, whatever was asked for by the
      invoice, and what the invoice does not ask for stays with the unit. */
  lemma RequestedAmountIsBooked(db: Db, invoice: Id, requested: int)
    requires Lifecycle(db) && invoice in db.invoices && db.invoices[invoice].status != Cancelled && requested > 0
    ensures var started := Apply(db, DoStartGateway(invoice, Some(requested), true));
            var after := Apply(started, DoCallback(db.nextId, true));
            && OnlyRow(db.invoices, after.invoices, invoice)
            && Paying(db.invoices[invoice], after.invoices[invoice], requested)
            && VerifiedSum(after.payments, db.invoices[invoice].unit)
               == VerifiedSum(db.payments, db.invoices[invoice].unit) + requested
  {
    hide NoteSum, VerifiedSum, Paying, OnlyRow, Derive;
    assert FreshIds(db) && db.nextId !in db.payments;
    hide Lifecycle;
    var p := Payment(db.invoices[invoice].unit, invoice, true, requested, Recorded);
    var started := Apply(db, DoStartGateway(invoice, Some(requested), true));
    assert started.payments == db.payments[db.nextId := p] && started.invoices == db.invoices;
    PaymentInserted(db.payments, db.nextId, p, p.unit);
    ConfirmedEffect(started, db.nextId);
    PaymentReplaced(started.payments, db.nextId, p.(status := Verified), p.unit);
  }

  // ----- Notes and cancellations

  /** The balance formula moves by what one changed invoice stands for. */
  lemma PositionOfUpdate(invoices: map<Id, Invoice>, id: Id, inv: Invoice, unit: Id)
    requires id in invoices && Composed(invoices[id]) && Composed(inv)
    ensures Position(invoices[id := inv], unit)
         == Position(invoices, unit) - Due(unit, invoices[id]) - SettledNotes(unit, invoices[id])
            + Due(unit, inv) + SettledNotes(unit, inv)
  {
    hide Position, Due, SettledNotes, Composed;
    PositionRemove(invoices, unit, id);
    PositionRemove(invoices[id := inv], unit, id);
    assert invoices[id := inv] - {id} == invoices - {id};
  }

  function Noted(inv: Invoice, note: Note): Invoice {
    inv.(notes := inv.notes + [note], rows := inv.rows + [AdjustmentRow(note.amount)])
  }

  lemma NotedOwes(inv: Invoice, note: Note)
    ensures NoteSum(inv.notes + [note], true) == NoteSum(inv.notes, true) + if note.debit then note.amount else 0
    ensures NoteSum(inv.notes + [note], false) == NoteSum(inv.notes, false) + if note.debit then 0 else note.amount
  {
    assert (inv.notes + [note])[..|inv.notes|] == inv.notes;
  }

  lemma NotedInvoice(inv: Invoice, note: Note, unit: Id)
    ensures Effective(Noted(inv, note)) == Effective(inv) + if note.debit then note.amount else -note.amount
    ensures ChargeSum(Noted(inv, note).rows) == ChargeSum(inv.rows) && RowSum(Noted(inv, note).rows) == RowSum(inv.rows) + note.amount
    ensures Due(unit, Noted(inv, note)) + SettledNotes(unit, Noted(inv, note)) - Due(unit, inv) - SettledNotes(unit, inv)
         == if unit != inv.unit || inv.status == Cancelled then 0 else if note.debit then note.amount else -note.amount
  {
    hide NoteSum, ChargeSum, RowSum;
    ChargeSumAppend(inv.rows, AdjustmentRow(note.amount));
    RowSumAppend(inv.rows, AdjustmentRow(note.amount));
    NotedOwes(inv, note);
  }

  /** An accepted note changes what is owed by its amount, up for a debit and down for a credit, and the unit's balance
      formula by as much. It shows as a row of its own; nothing else of the invoice and no other invoice, payment or
      period changes. */
  lemma NoteEffect(db: Db, invoice: Id, note: Note, reasonGiven: bool, unit: Id)
    requires AllComposed(db) && AddAdjustment(db, invoice, note, reasonGiven).Done?
    ensures var after := AddAdjustment(db, invoice, note, reasonGiven).db;
            && OnlyRow(db.invoices, after.invoices, invoice)
            && after.payments == db.payments && after.periods == db.periods && after.nextId == db.nextId
            && var was, inv := db.invoices[invoice], after.invoices[invoice];
            && (note.debit ==> Effective(inv) == Effective(was) + note.amount)
            && (!note.debit ==> Effective(inv) == Effective(was) - note.amount)
            && note.amount > 0 && inv.paid == was.paid && inv.status == was.status != Cancelled && SameIdentity(was, inv)
            && ChargeSum(inv.rows) == ChargeSum(was.rows) && RowSum(inv.rows) == RowSum(was.rows) + note.amount
            && Position(after.invoices, unit)
               == Position(db.invoices, unit)
                  + if unit != was.unit then 0 else if note.debit then note.amount else -note.amount
  {
    hide Position, Derive, ChargeSum, RowSum, Effective, Due, SettledNotes;
    var was := db.invoices[invoice];
    NotedInvoice(was, note, unit);
    PositionOfUpdate(db.invoices, invoice, Noted(was, note), unit);
  }

  /** A cancellation takes off the unit's balance formula exactly what the invoice still asked for. The invoice keeps
      everything but its status, and no other row but the unit's balance changes. */
  lemma CancelEffect(db: Db, invoice: Id, unit: Id)
    requires AllComposed(db) && CancelInvoice(db, invoice).Done?
    ensures var after := CancelInvoice(db, invoice).db;
            && OnlyRow(db.invoices, after.invoices, invoice)
            && after.payments == db.payments && after.periods == db.periods && after.nextId == db.nextId
            && var was, inv := db.invoices[invoice], after.invoices[invoice];
            && inv.status == Cancelled && inv == was.(status := inv.status)
            && (was.status == Unpaid || was.status == Partial || was.status == Expired)
            && Position(after.invoices, unit)
               == Position(db.invoices, unit) - if unit == was.unit then Effective(was) - was.paid else 0
  {
    hide Position, Derive, Effective, NoteSum;
    PositionOfUpdate(db.invoices, invoice, db.invoices[invoice].(status := Cancelled), unit);
  }

  // ----- What one invoice stands for in a balance row

  /** One more invoice of the unit adds its amounts to the columns of the unit's balance while it is open, its notes until it
      is cancelled, and nothing after that or for another unit. */
  lemma OneMoreInvoice(invoices: map<Id, Invoice>, payments: map<Id, Payment>, id: Id, inv: Invoice, unit: Id)
    requires id !in invoices
    ensures var before, after := Derive(invoices, payments, unit), Derive(invoices[id := inv], payments, unit);
            var counts := inv.unit == unit && inv.status != Cancelled;
            var open := counts && (inv.status == Unpaid || inv.status == Partial || inv.status == Expired);
            var debits, credits := if counts then NoteSum(inv.notes, true) else 0, if counts then NoteSum(inv.notes, false) else 0;
            && after.priorDebt == before.priorDebt + debits + (if open then inv.prior else 0)
            && after.current == before.current + (if open then inv.base else 0)
            && after.lateFees == before.lateFees + (if open then inv.late else 0)
            && after.credit == before.credit + credits + (if open then inv.credit else 0)
            && after.paid == before.paid + (if open then inv.paid else 0)
  {
    hide InvoiceSum, VerifiedSum, NoteSum, AtLeastZero;
    InsertColumn(invoices, id, inv, OpenPrior, unit);
    InsertColumn(invoices, id, inv, OpenBase, unit);
    InsertColumn(invoices, id, inv, OpenLate, unit);
    InsertColumn(invoices, id, inv, OpenPaid, unit);
    InsertColumn(invoices, id, inv, OpenCredit, unit);
    InsertColumn(invoices, id, inv, DebitNotes, unit);
    InsertColumn(invoices, id, inv, CreditNotes, unit);
  }

  // ----- When a call is refused, and why

  /** The answer of every call on an invoice or payment, in the order in which the source looks. */
  lemma RefusedExactly(db: Db, step: Step)
    requires PaymentsPoint(db)
    ensures match step
            case DoRecordManual(invoice, amount) =>
              && (Call(db, step) == Refused(BadRequest) <==> amount <= 0)
              && (Call(db, step) == Refused(NotFound) <==> amount > 0 && invoice !in db.invoices)
              && (Call(db, step) == Refused(Conflict)
                  <==> amount > 0 && invoice in db.invoices && db.invoices[invoice].status == Cancelled)
              && (Call(db, step).Done? <==> amount > 0 && invoice in db.invoices && db.invoices[invoice].status != Cancelled)
            case DoStartGateway(invoice, requested, gatewayUp) =>
              && (Call(db, step) == Refused(NotFound) <==> invoice !in db.invoices)
              && (invoice in db.invoices ==>
                    var inv := db.invoices[invoice];
                    var positive := if requested.Some? then requested.value > 0 else Effective(inv) > inv.paid;
                    && (Call(db, step).Done? <==> inv.status != Cancelled && positive && gatewayUp)
                    && (Call(db, step) == Refused(GatewayDown) <==> inv.status != Cancelled && positive && !gatewayUp)
                    && (Call(db, step) == Refused(BadRequest) <==> inv.status != Cancelled && requested.Some? && !positive)
                    && (Call(db, step) == Refused(Conflict) <==> inv.status == Cancelled || (requested.None? && !positive)))
            case DoCallback(payment, _) =>
              && (Call(db, step) == Refused(NotFound) <==> payment !in db.payments)
              && (Call(db, step).Done? <==> payment in db.payments)
            case DoCancel(invoice) =>
              && (Call(db, step) == Refused(NotFound) <==> invoice !in db.invoices)
              && (Call(db, step) == Refused(Conflict)
                  <==> invoice in db.invoices && (db.invoices[invoice].status == Paid || db.invoices[invoice].status == Cancelled))
              && (Call(db, step).Done? || Call(db, step) == Refused(NotFound) || Call(db, step) == Refused(Conflict))
            case DoAdjust(invoice, note, reasonGiven) =>
              && (Call(db, step) == Refused(NotFound) <==> invoice !in db.invoices)
              && (Call(db, step) == Refused(Conflict) <==> invoice in db.invoices && db.invoices[invoice].status == Cancelled)
              && (Call(db, step).Done?
                  <==> invoice in db.invoices && db.invoices[invoice].status != Cancelled && note.amount > 0 && reasonGiven)
              && (Call(db, step).Done? || Call(db, step).why in {NotFound, Conflict, BadRequest})
            case _ => true
  {
    hide Derive, NoteSum, CalculatePeriod, Issue, Reopen, EditItems, CreatePeriod, Close;
  }
}
