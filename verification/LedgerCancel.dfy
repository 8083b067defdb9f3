/** What a cancellation is worth when every call is one step: exactly which steps bring a cancelled invoice back.
    For calls that overlap see PaymentRace. */
module LedgerCancel {
  import opened Wrappers
  import opened Engine
  import opened Charges
  import opened Ledger
  import opened LedgerLifecycle
  import opened LedgerCache

  /** A confirmed gateway payment of this invoice. */
  ghost predicate Revives(db: Db, step: Step, id: Id) {
    step.DoCallback? && Confirms(db, step.payment, step.verified) && db.payments[step.payment].invoice == id
  }

  /** The invoice exists no more or is cancelled. */
  ghost predicate Withdrawn(db: Db, id: Id) {
    id < db.nextId && (id in db.invoices ==> db.invoices[id].status == Cancelled)
  }

  lemma InvoiceStepWithdrawn(db: Db, step: Step, id: Id)
    requires Withdrawn(db, id) && OnInvoicesOnly(step)
    ensures Withdrawn(Apply(db, step), id) <==> !Revives(db, step, id)
  {
    hide Derive, Effective;
  }

  lemma CalculateWithdrawn(db: Db, period: Id, units: seq<Unit>, lateFee: int -> int, id: Id)
    requires FreshIds(db) && Withdrawn(db, id) && CalculatePeriod(db, period, units, lateFee).Done?
    ensures Withdrawn(CalculatePeriod(db, period, units, lateFee).db, id)
  {
    CalculateIs(db, period, units, lateFee);
    hide CalculatePeriod, DraftFor, Composed;
  }

  lemma IssueWithdrawn(db: Db, period: Id, year: int, id: Id)
    requires AllPlaced(db) && Withdrawn(db, id) && Issue(db, period, year).Done?
    ensures Withdrawn(Issue(db, period, year).db, id)
  {
    var order := IssueIs(db, period, year);
    var after := Issue(db, period, year).db;
    assert after.invoices.Keys == db.invoices.Keys && after.nextId == db.nextId;
    hide Issue;
    if id in db.invoices {
      IssuedInvoice(db, after, period, year, order, id);
    }
  }

  /** A withdrawn invoice stays so under every step if and only if the step is not a confirmed payment of it. */
  lemma WithdrawnStepIff(db: Db, step: Step, id: Id)
    requires Lifecycle(db) && WellFormed(step) && Withdrawn(db, id)
    ensures Withdrawn(Apply(db, step), id) <==> !Revives(db, step, id)
  {
    assert FreshIds(db) && AllPlaced(db);
    hide Lifecycle, FreshIds, AllPlaced, DistinctUnits;
    if Call(db, step).Done? {
      if OnInvoicesOnly(step) {
        hide Apply, Withdrawn, Revives;
        InvoiceStepWithdrawn(db, step, id);
      } else {
        hide CalculatePeriod, Issue, KeepShares;
        match step
        case DoCalculate(period, units, lateFee) => CalculateWithdrawn(db, period, units, lateFee, id);
        case DoIssue(period, year) => IssueWithdrawn(db, period, year, id);
        case _ =>
      }
    }
  }

  /** In particular for a cancelled invoice: whatever other call is made, it is cancelled for as long as it exists. */
  lemma CancelledStaysIff(db: Db, step: Step, id: Id)
    requires Lifecycle(db) && WellFormed(step) && id in db.invoices && db.invoices[id].status == Cancelled
    ensures var after := Apply(db, step);
            (id in after.invoices ==> after.invoices[id].status == Cancelled) <==> !Revives(db, step, id)
  {
    assert FreshIds(db);
    hide FreshIds, AllPlaced;
    WithdrawnStepIff(db, step, id);
    NextIdGrows(db, step);
    hide Lifecycle, Apply, Revives;
  }

  lemma NextIdGrows(db: Db, step: Step)
    ensures Apply(db, step).nextId >= db.nextId
  {
    hide Derive, ApplyToInvoice, Effective, KeepShares, Referenced, AddInvoices, ShareRows, Calculable, FirstError, NumberAll,
         ByUnit, NumberedInvoices;
  }

  ghost predicate AlwaysWithdrawn(db: Db, steps: seq<Step>, id: Id) {
    Withdrawn(Run(db, steps), id) && (steps == [] || AlwaysWithdrawn(db, steps[..|steps| - 1], id))
  }

  ghost predicate NeverRevived(db: Db, steps: seq<Step>, id: Id) {
    steps == []
    || (NeverRevived(db, steps[..|steps| - 1], id) && !Revives(Run(db, steps[..|steps| - 1]), steps[|steps| - 1], id))
  }

  /** Over every run a cancellation lasts if and only if no payment of the invoice is confirmed after it. */
  lemma {:induction false} CancellationLastsIff(db: Db, steps: seq<Step>, id: Id)
    requires Lifecycle(db) && Withdrawn(db, id) && forall i :: 0 <= i < |steps| ==> WellFormed(steps[i])
    ensures AlwaysWithdrawn(db, steps, id) <==> NeverRevived(db, steps, id)
  {
    if steps != [] {
      var before := steps[..|steps| - 1];
      CancellationLastsIff(db, before, id);
      RunKeeps(db, before);
      hide Lifecycle, Withdrawn, Apply, WellFormed, Revives;
      if AlwaysWithdrawn(db, before, id) {
        WithdrawnStepIff(Run(db, before), steps[|steps| - 1], id);
      }
    }
  }

  ghost predicate StandsAt(db: Db, invoice: Id, status: InvoiceStatus, paid: int) {
    invoice in db.invoices && db.invoices[invoice].status == status && db.invoices[invoice].paid == paid
  }

  /** So a manager's cancellation does not last: with a payment under way at the gateway, cancelling and then
      confirming ends with the invoice paid in full, from any state and for any invoice that can be cancelled
      and still asks for money. */
  lemma CancellationUndone(db: Db, invoice: Id)
    requires Lifecycle(db) && invoice in db.invoices && IsOpen(db.invoices[invoice].status)
    requires Effective(db.invoices[invoice]) > db.invoices[invoice].paid
    ensures var started := Apply(db, DoStartGateway(invoice, None, true));
            var cancelled := Apply(started, DoCancel(invoice));
            var after := Apply(cancelled, DoCallback(db.nextId, true));
            && StandsAt(cancelled, invoice, Cancelled, db.invoices[invoice].paid)
            && StandsAt(after, invoice, Paid, Effective(db.invoices[invoice]))
  {
    hide Derive, Lifecycle;
    var inv := db.invoices[invoice];
    var started := Apply(db, DoStartGateway(invoice, None, true));
    assert started.invoices == db.invoices;
    assert started.payments == db.payments[db.nextId := Payment(inv.unit, invoice, true, Effective(inv) - inv.paid, Recorded)];
    var cancelled := Apply(started, DoCancel(invoice));
    assert cancelled.invoices == db.invoices[invoice := inv.(status := Cancelled)];
    assert cancelled.payments == started.payments;
    hide StartGateway, CancelInvoice;
    var after := Apply(cancelled, DoCallback(db.nextId, true));
    assert Effective(cancelled.invoices[invoice]) == Effective(inv);
    hide Effective;
  }
}
