/** What whole runs make of a payment, of what an invoice owes, and of a closed period. */
module LedgerHistory {
  import opened Wrappers
  import opened MapSum
  import opened Engine
  import opened Charges
  import opened Ledger
  import opened LedgerLifecycle
  import opened LedgerAnswers
  import LedgerCancel

  // ----- Payments

  /** What the gateway answered at the payment's first callback. */
  function FirstAnswer(steps: seq<Step>, payment: Id): Option<bool> {
    if steps == [] then None
    else
      var last := steps[|steps| - 1];
      var before := FirstAnswer(steps[..|steps| - 1], payment);
      if before.Some? then before
      else if last.DoCallback? && last.payment == payment then Some(last.verified) else None
  }

  lemma PaymentStep(db: Db, step: Step, payment: Id)
    requires Lifecycle(db) && WellFormed(step) && payment in db.payments
    ensures var p, after := db.payments[payment], Apply(db, step).payments;
            && payment in after
            && after[payment] == p.(status :=
                 if step.DoCallback? && step.payment == payment && p.status == Recorded && p.gateway then
                   if step.verified then Verified else Failed
                 else p.status)
  {
    assert FreshIds(db) && PaymentsPoint(db);
    hide Lifecycle, Derive, ApplyToInvoice, Effective, FreshIds;
    assert payment != db.nextId by {
      assert payment < db.nextId;
    }
  }

  /** Over every run a payment keeps its unit, invoice and amount, and its first callback decides for good: a gateway
      payment is pending until then, and verified or failed ever after; any other payment never changes. */
  lemma {:induction false} FirstCallbackDecides(db: Db, steps: seq<Step>, payment: Id)
    requires Lifecycle(db) && payment in db.payments && forall i :: 0 <= i < |steps| ==> WellFormed(steps[i])
    ensures var p, after := db.payments[payment], Run(db, steps).payments;
            && payment in after
            && (p.status == Recorded && p.gateway ==>
                  after[payment] == p.(status := match FirstAnswer(steps, payment)
                                                 case None => Recorded
                                                 case Some(verified) => if verified then Verified else Failed))
            && (p.status != Recorded || !p.gateway ==> after[payment] == p)
  {
    if steps != [] {
      var before := steps[..|steps| - 1];
      FirstCallbackDecides(db, before, payment);
      RunKeeps(db, before);
      PaymentStep(Run(db, before), steps[|steps| - 1], payment);
      hide Lifecycle, Apply;
    }
  }

  /** A payment that failed stays failed, and no later callback of it changes any table. */
  lemma FailedForGood(db: Db, steps: seq<Step>, payment: Id, verified: bool)
    requires Lifecycle(db) && forall i :: 0 <= i < |steps| ==> WellFormed(steps[i])
    requires payment in db.payments && db.payments[payment].status == Recorded && db.payments[payment].gateway
    ensures var failed := Apply(db, DoCallback(payment, false));
            var after := Run(failed, steps);
            && payment in after.payments && after.payments[payment] == db.payments[payment].(status := Failed)
            && Apply(after, DoCallback(payment, verified)) == after
  {
    var failed := Apply(db, DoCallback(payment, false));
    PaymentStep(db, DoCallback(payment, false), payment);
    StepKeeps(db, DoCallback(payment, false));
    FirstCallbackDecides(failed, steps, payment);
    hide Lifecycle, Run;
  }

  // ----- What an invoice owes

  /** What the step adds to what the invoice owes: the amount of an accepted note, up or down. */
  ghost function NotedBy(db: Db, step: Step, invoice: Id): int {
    if step.DoAdjust? && step.invoice == invoice && Call(db, step).Done? then
      if step.note.debit then step.note.amount else -step.note.amount
    else 0
  }

  ghost function NotedOver(db: Db, steps: seq<Step>, invoice: Id): int {
    if steps == [] then 0
    else
      NotedOver(db, steps[..|steps| - 1], invoice) + NotedBy(Run(db, steps[..|steps| - 1]), steps[|steps| - 1], invoice)
  }

  /** The invoice has not been dropped and owes as much more as the notes say. */
  ghost predicate Owes(db: Db, after: Db, invoice: Id, more: int) {
    invoice in db.invoices && invoice in after.invoices
    && after.invoices[invoice].final == db.invoices[invoice].final
    && Effective(after.invoices[invoice]) == Effective(db.invoices[invoice]) + more
  }

  lemma NoteOnInvoices(db: Db, step: Step, invoice: Id)
    requires OnInvoicesOnly(step) && invoice in db.invoices
    ensures Owes(db, Apply(db, step), invoice, NotedBy(db, step, invoice))
  {
    hide Derive, ApplyToInvoice, NoteSum, Call, Recompute;
    if Call(db, step).Done? {
      TouchedOnly(db, step, invoice);
      if step.DoAdjust? {
        NotedOwes(db.invoices[invoice], step.note);
      }
    }
  }

  /** A step on invoices changes paid amount and status of one of them, or adds the note. */
  lemma TouchedOnly(db: Db, step: Step, invoice: Id)
    requires OnInvoicesOnly(step) && invoice in db.invoices && Call(db, step).Done?
    ensures invoice in Call(db, step).db.invoices
    ensures var was, inv := db.invoices[invoice], Call(db, step).db.invoices[invoice];
            && inv.final == was.final
            && inv.notes == if step.DoAdjust? && step.invoice == invoice then was.notes + [step.note] else was.notes
  {
    hide Derive, ApplyToInvoice, Effective;
  }

  lemma NoteOnPeriods(db: Db, step: Step, invoice: Id)
    requires FreshIds(db) && AllPlaced(db) && !OnInvoicesOnly(step)
    requires invoice in db.invoices && invoice in Apply(db, step).invoices
    ensures Owes(db, Apply(db, step), invoice, 0)
  {
    hide FreshIds, AllPlaced, Effective, CalculatePeriod, Issue, IssuedAs;
    if Call(db, step).Done? {
      match step
      case DoCalculate(period, units, lateFee) =>
        CalculateIs(db, period, units, lateFee);
        OldInvoice(db, CalculatePeriod(db, period, units, lateFee).db, period, units, invoice);
      case DoIssue(period, year) =>
        var order := IssueIs(db, period, year);
        IssuedInvoice(db, Issue(db, period, year).db, period, year, order, invoice);
        SameAmounts(db.invoices[invoice], Issue(db, period, year).db.invoices[invoice]);
      case _ =>
    }
    hide Recalculated;
  }

  lemma OldInvoice(db: Db, after: Db, period: Id, units: seq<Unit>, invoice: Id)
    requires FreshIds(db) && Recalculated(db, after, period, units) && invoice in db.invoices && invoice in after.invoices
    ensures after.invoices[invoice] == db.invoices[invoice] && db.invoices[invoice].period != period
  {
  }

  lemma SameAmounts(a: Invoice, b: Invoice)
    requires b == a.(number := b.number)
    ensures b.final == a.final && Effective(b) == Effective(a)
  {
  }

  lemma NoteStep(db: Db, step: Step, invoice: Id)
    requires Lifecycle(db) && invoice in db.invoices && invoice in Apply(db, step).invoices
    ensures Owes(db, Apply(db, step), invoice, NotedBy(db, step, invoice))
  {
    hide Apply, Owes, FreshIds, AllPlaced;
    if OnInvoicesOnly(step) {
      NoteOnInvoices(db, step, invoice);
    } else {
      NoteOnPeriods(db, step, invoice);
    }
  }

  /** A dropped draft does not come back: its identifier is not used again. */
  lemma GoneStaysGone(db: Db, step: Step, invoice: Id)
    requires FreshIds(db) && invoice !in db.invoices && invoice < db.nextId
    ensures invoice !in Apply(db, step).invoices
  {
    hide FreshIds, CalculatePeriod, Issue, Derive, Effective, ApplyToInvoice, DraftFor, Composed, NumberedInOrder, NumberedInvoices;
    if Call(db, step).Done? {
      match step
      case DoCalculate(period, units, lateFee) => CalculateIs(db, period, units, lateFee);
      case DoIssue(period, year) => SameKeys(db, period, year);
      case _ =>
    }
  }

  lemma SameKeys(db: Db, period: Id, year: int)
    requires Issue(db, period, year).Done?
    ensures Issue(db, period, year).db.invoices.Keys == db.invoices.Keys
  {
    hide ByUnit, Derive, NumberedInvoices;
  }

  lemma {:induction false} StillThereBefore(db: Db, steps: seq<Step>, invoice: Id)
    requires Lifecycle(db) && forall i :: 0 <= i < |steps| ==> WellFormed(steps[i])
    requires steps != [] && invoice in db.invoices && invoice in Run(db, steps).invoices
    ensures invoice in Run(db, steps[..|steps| - 1]).invoices
  {
    var before := Run(db, steps[..|steps| - 1]);
    RunKeeps(db, steps[..|steps| - 1]);
    NextIdOver(db, steps[..|steps| - 1]);
    assert FreshIds(before) && invoice < db.nextId;
    hide Lifecycle, Apply;
    if invoice !in before.invoices {
      GoneStaysGone(before, steps[|steps| - 1], invoice);
    }
  }

  lemma {:induction false} NextIdOver(db: Db, steps: seq<Step>)
    ensures Run(db, steps).nextId >= db.nextId
  {
    if steps != [] {
      NextIdOver(db, steps[..|steps| - 1]);
      LedgerCancel.NextIdGrows(Run(db, steps[..|steps| - 1]), steps[|steps| - 1]);
      hide Apply;
    }
  }

  /** Over every run and for as long as the invoice exists: what it owes is what it owed, plus the accepted debit notes,
      less the accepted credit notes. */
  lemma {:induction false} OwedOverRuns(db: Db, steps: seq<Step>, invoice: Id)
    requires Lifecycle(db) && forall i :: 0 <= i < |steps| ==> WellFormed(steps[i])
    requires invoice in db.invoices && invoice in Run(db, steps).invoices
    ensures Owes(db, Run(db, steps), invoice, NotedOver(db, steps, invoice))
    ensures db.invoices[invoice].notes == [] ==>
              Effective(Run(db, steps).invoices[invoice])
              == Run(db, steps).invoices[invoice].final + NotedOver(db, steps, invoice)
  {
    assert db.invoices[invoice].notes == [] ==> Effective(db.invoices[invoice]) == db.invoices[invoice].final;
    hide Lifecycle, Apply, Effective;
    if steps != [] {
      var before := steps[..|steps| - 1];
      StillThereBefore(db, steps, invoice);
      OwedOverRuns(db, before, invoice);
      RunKeeps(db, before);
      NoteStep(Run(db, before), steps[|steps| - 1], invoice);
    }
  }

  // ----- Issued and closed periods

  /** The period's invoices are the same ones. */
  ghost predicate SameInvoices(db: Db, after: Db, period: Id) {
    forall id :: id in db.invoices && db.invoices[id].period == period
      <==> id in after.invoices && after.invoices[id].period == period
  }

  lemma InvoicesStay(db: Db, step: Step, period: Id)
    requires FreshIds(db) && AllPlaced(db) && period in db.periods && Frozen(db.periods[period])
    ensures SameInvoices(db, Apply(db, step), period)
  {
    hide FreshIds, AllPlaced, CalculatePeriod, Issue, IssuedAs, Derive, Effective, ApplyToInvoice, Composed;
    if Call(db, step).Done? {
      match step
      case DoCalculate(other, units, lateFee) => CalculateIs(db, other, units, lateFee);
      case DoIssue(other, year) =>
        var order := IssueIs(db, other, year);
        var after := Issue(db, other, year).db;
        SameKeys(db, other, year);
        forall id | id in db.invoices
          ensures after.invoices[id].period == db.invoices[id].period
        {
          IssuedInvoice(db, after, other, year, order, id);
        }
      case _ =>
    }
  }

  /** Over every run an issued or closed period keeps its items, its shares and its invoices, none more and none fewer, and a
      closed one its whole row. */
  lemma {:induction false} ClosedForGood(db: Db, steps: seq<Step>, period: Id)
    requires Lifecycle(db) && forall i :: 0 <= i < |steps| ==> WellFormed(steps[i])
    requires period in db.periods && Frozen(db.periods[period])
    ensures var after := Run(db, steps);
            && period in after.periods && Frozen(after.periods[period]) && SameInvoices(db, after, period)
            && after.periods[period].items == db.periods[period].items && after.periods[period].shares == db.periods[period].shares
            && (db.periods[period].status == PeriodClosed ==> after.periods[period] == db.periods[period])
  {
    RunFreezes(db, steps);
    if steps != [] {
      var before := Run(db, steps[..|steps| - 1]);
      ClosedForGood(db, steps[..|steps| - 1], period);
      RunKeeps(db, steps[..|steps| - 1]);
      assert FreshIds(before) && AllPlaced(before);
      hide Lifecycle, Apply, FreshIds, AllPlaced;
      InvoicesStay(before, steps[|steps| - 1], period);
      PeriodMoves(before, steps[|steps| - 1], period);
    }
  }
}
