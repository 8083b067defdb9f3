/** Calls on one invoice that overlap (backend/internal/payment/service.go, backend/internal/billing/period_service.go).
    A manual payment reads the invoice before its transaction and writes the paid amount and the status that it
    computed from that reading; a cancellation reads the status and writes it later. */
module PaymentRace {
  import opened Wrappers
  import Engine
  import opened Ledger
  import opened LedgerBalance

  /** A payment between its reading and its transaction: the amount, and the paid amount it saw. */
  datatype Pending = Pending(amount: int, seen: int)

  /** The invoice with what has been verified on it so far, and the calls that have read it and not yet written. */
  datatype State = State(
    effective: int, paid: int, verified: int, status: InvoiceStatus, pending: map<int, Pending>, cancelling: set<int>)

  datatype Step = Read(id: int, amount: int) | Commit(id: int) | ReadToCancel(id: int) | Cancel(id: int)

  function Apply(s: State, step: Step): State {
    match step
    case Read(id, amount) =>
      if amount <= 0 || id in s.pending || s.status == Cancelled then s
      else s.(pending := s.pending[id := Pending(amount, s.paid)])
    case Commit(id) =>
      if id !in s.pending then s
      else
        var p := s.pending[id];
        var app := ApplyToInvoice(s.effective, p.seen, p.amount);
        s.(paid := p.seen + app.applied, status := app.status,
           verified := s.verified + p.amount, pending := s.pending - {id})
    case ReadToCancel(id) => if IsOpen(s.status) then s.(cancelling := s.cancelling + {id}) else s
    case Cancel(id) => if id in s.cancelling then s.(status := Cancelled, cancelling := s.cancelling - {id}) else s
  }

  function Start(effective: int): State {
    State(effective, 0, 0, Unpaid, map[], {})
  }

  function RunFrom(s: State, steps: seq<Step>): State {
    if steps == [] then s else Apply(RunFrom(s, steps[..|steps| - 1]), steps[|steps| - 1])
  }

  function Run(effective: int, steps: seq<Step>): State {
    RunFrom(Start(effective), steps)
  }

  /** What was paid, or seen as paid, is covered by verified money and never above what is owed. */
  predicate Covered(s: State, paid: int) {
    0 <= paid <= s.verified && paid <= Most(s.effective, 0)
  }

  ghost predicate Inv(s: State) {
    Covered(s, s.paid) && forall id :: id in s.pending ==> Covered(s, s.pending[id].seen) && s.pending[id].amount > 0
  }

  lemma StepKeeps(s: State, step: Step)
    requires Inv(s)
    ensures Inv(Apply(s, step)) && Apply(s, step).effective == s.effective
  {
  }

  lemma {:induction false} RunKeeps(s: State, steps: seq<Step>)
    requires Inv(s)
    ensures Inv(RunFrom(s, steps)) && RunFrom(s, steps).effective == s.effective
  {
    if steps != [] {
      RunKeeps(s, steps[..|steps| - 1]);
      StepKeeps(RunFrom(s, steps[..|steps| - 1]), steps[|steps| - 1]);
    }
  }

  /** However payments and cancellations overlap, the paid amount never exceeds the verified money: what a lost
      update takes from the invoice stays in the unit's credit. */
  lemma {:induction false} NeverOverdrawn(effective: int, steps: seq<Step>)
    ensures Inv(Run(effective, steps)) && Run(effective, steps).effective == effective
  {
    RunKeeps(Start(effective), steps);
  }

  // ----- Without interruption the statements are the calls of the ledger

  /** The invoice as the race sees it, with nothing under way. */
  function Seen(inv: Invoice, verified: int): State {
    State(Effective(inv), inv.paid, verified, inv.status, map[], {})
  }

  /** Reading and committing without interruption is the manual payment of the ledger, refusals included. */
  lemma AloneIsManual(db: Db, invoice: Engine.Id, verified: int, id: int, amount: int)
    requires invoice in db.invoices
    ensures var s := Seen(db.invoices[invoice], verified);
            var after := Apply(Apply(s, Read(id, amount)), Commit(id));
            match RecordManual(db, invoice, amount)
            case Refused(_) => after == s
            case Done(booked) => invoice in booked.invoices && after == Seen(booked.invoices[invoice], verified + amount)
  {
    hide Derive, NoteSum;
  }

  /** The same for a cancellation. */
  lemma AloneIsCancel(db: Db, invoice: Engine.Id, verified: int, id: int)
    requires invoice in db.invoices
    ensures var s := Seen(db.invoices[invoice], verified);
            var after := Apply(Apply(s, ReadToCancel(id)), Cancel(id));
            match CancelInvoice(db, invoice)
            case Refused(_) => after == s
            case Done(cancelled) => invoice in cancelled.invoices && after == Seen(cancelled.invoices[invoice], verified)
  {
    hide Derive, NoteSum;
  }

  // ----- The paid amount: exactly when it is all that was paid

  /** The paid amount is all the verified money, up to what is owed. */
  predicate Exact(s: State) {
    s.paid == Least(s.verified, Most(s.effective, 0))
  }

  /** A commit whose reading is out of date and which does not settle the invoice by itself. */
  predicate Loses(s: State, step: Step) {
    step.Commit? && step.id in s.pending
    && s.pending[step.id].seen != s.paid && s.pending[step.id].seen + s.pending[step.id].amount < s.effective
  }

  lemma ExactStep(s: State, step: Step)
    requires Inv(s) && Exact(s)
    ensures Exact(Apply(s, step)) <==> !Loses(s, step)
  {
  }

  ghost predicate AlwaysExact(effective: int, steps: seq<Step>) {
    Exact(Run(effective, steps)) && (steps == [] || AlwaysExact(effective, steps[..|steps| - 1]))
  }

  ghost predicate NeverLoses(effective: int, steps: seq<Step>) {
    steps == []
    || (NeverLoses(effective, steps[..|steps| - 1]) && !Loses(Run(effective, steps[..|steps| - 1]), steps[|steps| - 1]))
  }

  /** For every schedule: the paid amount is exact throughout if and only if no payment commits on a reading that
      is out of date without settling the invoice by itself. */
  lemma {:induction false} AlwaysExactIff(effective: int, steps: seq<Step>)
    ensures AlwaysExact(effective, steps) <==> NeverLoses(effective, steps)
  {
    if steps != [] {
      var before := steps[..|steps| - 1];
      AlwaysExactIff(effective, before);
      NeverOverdrawn(effective, before);
      assert Run(effective, steps) == Apply(Run(effective, before), steps[|steps| - 1]);
      if AlwaysExact(effective, before) {
        ExactStep(Run(effective, before), steps[|steps| - 1]);
      }
    }
  }

  function Atomically(amounts: seq<int>): seq<Step> {
    if amounts == [] then []
    else
      var last := |amounts| - 1;
      Atomically(amounts[..last]) + [Read(last, amounts[last]), Commit(last)]
  }

  /** When no two requests overlap the paid amount is always exact. */
  lemma {:induction false} AtomicIsExact(effective: int, amounts: seq<int>)
    requires AllPositive(amounts)
    ensures var s := Run(effective, Atomically(amounts));
            Exact(s) && s.verified == AmountSum(amounts) && s.pending == map[] && s.status != Cancelled
  {
    if amounts != [] {
      hide RunFrom;
      var last := |amounts| - 1;
      var before := Atomically(amounts[..last]);
      AtomicIsExact(effective, amounts[..last]);
      NeverOverdrawn(effective, before);
      var read, commit := Read(last, amounts[last]), Commit(last);
      Next(Start(effective), before, read);
      Next(Start(effective), before + [read], commit);
      assert Atomically(amounts) == before + [read] + [commit];
      var s := Run(effective, before);
      StepKeeps(s, read);
      ExactStep(Apply(s, read), commit);
    }
  }

  lemma Next(s: State, steps: seq<Step>, step: Step)
    ensures RunFrom(s, steps + [step]) == Apply(RunFrom(s, steps), step)
  {
    assert (steps + [step])[..|steps|] == steps;
  }

  lemma Four(s: State, a: Step, b: Step, c: Step, d: Step)
    ensures RunFrom(s, [a, b, c, d]) == Apply(Apply(Apply(Apply(s, a), b), c), d)
  {
    Next(s, [], a);
    Next(s, [a], b);
    Next(s, [a, b], c);
    Next(s, [a, b, c], d);
    assert [] + [a] == [a] && [a] + [b] == [a, b] && [a, b] + [c] == [a, b, c] && [a, b, c] + [d] == [a, b, c, d];
    hide Apply;
  }

  /** Two requests that both read before either writes: the second erases the first from the invoice. */
  lemma LostUpdate(effective: int, first: int, second: int)
    requires first > 0 && second > 0 && first + second <= effective
    ensures var s := Run(effective, [Read(1, first), Read(2, second), Commit(1), Commit(2)]);
            s.verified == first + second && s.paid == second && !Exact(s)
  {
    Four(Start(effective), Read(1, first), Read(2, second), Commit(1), Commit(2));
    hide RunFrom;
  }

  // ----- Cancellations: exactly when they last, and what they hit

  /** The write of a payment that read the invoice before. */
  predicate TakesEffect(s: State, step: Step) {
    step.Commit? && step.id in s.pending
  }

  ghost predicate AlwaysCancelled(s: State, steps: seq<Step>) {
    RunFrom(s, steps).status == Cancelled && (steps == [] || AlwaysCancelled(s, steps[..|steps| - 1]))
  }

  ghost predicate NoCommit(s: State, steps: seq<Step>) {
    steps == []
    || (NoCommit(s, steps[..|steps| - 1]) && !TakesEffect(RunFrom(s, steps[..|steps| - 1]), steps[|steps| - 1]))
  }

  /** A cancelled invoice stays cancelled under a step if and only if it is not the write of a pending payment. */
  lemma CancelledStepIff(s: State, step: Step)
    requires s.status == Cancelled
    ensures Apply(s, step).status == Cancelled <==> !TakesEffect(s, step)
  {
  }

  /** For every schedule: a cancellation lasts if and only if no payment that was read before it commits after it. */
  lemma {:induction false} CancellationLastsIff(s: State, steps: seq<Step>)
    requires s.status == Cancelled
    ensures AlwaysCancelled(s, steps) <==> NoCommit(s, steps)
  {
    if steps != [] {
      CancellationLastsIff(s, steps[..|steps| - 1]);
      if AlwaysCancelled(s, steps[..|steps| - 1]) {
        CancelledStepIff(RunFrom(s, steps[..|steps| - 1]), steps[|steps| - 1]);
      }
    }
  }

  /** No new payment is read once the invoice is cancelled: only those pending at that time can bring it back. */
  lemma {:induction false} NothingNewPending(s: State, steps: seq<Step>)
    requires s.status == Cancelled && NoCommit(s, steps)
    ensures RunFrom(s, steps).pending == s.pending
  {
    if steps != [] {
      NothingNewPending(s, steps[..|steps| - 1]);
      CancellationLastsIff(s, steps[..|steps| - 1]);
    }
  }

  /** A manual payment read before a cancellation and written after it: the invoice is open again. */
  lemma CancellationOverwritten(effective: int, amount: int)
    requires 0 < amount < effective
    ensures var steps := [Read(1, amount), ReadToCancel(2), Cancel(2), Commit(1)];
            && Run(effective, steps[..3]).status == Cancelled
            && Run(effective, steps).status == Partial && Run(effective, steps).paid == amount
  {
    var steps := [Read(1, amount), ReadToCancel(2), Cancel(2), Commit(1)];
    Four(Start(effective), Read(1, amount), ReadToCancel(2), Cancel(2), Commit(1));
    assert RunFrom(Start(effective), steps) == Apply(RunFrom(Start(effective), steps[..3]), Commit(1));
    Next(Start(effective), [], Read(1, amount));
    Next(Start(effective), [Read(1, amount)], ReadToCancel(2));
    Next(Start(effective), [Read(1, amount), ReadToCancel(2)], Cancel(2));
    assert steps[..3] == [Read(1, amount), ReadToCancel(2)] + [Cancel(2)];
    assert [Read(1, amount), ReadToCancel(2)] == [Read(1, amount)] + [ReadToCancel(2)];
    assert [Read(1, amount)] == [] + [Read(1, amount)];
    hide RunFrom;
  }

  /** The other order: an invoice that was open when the cancellation read it is paid in full, and then cancelled. */
  lemma PaidThenCancelled(effective: int)
    requires effective > 0
    ensures var s := Run(effective, [ReadToCancel(2), Read(1, effective), Commit(1), Cancel(2)]);
            s.status == Cancelled && s.paid == effective && s.verified == effective
  {
    Four(Start(effective), ReadToCancel(2), Read(1, effective), Commit(1), Cancel(2));
    hide RunFrom;
  }

  /** The step settles the invoice or cancels it. */
  predicate Closes(s: State, step: Step) {
    match step
    case Commit(id) => id in s.pending && s.pending[id].seen + s.pending[id].amount >= s.effective
    case Cancel(id) => id in s.cancelling
    case _ => false
  }

  ghost predicate AlwaysOpen(s: State, steps: seq<Step>) {
    IsOpen(RunFrom(s, steps).status) && (steps == [] || AlwaysOpen(s, steps[..|steps| - 1]))
  }

  ghost predicate NeverCloses(s: State, steps: seq<Step>) {
    steps == []
    || (NeverCloses(s, steps[..|steps| - 1]) && !Closes(RunFrom(s, steps[..|steps| - 1]), steps[|steps| - 1]))
  }

  lemma OpenStep(s: State, step: Step)
    requires Inv(s) && IsOpen(s.status)
    ensures IsOpen(Apply(s, step).status) <==> !Closes(s, step)
  {
  }

  /** For every schedule: the invoice a cancellation has read is still open at its write if and only if no payment
      settled it and no other cancellation was written in between. */
  lemma {:induction false} StillOpenIff(s: State, steps: seq<Step>)
    requires Inv(s) && IsOpen(s.status)
    ensures AlwaysOpen(s, steps) <==> NeverCloses(s, steps)
  {
    if steps != [] {
      var before := steps[..|steps| - 1];
      StillOpenIff(s, before);
      RunKeeps(s, before);
      hide Inv;
      if AlwaysOpen(s, before) {
        OpenStep(RunFrom(s, before), steps[|steps| - 1]);
      }
    }
  }

  // ----- Gateway callbacks that overlap

  /** An invoice with one payment at the gateway. `others` is the verified money of other payments; `checked`
      callbacks have seen the payment pending and have not written yet. The invoice itself is read inside the
      transaction. */
  datatype Gate = Gate(effective: int, paid: int, others: int, amount: int, status: PaymentStatus, checked: nat)

  /** A callback checks, asks the gateway, and then books the payment or saves it as failed. */
  datatype GateStep = Check | Finalize | Fail

  function Pass(g: Gate, step: GateStep): Gate {
    match step
    case Check => if g.status == Recorded then g.(checked := g.checked + 1) else g
    case Finalize =>
      if g.checked == 0 then g
      else
        g.(paid := g.paid + ApplyToInvoice(g.effective, g.paid, g.amount).applied,
           status := Verified, checked := g.checked - 1)
    case Fail => if g.checked == 0 then g else g.(status := Failed, checked := g.checked - 1)
  }

  function PassAll(g: Gate, steps: seq<GateStep>): Gate {
    if steps == [] then g else Pass(PassAll(g, steps[..|steps| - 1]), steps[|steps| - 1])
  }

  /** Checking and writing without interruption is the callback of the ledger, replays included. */
  lemma AloneIsCallback(db: Db, payment: Engine.Id, others: int, confirmed: bool)
    requires payment in db.payments && db.payments[payment].gateway && db.payments[payment].invoice in db.invoices
    ensures var p, inv := db.payments[payment], db.invoices[db.payments[payment].invoice];
            var g := Gate(Effective(inv), inv.paid, others, p.amount, p.status, 0);
            var after := Pass(Pass(g, Check), if confirmed then Finalize else Fail);
            var reply := HandleCallback(db, payment, confirmed);
            && reply.Done? && p.invoice in reply.db.invoices && payment in reply.db.payments
            && after == g.(paid := reply.db.invoices[p.invoice].paid, status := reply.db.payments[payment].status)
  {
    hide Derive, NoteSum;
  }

  function GateVerified(g: Gate): int {
    g.others + if g.status == Verified then g.amount else 0
  }

  predicate GateExact(g: Gate) {
    g.paid == Least(GateVerified(g), Most(g.effective, 0))
  }

  /** A payment at the gateway that no callback has reached yet. */
  predicate Waiting(g: Gate) {
    g.status == Recorded && g.checked == 0 && g.amount > 0 && g.others >= 0 && GateExact(g)
  }

  function Times(n: nat, amount: int): int {
    if n == 0 then 0 else Times(n - 1, amount) + amount
  }

  /** How many finalizes took effect: those for which a callback had checked before. */
  function Effects(g: Gate, steps: seq<GateStep>): nat {
    if steps == [] then 0
    else
      var before := steps[..|steps| - 1];
      Effects(g, before) + if steps[|steps| - 1] == Finalize && PassAll(g, before).checked > 0 then 1 else 0
  }

  /** The state after any schedule: the payment is applied once per effective finalize, and counts as verified
      or not as the last callback left it. */
  lemma {:induction false} GateClosedForm(g: Gate, steps: seq<GateStep>)
    requires Waiting(g)
    ensures var after := PassAll(g, steps);
            var k := Effects(g, steps);
            && after.effective == g.effective && after.amount == g.amount && after.others == g.others
            && after.paid == PaidAfter(g.effective, g.paid, Times(k, g.amount))
            && (after.status == Verified ==> k > 0) && (after.status == Recorded ==> k == 0)
  {
    if steps != [] {
      GateClosedForm(g, steps[..|steps| - 1]);
      TimesAtLeast(Effects(g, steps[..|steps| - 1]), g.amount);
    }
  }

  lemma {:induction false} TimesAtLeast(n: nat, amount: int)
    requires amount > 0
    ensures Times(n, amount) >= n && (n >= 1 ==> Times(n, amount) >= amount) && (n >= 2 ==> Times(n, amount) > amount)
  {
    if n > 0 {
      TimesAtLeast(n - 1, amount);
    }
  }

  /** The last finalize or failure that took effect. */
  function LastWrite(g: Gate, steps: seq<GateStep>): Option<GateStep> {
    if steps == [] then None
    else
      var before, last := steps[..|steps| - 1], steps[|steps| - 1];
      if last != Check && PassAll(g, before).checked > 0 then Some(last) else LastWrite(g, before)
  }

  lemma {:induction false} LastWriteIs(g: Gate, steps: seq<GateStep>)
    requires Waiting(g)
    ensures PassAll(g, steps).status == Verified <==> LastWrite(g, steps) == Some(Finalize)
    ensures PassAll(g, steps).status == Failed <==> LastWrite(g, steps) == Some(Fail)
  {
    if steps != [] {
      LastWriteIs(g, steps[..|steps| - 1]);
    }
  }

  /** Callbacks of one payment, in whatever order they check, finalize and fail, leave the paid amount covered by
      verified money if and only if none took effect, or nothing was owed, or the last one to write was a booking and
      either one booking took effect or the payment settles the invoice by itself. */
  lemma ScheduleExactIff(g: Gate, steps: seq<GateStep>)
    requires Waiting(g)
    ensures var k := Effects(g, steps);
            GateExact(PassAll(g, steps))
            <==> k == 0 || g.paid >= g.effective
                 || (LastWrite(g, steps) == Some(Finalize) && (k == 1 || g.paid + g.amount >= g.effective))
  {
    var k := Effects(g, steps);
    GateClosedForm(g, steps);
    LastWriteIs(g, steps);
    TimesAtLeast(k, g.amount);
    assert k == 1 ==> Times(k, g.amount) == g.amount;
  }

  /** No two callbacks are between their check and their finalize at the same time. */
  ghost predicate OneAtATime(g: Gate, steps: seq<GateStep>) {
    steps == [] || (OneAtATime(g, steps[..|steps| - 1]) && PassAll(g, steps).checked <= 1)
  }

  /** One at a time, callbacks book the payment once, however often the gateway repeats them. */
  lemma {:induction false} OneAtATimeExact(g: Gate, steps: seq<GateStep>)
    requires Waiting(g) && OneAtATime(g, steps)
    ensures Effects(g, steps) <= 1 && GateExact(PassAll(g, steps))
  {
    OneEffect(g, steps);
    LastWriteIs(g, steps);
    ScheduleExactIff(g, steps);
  }

  lemma {:induction false} OneEffect(g: Gate, steps: seq<GateStep>)
    requires Waiting(g) && OneAtATime(g, steps)
    ensures Effects(g, steps) + PassAll(g, steps).checked <= 1
    ensures Effects(g, steps) == 1 ==> PassAll(g, steps).status == Verified
    ensures PassAll(g, steps).checked == 1 ==> PassAll(g, steps).status == Recorded
  {
    if steps != [] {
      OneEffect(g, steps[..|steps| - 1]);
    }
  }
}
