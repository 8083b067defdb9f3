/** The billing and payment tables, and every service call on them as one atomic step
    (backend/internal/billing and backend/internal/payment). */
module Ledger {
  import opened Wrappers
  import opened MapSum
  import opened Engine
  import opened Charges

  datatype PeriodStatus = PeriodDraft | PeriodCalculated | PeriodIssued | PeriodClosed

  datatype InvoiceStatus = Unpaid | Partial | Paid | Expired | Cancelled

  /** A draft carries a placeholder; issuing assigns the building's next number. */
  datatype Number = Draft | Numbered(year: int, sequence: int)

  /** A debit or credit note on an invoice. */
  datatype Note = Note(debit: bool, amount: int)

  datatype Invoice = Invoice(
    number: Number, building: Id, period: Id, unit: Id,
    base: int, prior: int, late: int, credit: int, final: int,
    status: InvoiceStatus, paid: int, notes: seq<Note>, rows: seq<Row>)

  datatype PaymentStatus = Recorded | Verified | Failed | Reversed

  datatype Payment = Payment(unit: Id, invoice: Id, gateway: bool, amount: int, status: PaymentStatus)

  /** A row of unit_balances. */
  datatype Balance = Balance(
    priorDebt: int, current: int, lateFees: int, credit: int, paid: int, creditAsset: int, balance: int)

  datatype Period = Period(building: Id, status: PeriodStatus, items: seq<PeriodItem>, shares: seq<ShareRow>)

  /** The tables. `nextId` is above every identifier in use: fresh identifiers come from it. */
  datatype Db = Db(
    periods: map<Id, Period>, invoices: map<Id, Invoice>, payments: map<Id, Payment>, balances: map<Id, Balance>,
    nextId: Id)

  datatype Refusal = NotFound | Conflict | BadRequest | GatewayDown | NotCalculable(error: Error) | StillReferenced

  datatype Reply = Done(db: Db) | Refused(why: Refusal)

  // ----- One invoice

  function NoteSum(notes: seq<Note>, debit: bool): int {
    if notes == [] then 0
    else NoteSum(notes[..|notes| - 1], debit)
         + if notes[|notes| - 1].debit == debit then notes[|notes| - 1].amount else 0
  }

  /** What the unit actually owes: the frozen amount corrected by the notes. */
  function Effective(inv: Invoice): int {
    inv.final + NoteSum(inv.notes, true) - NoteSum(inv.notes, false)
  }

  datatype Application = Application(applied: int, status: InvoiceStatus)

  /** Caps a payment at what is outstanding and derives the status it leads to. */
  function ApplyToInvoice(effective: int, paid: int, amount: int): Application {
    var outstanding := if effective - paid < 0 then 0 else effective - paid;
    var applied := if amount > outstanding then outstanding else amount;
    var newPaid := paid + applied;
    Application(applied, if newPaid >= effective then Paid else if newPaid > 0 then Partial else Unpaid)
  }

  // ----- The balance of a unit

  predicate IsOpen(status: InvoiceStatus) {
    status == Unpaid || status == Partial || status == Expired
  }

  datatype Column =
    OpenPrior | OpenBase | OpenLate | OpenPaid | OpenCredit | DebitNotes | CreditNotes | AbsorbedPaid | AbsorbedCredit

  /** What one invoice adds to a column of a unit's aggregates. */
  function Cell(c: Column, unit: Id, inv: Invoice): int {
    if inv.unit != unit || inv.status == Cancelled then 0
    else match c
      case OpenPrior => if IsOpen(inv.status) then inv.prior else 0
      case OpenBase => if IsOpen(inv.status) then inv.base else 0
      case OpenLate => if IsOpen(inv.status) then inv.late else 0
      case OpenPaid => if IsOpen(inv.status) then inv.paid else 0
      case OpenCredit => if IsOpen(inv.status) then inv.credit else 0
      case DebitNotes => NoteSum(inv.notes, true)
      case CreditNotes => NoteSum(inv.notes, false)
      case AbsorbedPaid => inv.paid
      case AbsorbedCredit => inv.credit
  }

  function Cells(c: Column, unit: Id): Invoice -> int {
    inv => Cell(c, unit, inv)
  }

  ghost function InvoiceSum(invoices: map<Id, Invoice>, c: Column, unit: Id): int {
    Total(invoices, Cells(c, unit))
  }

  function VerifiedAmount(unit: Id, p: Payment): int {
    if p.unit == unit && p.status == Verified then p.amount else 0
  }

  function VerifiedAmounts(unit: Id): Payment -> int {
    p => VerifiedAmount(unit, p)
  }

  ghost function VerifiedSum(payments: map<Id, Payment>, unit: Id): int {
    Total(payments, VerifiedAmounts(unit))
  }

  function AtLeastZero(x: int): int {
    if x < 0 then 0 else x
  }

  function BalanceRow(
    prior: int, current: int, late: int, paid: int, credit: int, debits: int, credits: int, verified: int, absorbed: int)
    : Balance
  {
    Balance(prior + debits, current, late, credit + credits, paid, AtLeastZero(verified - absorbed),
            AtLeastZero(prior + debits + current + late - paid - (credit + credits)))
  }

  /** The unit's balance as the source rows give it. */
  ghost function Derive(invoices: map<Id, Invoice>, payments: map<Id, Payment>, unit: Id): Balance {
    BalanceRow(
      InvoiceSum(invoices, OpenPrior, unit), InvoiceSum(invoices, OpenBase, unit), InvoiceSum(invoices, OpenLate, unit),
      InvoiceSum(invoices, OpenPaid, unit), InvoiceSum(invoices, OpenCredit, unit),
      InvoiceSum(invoices, DebitNotes, unit), InvoiceSum(invoices, CreditNotes, unit),
      VerifiedSum(payments, unit),
      InvoiceSum(invoices, AbsorbedPaid, unit) + InvoiceSum(invoices, AbsorbedCredit, unit))
  }

  const NO_BALANCE := Balance(0, 0, 0, 0, 0, 0, 0)

  /** The stored row; a unit without financial history reads as zeros. */
  function Stored(db: Db, unit: Id): Balance {
    if unit in db.balances then db.balances[unit] else NO_BALANCE
  }

  ghost function Recompute(db: Db, unit: Id): Db {
    db.(balances := db.balances[unit := Derive(db.invoices, db.payments, unit)])
  }

  // ----- Payments

  /** Books a verified amount on an invoice and refreshes the unit's balance. */
  ghost function Book(db: Db, invoice: Id, amount: int): Db
    requires invoice in db.invoices
  {
    var inv := db.invoices[invoice];
    var app := ApplyToInvoice(Effective(inv), inv.paid, amount);
    var booked := inv.(paid := inv.paid + app.applied, status := app.status);
    Recompute(db.(invoices := db.invoices[invoice := booked]), inv.unit)
  }

  ghost function RecordManual(db: Db, invoice: Id, amount: int): Reply {
    if amount <= 0 then Refused(BadRequest)
    else if invoice !in db.invoices then Refused(NotFound)
    else if db.invoices[invoice].status == Cancelled then Refused(Conflict)
    else
      var p := Payment(db.invoices[invoice].unit, invoice, false, amount, Verified);
      Done(Book(db.(payments := db.payments[db.nextId := p], nextId := db.nextId + 1), invoice, amount))
  }

  /** The amount a gateway payment is opened for: the requested one, or all that is outstanding. */
  function GatewayAmount(inv: Invoice, requested: Option<int>): int {
    if requested.Some? then requested.value else AtLeastZero(Effective(inv) - inv.paid)
  }

  ghost function StartGateway(db: Db, invoice: Id, requested: Option<int>, gatewayUp: bool): Reply {
    if invoice !in db.invoices then Refused(NotFound)
    else if db.invoices[invoice].status == Cancelled then Refused(Conflict)
    else if requested.Some? && requested.value <= 0 then Refused(BadRequest)
    else if GatewayAmount(db.invoices[invoice], requested) <= 0 then Refused(Conflict)
    else if !gatewayUp then Refused(GatewayDown)
    else
      var inv := db.invoices[invoice];
      var p := Payment(inv.unit, invoice, true, GatewayAmount(inv, requested), Recorded);
      Done(db.(payments := db.payments[db.nextId := p], nextId := db.nextId + 1))
  }

  /** A gateway callback; a payment that is no longer pending is returned as it is. The invoice's
      status is not looked at. */
  ghost function HandleCallback(db: Db, payment: Id, verified: bool): Reply {
    if payment !in db.payments then Refused(NotFound)
    else
      var p := db.payments[payment];
      if p.status != Recorded || !p.gateway then Done(db)
      else if !verified then Done(db.(payments := db.payments[payment := p.(status := Failed)]))
      else if p.invoice !in db.invoices then Refused(NotFound)
      else Done(Book(db.(payments := db.payments[payment := p.(status := Verified)]), p.invoice, p.amount))
  }

  // ----- Invoice corrections

  ghost function CancelInvoice(db: Db, invoice: Id): Reply {
    if invoice !in db.invoices then Refused(NotFound)
    else if !IsOpen(db.invoices[invoice].status) then Refused(Conflict)
    else
      var inv := db.invoices[invoice];
      Done(Recompute(db.(invoices := db.invoices[invoice := inv.(status := Cancelled)]), inv.unit))
  }

  ghost function AddAdjustment(db: Db, invoice: Id, note: Note, reasonGiven: bool): Reply {
    if invoice !in db.invoices then Refused(NotFound)
    else if db.invoices[invoice].status == Cancelled then Refused(Conflict)
    else if note.amount <= 0 || !reasonGiven then Refused(BadRequest)
    else
      var inv := db.invoices[invoice];
      var noted := inv.(notes := inv.notes + [note], rows := inv.rows + [AdjustmentRow(note.amount)]);
      Done(Recompute(db.(invoices := db.invoices[invoice := noted]), inv.unit))
  }

  // ----- Periods

  function CreatePeriod(db: Db, building: Id): Reply {
    Done(db.(periods := db.periods[db.nextId := Period(building, PeriodDraft, [], [])], nextId := db.nextId + 1))
  }

  /** Adding, editing or deleting cost items; a deleted item takes its shares along. */
  function EditItems(db: Db, period: Id, items: seq<PeriodItem>): Reply {
    if period !in db.periods then Refused(NotFound)
    else if db.periods[period].status != PeriodDraft then Refused(Conflict)
    else
      var p := db.periods[period];
      Done(db.(periods := db.periods[period := p.(items := items, shares := KeepShares(p.shares, items))]))
  }

  function KeepShares(shares: seq<ShareRow>, items: seq<PeriodItem>): (kept: seq<ShareRow>)
    ensures shares == [] ==> kept == []
  {
    if shares == [] then []
    else
      var s := shares[|shares| - 1];
      KeepShares(shares[..|shares| - 1], items)
      + if exists k :: 0 <= k < |items| && items[k].id == s.item then [s] else []
  }

  function OwnInvoices(invoices: map<Id, Invoice>, period: Id): set<Id> {
    set id | id in invoices && invoices[id].period == period
  }

  /** A payment keeps its invoice from being deleted. */
  ghost predicate Referenced(db: Db, period: Id) {
    exists p :: p in db.payments && db.payments[p].invoice in OwnInvoices(db.invoices, period)
  }

  /** The invoice composed for one unit: its charge rows, the balance snapshot, the late fee. */
  ghost function NewInvoice(db: Db, period: Id, units: seq<Unit>, lateFee: int -> int, unit: Id): (inv: Invoice)
    requires period in db.periods && Calculable(db.periods[period].items, units)
    ensures inv.final == inv.base + inv.prior + inv.late - inv.credit
  {
    var charges := ChargeRows(db.periods[period].items, units, unit);
    var base := RowSum(charges);
    var snapshot := Stored(db, unit);
    var late := lateFee(base);
    Invoice(
      Draft, db.periods[period].building, period, unit,
      base, snapshot.balance, late, snapshot.creditAsset, base + snapshot.balance + late - snapshot.creditAsset,
      Unpaid, 0, [], charges + if late > 0 then [LateFeeRow(late)] else [])
  }

  /** The surviving invoices and, under fresh identifiers, one new invoice for each of the first `n` units. */
  ghost function AddInvoices(db: Db, period: Id, units: seq<Unit>, lateFee: int -> int, n: nat): map<Id, Invoice>
    requires n <= |units| && period in db.periods && Calculable(db.periods[period].items, units)
  {
    if n == 0 then db.invoices - OwnInvoices(db.invoices, period)
    else AddInvoices(db, period, units, lateFee, n - 1)
           [db.nextId + (n - 1) := NewInvoice(db, period, units, lateFee, units[n - 1].id)]
  }

  /** Replaces the period's shares and draft invoices by a fresh calculation. The balances that go
      into the invoices are read as stored, and are not recomputed afterwards. */
  ghost function CalculatePeriod(db: Db, period: Id, units: seq<Unit>, lateFee: int -> int): Reply {
    if period !in db.periods then Refused(NotFound)
    else
      var p := db.periods[period];
      if p.status != PeriodDraft && p.status != PeriodCalculated then Refused(Conflict)
      else if p.items == [] || units == [] then Refused(BadRequest)
      else if !Calculable(p.items, units) then Refused(NotCalculable(FirstError(p.items, units)))
      else if Referenced(db, period) then Refused(StillReferenced)
      else
        Done(db.(
          periods := db.periods[period := p.(status := PeriodCalculated, shares := ShareRows(p.items, units))],
          invoices := AddInvoices(db, period, units, lateFee, |units|),
          nextId := db.nextId + |units|))
  }

  /** Back to draft: the calculation is discarded, again without recomputing balances. */
  ghost function Reopen(db: Db, period: Id): Reply {
    if period !in db.periods then Refused(NotFound)
    else if db.periods[period].status != PeriodCalculated then Refused(Conflict)
    else if Referenced(db, period) then Refused(StillReferenced)
    else
      Done(db.(
        periods := db.periods[period := db.periods[period].(status := PeriodDraft, shares := [])],
        invoices := db.invoices - OwnInvoices(db.invoices, period)))
  }

  function NumberedInvoices(invoices: map<Id, Invoice>, building: Id): set<Id> {
    set id | id in invoices && invoices[id].building == building && invoices[id].number.Numbered?
  }

  lemma LatestExists(invoices: map<Id, Invoice>, ids: set<Id>)
    requires ids <= invoices.Keys && |ids| != 0
    ensures exists id :: id in ids && forall other :: other in ids ==> invoices[other].unit <= invoices[id].unit
    decreases |ids|
  {
    assert exists id: Id :: id in ids by {
      assert (forall id: Id :: id !in ids) ==> ids == {};
    }
    var first :| first in ids;
    if |ids| > 1 {
      var rest := ids - {first};
      LatestExists(invoices, rest);
      var id :| id in rest && forall other :: other in rest ==> invoices[other].unit <= invoices[id].unit;
      var last := if invoices[first].unit <= invoices[id].unit then id else first;
      assert forall other :: other in ids ==> other == first || other in rest;
      assert last in ids && forall other :: other in ids ==> invoices[other].unit <= invoices[last].unit;
    } else {
      assert ids == {first} by {
        assert |ids - {first}| == 0;
      }
    }
  }

  /** The invoices in the order of their units. */
  ghost function ByUnit(invoices: map<Id, Invoice>, ids: set<Id>): (order: seq<Id>)
    requires ids <= invoices.Keys
    ensures forall id :: id in order <==> id in ids
    ensures forall i :: 0 <= i < |order| ==> order[i] in ids
    ensures |order| == |ids|
    ensures forall i, j :: 0 <= i < j < |order| ==> order[i] != order[j]
    ensures forall i, j :: 0 <= i < j < |order| ==> invoices[order[i]].unit <= invoices[order[j]].unit
    decreases |ids|
  {
    if |ids| == 0 then []
    else
      LatestExists(invoices, ids);
      var last :| last in ids && forall other :: other in ids ==> invoices[other].unit <= invoices[last].unit;
      var rest := ByUnit(invoices, ids - {last});
      rest + [last]
  }

  /** Numbers the invoices in order, from `count + 1` on. */
  ghost function NumberAll(invoices: map<Id, Invoice>, order: seq<Id>, year: int, count: int): (m: map<Id, Invoice>)
    requires forall i :: 0 <= i < |order| ==> order[i] in invoices
    ensures m.Keys == invoices.Keys
  {
    if order == [] then invoices
    else
      var last := |order| - 1;
      var before := NumberAll(invoices, order[..last], year, count);
      before[order[last] := before[order[last]].(number := Numbered(year, count + |order|))]
  }

  function UnitsOf(invoices: map<Id, Invoice>, period: Id): set<Id> {
    set id | id in OwnInvoices(invoices, period) :: invoices[id].unit
  }

  /** Numbers and freezes every invoice of the period, then refreshes the balances of their units. */
  ghost function Issue(db: Db, period: Id, year: int): Reply {
    if period !in db.periods then Refused(NotFound)
    else if db.periods[period].status != PeriodCalculated then Refused(Conflict)
    else
      var p := db.periods[period];
      var own := OwnInvoices(db.invoices, period);
      var invoices :=
        NumberAll(db.invoices, ByUnit(db.invoices, own), year, |NumberedInvoices(db.invoices, p.building)|);
      Done(db.(
        periods := db.periods[period := p.(status := PeriodIssued)],
        invoices := invoices,
        balances := db.balances + map unit | unit in UnitsOf(db.invoices, period) :: Derive(invoices, db.payments, unit)))
  }

  function Close(db: Db, period: Id): Reply {
    if period !in db.periods then Refused(NotFound)
    else if db.periods[period].status != PeriodIssued then Refused(Conflict)
    else Done(db.(periods := db.periods[period := db.periods[period].(status := PeriodClosed)]))
  }

  // ----- Runs

  datatype Step =
    | DoCreatePeriod(building: Id)
    | DoEditItems(period: Id, items: seq<PeriodItem>)
    | DoCalculate(period: Id, units: seq<Unit>, lateFee: int -> int)
    | DoReopen(period: Id)
    | DoIssue(period: Id, year: int)
    | DoClose(period: Id)
    | DoCancel(invoice: Id)
    | DoAdjust(invoice: Id, note: Note, reasonGiven: bool)
    | DoRecordManual(invoice: Id, amount: int)
    | DoStartGateway(invoice: Id, requested: Option<int>, gatewayUp: bool)
    | DoCallback(payment: Id, verified: bool)
    | DoReadBalance(unit: Id)

  ghost function Call(db: Db, step: Step): Reply {
    match step
    case DoCreatePeriod(building) => CreatePeriod(db, building)
    case DoEditItems(period, items) => EditItems(db, period, items)
    case DoCalculate(period, units, lateFee) => CalculatePeriod(db, period, units, lateFee)
    case DoReopen(period) => Reopen(db, period)
    case DoIssue(period, year) => Issue(db, period, year)
    case DoClose(period) => Close(db, period)
    case DoCancel(invoice) => CancelInvoice(db, invoice)
    case DoAdjust(invoice, note, reasonGiven) => AddAdjustment(db, invoice, note, reasonGiven)
    case DoRecordManual(invoice, amount) => RecordManual(db, invoice, amount)
    case DoStartGateway(invoice, requested, gatewayUp) => StartGateway(db, invoice, requested, gatewayUp)
    case DoCallback(payment, verified) => HandleCallback(db, payment, verified)
    case DoReadBalance(unit) => Done(Recompute(db, unit))
  }

  /** A refused call leaves every table as it was. */
  ghost function Apply(db: Db, step: Step): Db {
    var reply := Call(db, step);
    if reply.Done? then reply.db else db
  }

  ghost function Run(db: Db, steps: seq<Step>): Db {
    if steps == [] then db else Apply(Run(db, steps[..|steps| - 1]), steps[|steps| - 1])
  }

  /** The units of a building have distinct identifiers. */
  ghost predicate WellFormed(step: Step) {
    step.DoCalculate? ==> DistinctUnits(step.units)
  }

  const EMPTY_DB := Db(map[], map[], map[], map[], 0)
}
