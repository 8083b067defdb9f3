/** What calculating a period does to a unit's balance: when the stored row still agrees afterwards, when a
    recalculation gives the same invoices, and when debt is counted twice. */
module LedgerRecalc {
  import opened Wrappers
  import opened MapSum
  import opened Engine
  import opened Charges
  import opened Ledger
  import opened LedgerLifecycle
  import opened LedgerBalance
  import opened LedgerCache
  import opened LedgerMoney

  // ----- The drafts that a calculation replaces

  /** The period's invoice for the unit, if there is one. */
  ghost function DraftOf(invoices: map<Id, Invoice>, period: Id, unit: Id): Option<Invoice> {
    if exists id :: id in OwnInvoices(invoices, period) && invoices[id].unit == unit then
      var id :| id in OwnInvoices(invoices, period) && invoices[id].unit == unit;
      Some(invoices[id])
    else None
  }

  /** The invoice that a calculation composes for the unit, if it is one of the units billed. */
  ghost function ComposedFor(db: Db, period: Id, units: seq<Unit>, lateFee: int -> int, unit: Id): Option<Invoice>
    requires period in db.periods && Calculable(db.periods[period].items, units)
  {
    if Billed(units, |units|, unit) then Some(NewInvoice(db, period, units, lateFee, unit)) else None
  }

  function CellOf(c: Column, unit: Id, inv: Option<Invoice>): int {
    if inv.Some? then Cell(c, unit, inv.value) else 0
  }

  lemma OwnColumns(invoices: map<Id, Invoice>, period: Id, c: Column, unit: Id)
    requires OnePerUnit(invoices)
    ensures InvoiceSum(OwnRows(invoices, period), c, unit) == CellOf(c, unit, DraftOf(invoices, period, unit))
  {
    var own := OwnRows(invoices, period);
    if exists id :: id in OwnInvoices(invoices, period) && invoices[id].unit == unit {
      var id :| id in OwnInvoices(invoices, period) && invoices[id].unit == unit
        && DraftOf(invoices, period, unit) == Some(invoices[id]);
      assert id in own && own[id] == invoices[id];
      OthersCountNothing(own, id, c, unit);
    } else {
      NobodyCounts(invoices, period, c, unit);
    }
  }

  lemma OthersCountNothing(own: map<Id, Invoice>, id: Id, c: Column, unit: Id)
    requires id in own && forall other :: other in own && other != id ==> own[other].unit != unit
    ensures InvoiceSum(own, c, unit) == Cell(c, unit, own[id])
  {
    ColumnRemove(own, c, unit, id);
    var rest := own - {id};
    assert forall other :: other in rest ==> Cells(c, unit)(rest[other]) == 0;
    TotalZero(rest, Cells(c, unit));
  }

  lemma NobodyCounts(invoices: map<Id, Invoice>, period: Id, c: Column, unit: Id)
    requires forall id :: id in OwnInvoices(invoices, period) ==> invoices[id].unit != unit
    ensures InvoiceSum(OwnRows(invoices, period), c, unit) == 0
  {
    var own := OwnRows(invoices, period);
    forall id | id in own
      ensures Cells(c, unit)(own[id]) == 0
    {
      assert id in OwnInvoices(invoices, period);
    }
    TotalZero(own, Cells(c, unit));
  }

  // ----- One draft replaced by another

  /** A unit's columns after `gone` was taken out and `added` put in. */
  ghost predicate Replaced(db: Db, after: Db, unit: Id, gone: Option<Invoice>, added: Option<Invoice>) {
    && after.payments == db.payments && after.balances == db.balances
    && (forall c :: InvoiceSum(after.invoices, c, unit)
          == InvoiceSum(db.invoices, c, unit) - CellOf(c, unit, gone) + CellOf(c, unit, added))
  }

  lemma CalculateReplaces(db: Db, period: Id, units: seq<Unit>, lateFee: int -> int, unit: Id)
    requires FreshIds(db) && OnePerUnit(db.invoices) && DistinctUnits(units)
    requires CalculatePeriod(db, period, units, lateFee).Done?
    ensures period in db.periods && Calculable(db.periods[period].items, units)
    ensures Replaced(db, CalculatePeriod(db, period, units, lateFee).db, unit, DraftOf(db.invoices, period, unit),
                     ComposedFor(db, period, units, lateFee, unit))
  {
    CalculateDone(db, period, units, lateFee);
    CalculateWritesNone(db, period, units, lateFee);
    hide CalculatePeriod, NewInvoice, Calculable, DistinctUnits, Billed, InvoiceSum, Cell, FreshIds, OnePerUnit, DraftOf;
    forall c
      ensures InvoiceSum(CalculatePeriod(db, period, units, lateFee).db.invoices, c, unit)
           == InvoiceSum(db.invoices, c, unit) - CellOf(c, unit, DraftOf(db.invoices, period, unit))
              + CellOf(c, unit, ComposedFor(db, period, units, lateFee, unit))
    {
      CalculateColumns(db, period, units, lateFee, c, unit);
      OwnColumns(db.invoices, period, c, unit);
    }
  }

  lemma ReopenReplaces(db: Db, period: Id, unit: Id)
    requires OnePerUnit(db.invoices) && Reopen(db, period).Done?
    ensures Replaced(db, Reopen(db, period).db, unit, DraftOf(db.invoices, period, unit), None)
  {
    hide InvoiceSum, Cell, OnePerUnit, DraftOf, Referenced;
    forall c
      ensures InvoiceSum(Reopen(db, period).db.invoices, c, unit)
           == InvoiceSum(db.invoices, c, unit) - CellOf(c, unit, DraftOf(db.invoices, period, unit))
    {
      DiscardColumns(db.invoices, period, c, unit);
      OwnColumns(db.invoices, period, c, unit);
    }
  }

  lemma CalculateDone(db: Db, period: Id, units: seq<Unit>, lateFee: int -> int)
    requires CalculatePeriod(db, period, units, lateFee).Done?
    ensures period in db.periods && Calculable(db.periods[period].items, units)
    ensures CalculatePeriod(db, period, units, lateFee).db.payments == db.payments
  {
    hide AddInvoices, ShareRows, Referenced, FirstError, Calculable;
  }

  // ----- When the stored row still agrees

  /** What an invoice adds to the fields of its unit's balance row, and what it absorbs. */
  datatype Figures = Figures(prior: int, base: int, late: int, paid: int, credit: int, absorbed: int)

  function FiguresOf(unit: Id, inv: Option<Invoice>): Figures {
    Figures(
      CellOf(OpenPrior, unit, inv) + CellOf(DebitNotes, unit, inv), CellOf(OpenBase, unit, inv),
      CellOf(OpenLate, unit, inv), CellOf(OpenPaid, unit, inv),
      CellOf(OpenCredit, unit, inv) + CellOf(CreditNotes, unit, inv),
      CellOf(AbsorbedPaid, unit, inv) + CellOf(AbsorbedCredit, unit, inv))
  }

  /** The two show the same on a balance row, given the money that nothing absorbs at present. */
  predicate SameOnRow(gone: Figures, added: Figures, slack: int) {
    && gone.prior == added.prior && gone.base == added.base && gone.late == added.late && gone.paid == added.paid
    && gone.credit == added.credit
    && AtLeastZero(slack) == AtLeastZero(slack + gone.absorbed - added.absorbed)
  }

  lemma ReplacedFreshIff(db: Db, after: Db, unit: Id, gone: Option<Invoice>, added: Option<Invoice>)
    requires Fresh(db, unit) && Replaced(db, after, unit, gone, added)
    ensures Fresh(after, unit) <==> SameOnRow(FiguresOf(unit, gone), FiguresOf(unit, added), Slack(db, unit))
  {
    hide InvoiceSum, VerifiedSum, CellOf;
  }

  /** A calculation, the first or a later one, leaves the unit's stored row in agreement if and only if the draft it
      replaces and the one it composes show the same on the row. */
  lemma CalculateFreshIff(db: Db, period: Id, units: seq<Unit>, lateFee: int -> int, unit: Id)
    requires Lifecycle(db) && DistinctUnits(units) && CalculatePeriod(db, period, units, lateFee).Done? && Fresh(db, unit)
    ensures period in db.periods && Calculable(db.periods[period].items, units)
    ensures Fresh(CalculatePeriod(db, period, units, lateFee).db, unit)
            <==> SameOnRow(FiguresOf(unit, DraftOf(db.invoices, period, unit)),
                           FiguresOf(unit, ComposedFor(db, period, units, lateFee, unit)), Slack(db, unit))
  {
    assert FreshIds(db) && OnePerUnit(db.invoices);
    hide Lifecycle, FreshIds, OnePerUnit, DistinctUnits, CalculatePeriod, Replaced, Fresh, Slack, SameOnRow, FiguresOf,
         ComposedFor, DraftOf, Calculable;
    CalculateReplaces(db, period, units, lateFee, unit);
    ReplacedFreshIff(db, CalculatePeriod(db, period, units, lateFee).db, unit, DraftOf(db.invoices, period, unit),
                     ComposedFor(db, period, units, lateFee, unit));
  }

  lemma NothingShown(unit: Id)
    ensures FiguresOf(unit, None) == Figures(0, 0, 0, 0, 0, 0)
  {
  }

  /** So does reopening, if and only if the discarded draft shows nothing on the row. */
  lemma ReopenFreshIff(db: Db, period: Id, unit: Id)
    requires Lifecycle(db) && Reopen(db, period).Done? && Fresh(db, unit)
    ensures Fresh(Reopen(db, period).db, unit)
            <==> SameOnRow(FiguresOf(unit, DraftOf(db.invoices, period, unit)), Figures(0, 0, 0, 0, 0, 0), Slack(db, unit))
  {
    assert OnePerUnit(db.invoices);
    hide Lifecycle, OnePerUnit, Reopen, Replaced, Fresh, Slack, SameOnRow, DraftOf;
    ReopenReplaces(db, period, unit);
    NothingShown(unit);
    hide FiguresOf;
    ReplacedFreshIff(db, Reopen(db, period).db, unit, DraftOf(db.invoices, period, unit), None);
  }

  // ----- The position after a calculation

  function Asks(unit: Id, inv: Option<Invoice>): int {
    var f := FiguresOf(unit, inv);
    f.prior + f.base + f.late - f.paid - f.credit
  }

  lemma ReplacedPosition(db: Db, after: Db, unit: Id, gone: Option<Invoice>, added: Option<Invoice>)
    requires Replaced(db, after, unit, gone, added)
    ensures Position(after.invoices, unit) == Position(db.invoices, unit) - Asks(unit, gone) + Asks(unit, added)
    ensures Slack(after, unit)
         == Slack(db, unit) + FiguresOf(unit, gone).absorbed - FiguresOf(unit, added).absorbed
  {
    hide InvoiceSum, VerifiedSum, CellOf;
  }

  lemma NewIs(db: Db, period: Id, units: seq<Unit>, lateFee: int -> int, unit: Id)
    requires period in db.periods && Calculable(db.periods[period].items, units)
    ensures var inv := NewInvoice(db, period, units, lateFee, unit);
            && inv.prior == Stored(db, unit).balance && inv.credit == Stored(db, unit).creditAsset
            && inv.unit == unit && inv.status == Unpaid && inv.paid == 0 && inv.notes == []
  {
  }

  lemma BalanceOfPosition(db: Db, unit: Id)
    ensures Derive(db.invoices, db.payments, unit).balance == AtLeastZero(Position(db.invoices, unit))
  {
  }

  lemma NewAsks(db: Db, period: Id, units: seq<Unit>, lateFee: int -> int, unit: Id)
    requires period in db.periods && Calculable(db.periods[period].items, units)
    ensures var inv := NewInvoice(db, period, units, lateFee, unit);
            Asks(unit, Some(inv)) == inv.final && FiguresOf(unit, Some(inv)).absorbed == inv.credit
  {
    NewIs(db, period, units, lateFee, unit);
    hide NewInvoice, Calculable, Asks, FiguresOf, Stored;
    UnpaidAsks(unit, NewInvoice(db, period, units, lateFee, unit));
  }

  lemma UnpaidAsks(unit: Id, inv: Invoice)
    requires inv.unit == unit && inv.status == Unpaid && inv.paid == 0 && inv.notes == []
    requires inv.final == inv.base + inv.prior + inv.late - inv.credit
    ensures Asks(unit, Some(inv)) == inv.final && FiguresOf(unit, Some(inv)).absorbed == inv.credit
  {
  }

  /** Prior debt is added, not taken out again. After any calculation the derived balance is the new invoice's prior
      debt and charge on top of everything else the unit has open; it is prior debt and charge alone if and only if
      the replaced draft was all that was open, or the result is cut at zero both ways. */
  lemma CarriedDebtCountsTwice(db: Db, period: Id, units: seq<Unit>, lateFee: int -> int, unit: Id)
    requires Lifecycle(db) && DistinctUnits(units) && CalculatePeriod(db, period, units, lateFee).Done?
    requires Billed(units, |units|, unit)
    ensures period in db.periods && Calculable(db.periods[period].items, units)
    ensures var after := CalculatePeriod(db, period, units, lateFee).db;
            var inv := NewInvoice(db, period, units, lateFee, unit);
            var owed, charge := Stored(db, unit).balance, inv.base + inv.late - inv.credit;
            var open := Position(db.invoices, unit) - Asks(unit, DraftOf(db.invoices, period, unit));
            && Derive(after.invoices, after.payments, unit).balance == AtLeastZero(open + owed + charge)
            && (Derive(after.invoices, after.payments, unit).balance == AtLeastZero(owed + charge)
                <==> open == 0 || (owed + charge <= 0 && open + owed + charge <= 0))
  {
    assert FreshIds(db) && OnePerUnit(db.invoices);
    hide Lifecycle, FreshIds, OnePerUnit, DistinctUnits, CalculatePeriod, Replaced, DraftOf, Calculable, Position, Derive, Asks;
    CalculateReplaces(db, period, units, lateFee, unit);
    var after := CalculatePeriod(db, period, units, lateFee).db;
    ReplacedPosition(db, after, unit, DraftOf(db.invoices, period, unit), ComposedFor(db, period, units, lateFee, unit));
    NewAsks(db, period, units, lateFee, unit);
    NewIs(db, period, units, lateFee, unit);
    BalanceOfPosition(after, unit);
    hide Billed, Stored;
  }

  /** A first calculation on an up-to-date balance that is owed counts it twice. */
  lemma OwedTwice(db: Db, period: Id, units: seq<Unit>, lateFee: int -> int, unit: Id)
    requires Lifecycle(db) && DistinctUnits(units) && CalculatePeriod(db, period, units, lateFee).Done?
    requires Billed(units, |units|, unit) && OwnInvoices(db.invoices, period) == {}
    requires Fresh(db, unit) && Stored(db, unit).balance > 0
    ensures period in db.periods && Calculable(db.periods[period].items, units)
    ensures var after := CalculatePeriod(db, period, units, lateFee).db;
            var inv := NewInvoice(db, period, units, lateFee, unit);
            Derive(after.invoices, after.payments, unit).balance
            == AtLeastZero(2 * Stored(db, unit).balance + inv.base + inv.late - inv.credit)
  {
    hide DraftOf, Asks, CalculatePeriod, Lifecycle, Position, DistinctUnits, Calculable, NewInvoice, Billed;
    CarriedDebtCountsTwice(db, period, units, lateFee, unit);
    StoredWhenFresh(db, unit);
    NoDraft(db.invoices, period, unit);
    hide Derive, Fresh, Stored, OwnInvoices;
  }

  // ----- Calculating again

  /** The same items for the same units give a unit the same invoice again if and only if its stored balance and
      credit are what they were. */
  lemma RecalculationSameIff(db: Db, later: Db, period: Id, units: seq<Unit>, lateFee: int -> int, unit: Id)
    requires period in db.periods && Calculable(db.periods[period].items, units)
    requires period in later.periods && later.periods[period].items == db.periods[period].items
    requires later.periods[period].building == db.periods[period].building
    ensures NewInvoice(later, period, units, lateFee, unit) == NewInvoice(db, period, units, lateFee, unit)
            <==> Stored(later, unit).balance == Stored(db, unit).balance
                 && Stored(later, unit).creditAsset == Stored(db, unit).creditAsset
  {
    hide Calculable, ChargeRows, RowSum, Stored;
  }

  /** The period can be calculated again. */
  lemma CalculableAgain(db: Db, period: Id, units: seq<Unit>, lateFee: int -> int, unit: Id)
    requires Lifecycle(db) && CalculatePeriod(db, period, units, lateFee).Done?
    ensures CalculatePeriod(Recompute(CalculatePeriod(db, period, units, lateFee).db, unit), period, units, lateFee).Done?
  {
    var first := CalculatePeriod(db, period, units, lateFee).db;
    CalculateIs(db, period, units, lateFee);
    CalculateDone(db, period, units, lateFee);
    assert !Referenced(first, period) by {
      hide CalculatePeriod, DraftFor, Composed;
      assert PaymentsPoint(db) && FreshIds(db);
      hide Lifecycle;
      forall p | p in first.payments
        ensures first.payments[p].invoice !in OwnInvoices(first.invoices, period)
      {
        assert db.payments[p].invoice in db.invoices && db.payments[p].invoice !in OwnInvoices(db.invoices, period);
      }
    }
    hide Lifecycle, Recalculated, Derive, AddInvoices, ShareRows, Calculable;
  }

  /** Reading the unit's balance between two calculations of a period counts the first draft as debt: the second
      invoice takes it over as prior debt, and is the same invoice if and only if that changes neither figure. */
  lemma ReadThenRecalculate(db: Db, period: Id, units: seq<Unit>, lateFee: int -> int, unit: Id)
    requires Lifecycle(db) && DistinctUnits(units) && CalculatePeriod(db, period, units, lateFee).Done?
    requires Billed(units, |units|, unit) && Fresh(db, unit)
    ensures var read := Recompute(CalculatePeriod(db, period, units, lateFee).db, unit);
            && CalculatePeriod(read, period, units, lateFee).Done?
            && period in db.periods && Calculable(db.periods[period].items, units)
            && period in read.periods && Calculable(read.periods[period].items, units)
            && var gone := DraftOf(db.invoices, period, unit);
               var first, second := NewInvoice(db, period, units, lateFee, unit), NewInvoice(read, period, units, lateFee, unit);
               var position, slack := Position(db.invoices, unit), Slack(db, unit);
               && second.prior == AtLeastZero(position - Asks(unit, gone) + first.final)
               && second.credit == AtLeastZero(slack + FiguresOf(unit, gone).absorbed - AtLeastZero(slack))
               && (second == first
                   <==> AtLeastZero(position - Asks(unit, gone) + first.final) == AtLeastZero(position)
                        && AtLeastZero(slack + FiguresOf(unit, gone).absorbed - AtLeastZero(slack)) == AtLeastZero(slack))
  {
    CalculableAgain(db, period, units, lateFee, unit);
    ReadPeriod(db, period, units, lateFee, unit);
    var read := Recompute(CalculatePeriod(db, period, units, lateFee).db, unit);
    ReadFigures(db, period, units, lateFee, unit);
    hide Lifecycle, DistinctUnits, CalculatePeriod, DraftOf, Calculable, Position, Slack, Asks, FiguresOf, Recompute, NewInvoice,
         Billed;
    StoredWhenFresh(db, unit);
    NewIs(db, period, units, lateFee, unit);
    NewIs(read, period, units, lateFee, unit);
    RecalculationSameIff(db, read, period, units, lateFee, unit);
    hide Fresh, Stored;
  }

  /** What the unit's row says when it is read after the calculation. */
  lemma ReadFigures(db: Db, period: Id, units: seq<Unit>, lateFee: int -> int, unit: Id)
    requires Lifecycle(db) && DistinctUnits(units) && CalculatePeriod(db, period, units, lateFee).Done?
    requires Billed(units, |units|, unit)
    ensures period in db.periods && Calculable(db.periods[period].items, units)
    ensures var read := Recompute(CalculatePeriod(db, period, units, lateFee).db, unit);
            var first := NewInvoice(db, period, units, lateFee, unit);
            var gone := DraftOf(db.invoices, period, unit);
            && Stored(read, unit).balance == AtLeastZero(Position(db.invoices, unit) - Asks(unit, gone) + first.final)
            && Stored(read, unit).creditAsset == AtLeastZero(Slack(db, unit) + FiguresOf(unit, gone).absorbed - first.credit)
  {
    assert FreshIds(db) && OnePerUnit(db.invoices);
    CalculateReplaces(db, period, units, lateFee, unit);
    var after := CalculatePeriod(db, period, units, lateFee).db;
    var read := Recompute(after, unit);
    ReadPeriod(db, period, units, lateFee, unit);
    hide Lifecycle, FreshIds, OnePerUnit, DistinctUnits, CalculatePeriod, Replaced, DraftOf, Calculable, Fresh, Position,
         Slack, Asks, FiguresOf, Recompute, NewInvoice;
    ReplacedPosition(db, after, unit, DraftOf(db.invoices, period, unit), ComposedFor(db, period, units, lateFee, unit));
    NewAsks(db, period, units, lateFee, unit);
    RecomputeIdempotent(after, unit);
    StoredWhenFresh(read, unit);
    hide Billed, Stored;
  }

  lemma ReadPeriod(db: Db, period: Id, units: seq<Unit>, lateFee: int -> int, unit: Id)
    requires CalculatePeriod(db, period, units, lateFee).Done?
    ensures var after := CalculatePeriod(db, period, units, lateFee).db;
            var read := Recompute(after, unit);
            && period in db.periods && period in read.periods && read.periods[period].items == db.periods[period].items
            && read.periods[period].building == db.periods[period].building
            && Position(read.invoices, unit) == Position(after.invoices, unit) && Slack(read, unit) == Slack(after, unit)
  {
    hide AddInvoices, ShareRows, Referenced, FirstError, Calculable, Derive, InvoiceSum, VerifiedSum;
  }

  lemma StoredWhenFresh(db: Db, unit: Id)
    requires Fresh(db, unit)
    ensures Stored(db, unit).balance == AtLeastZero(Position(db.invoices, unit))
    ensures Stored(db, unit).creditAsset == AtLeastZero(Slack(db, unit))
  {
    hide InvoiceSum, VerifiedSum, Stored;
  }

  /** So a unit that owed nothing and had no credit is billed the same charge twice. */
  lemma ChargeBilledTwice(db: Db, period: Id, units: seq<Unit>, lateFee: int -> int, unit: Id)
    requires Lifecycle(db) && DistinctUnits(units) && CalculatePeriod(db, period, units, lateFee).Done?
    requires Billed(units, |units|, unit) && Fresh(db, unit) && OwnInvoices(db.invoices, period) == {}
    requires Position(db.invoices, unit) == 0 && Slack(db, unit) == 0
    ensures var read := Recompute(CalculatePeriod(db, period, units, lateFee).db, unit);
            && CalculatePeriod(read, period, units, lateFee).Done?
            && period in db.periods && Calculable(db.periods[period].items, units)
            && period in read.periods && Calculable(read.periods[period].items, units)
            && var first, second := NewInvoice(db, period, units, lateFee, unit), NewInvoice(read, period, units, lateFee, unit);
               && second.prior == AtLeastZero(first.final) && first.final == first.base + first.late
               && (first.final >= 0 ==> second.final == 2 * first.final)
               && (second == first <==> first.final <= 0)
  {
    hide Lifecycle, DistinctUnits, CalculatePeriod, Calculable, Recompute, Billed, Position, Slack, Fresh, Asks, FiguresOf,
         DraftOf, NewInvoice, Stored, OwnInvoices;
    ReadThenRecalculate(db, period, units, lateFee, unit);
    ReadPeriod(db, period, units, lateFee, unit);
    NoDraft(db.invoices, period, unit);
    NewIs(db, period, units, lateFee, unit);
    StoredWhenFresh(db, unit);
    var read := Recompute(CalculatePeriod(db, period, units, lateFee).db, unit);
    NewTwice(db, read, period, units, lateFee, unit);
  }

  lemma NoDraft(invoices: map<Id, Invoice>, period: Id, unit: Id)
    requires OwnInvoices(invoices, period) == {}
    ensures DraftOf(invoices, period, unit) == None
    ensures Asks(unit, None) == 0 && FiguresOf(unit, None).absorbed == 0
  {
  }

  lemma NewTwice(db: Db, later: Db, period: Id, units: seq<Unit>, lateFee: int -> int, unit: Id)
    requires period in db.periods && Calculable(db.periods[period].items, units)
    requires period in later.periods && later.periods[period].items == db.periods[period].items
    ensures NewInvoice(later, period, units, lateFee, unit).base == NewInvoice(db, period, units, lateFee, unit).base
    ensures NewInvoice(later, period, units, lateFee, unit).late == NewInvoice(db, period, units, lateFee, unit).late
  {
    hide Calculable, ChargeRows, RowSum, Stored;
  }

  /** A unit that is paid up is billed the net notes of its paid invoices again, as prior debt. */
  lemma NotesBilledAgain(db: Db, period: Id, units: seq<Unit>, lateFee: int -> int, unit: Id)
    requires period in db.periods && Calculable(db.periods[period].items, units)
    requires AllComposed(db) && PaidUp(db.invoices, unit) && Fresh(db, unit)
    ensures NewInvoice(db, period, units, lateFee, unit).prior == AtLeastZero(SettledTotal(db.invoices, unit))
  {
    hide Calculable, AllComposed, PaidUp, Derive, SettledTotal, NewInvoice;
    PaidUpStillOwes(db, unit);
    NewIs(db, period, units, lateFee, unit);
  }
}
