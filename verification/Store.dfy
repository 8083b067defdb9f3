/** The services over the tables, as they run: queries and updates on mutable tables, each call proved
    to answer and to change the tables as its step in Ledger says. */
module Store {
  import opened Wrappers
  import opened MapSum
  import opened Engine
  import opened Charges
  import opened Ledger
  import opened LedgerLifecycle
  import opened LedgerBalance

  datatype Outcome = Accepted | Rejected(why: Refusal)

  /** The table after inserting the first `n` rows under consecutive identifiers. */
  function Inserted(m: map<Id, Invoice>, first: Id, rows: seq<Invoice>, n: nat): map<Id, Invoice>
    requires n <= |rows|
  {
    if n == 0 then m else Inserted(m, first, rows, n - 1)[first + (n - 1) := rows[n - 1]]
  }

  lemma {:induction false} InsertedIsAdded(
    db: Db, period: Id, units: seq<Unit>, lateFee: int -> int, rows: seq<Invoice>, n: nat)
    requires period in db.periods && Calculable(db.periods[period].items, units)
    requires |rows| == |units| && n <= |rows|
    requires forall k :: 0 <= k < |rows| ==> rows[k] == NewInvoice(db, period, units, lateFee, units[k].id)
    ensures Inserted(db.invoices - OwnInvoices(db.invoices, period), db.nextId, rows, n)
         == AddInvoices(db, period, units, lateFee, n)
  {
    hide Calculable, NewInvoice, OwnInvoices;
    if n > 0 {
      InsertedIsAdded(db, period, units, lateFee, rows, n - 1);
    }
  }

  /** Different invoices of a period belong to different units: the order by unit is the only one. */
  ghost predicate OneEach(invoices: map<Id, Invoice>, ids: set<Id>)
    requires ids <= invoices.Keys
  {
    forall a, b :: a in ids && b in ids && a != b ==> invoices[a].unit != invoices[b].unit
  }

  ghost predicate IsLatest(invoices: map<Id, Invoice>, ids: set<Id>, last: Id)
    requires ids <= invoices.Keys
  {
    last in ids && forall other :: other in ids ==> invoices[other].unit <= invoices[last].unit
  }

  lemma LatestIsLast(invoices: map<Id, Invoice>, ids: set<Id>, last: Id)
    requires ids <= invoices.Keys && IsLatest(invoices, ids, last) && OneEach(invoices, ids)
    ensures OneEach(invoices, ids - {last})
    ensures ByUnit(invoices, ids) == ByUnit(invoices, ids - {last}) + [last]
  {
  }

  method LatestOf(invoices: map<Id, Invoice>, ids: set<Id>) returns (last: Id)
    requires ids <= invoices.Keys && |ids| != 0
    ensures last in ids && IsLatest(invoices, ids, last)
  {
    LatestExists(invoices, ids);
    last :| last in ids && forall other :: other in ids ==> invoices[other].unit <= invoices[last].unit;
  }

  /** The invoices in the order of their units. */
  method OrderByUnit(invoices: map<Id, Invoice>, ids: set<Id>) returns (order: seq<Id>)
    requires ids <= invoices.Keys
    requires OneEach(invoices, ids)
    ensures order == ByUnit(invoices, ids)
  {
    hide ByUnit, IsLatest, OneEach;
    var rest := ids;
    order := [];
    while |rest| != 0
      invariant rest <= ids && OneEach(invoices, rest) && ByUnit(invoices, ids) == ByUnit(invoices, rest) + order
      decreases |rest|
    {
      var last := LatestOf(invoices, rest);
      LatestIsLast(invoices, rest, last);
      order := [last] + order;
      rest := rest - {last};
    }
  }

  lemma NumberNext(invoices: map<Id, Invoice>, order: seq<Id>, year: int, count: int, i: int)
    requires 0 <= i < |order| && forall k :: 0 <= k < |order| ==> order[k] in invoices
    ensures order[..i + 1][..i] == order[..i]
    ensures var m := NumberAll(invoices, order[..i], year, count);
            NumberAll(invoices, order[..i + 1], year, count)
            == m[order[i] := m[order[i]].(number := Numbered(year, count + i + 1))]
  {
  }

  /** Numbering leaves the units of the invoices as they are. */
  lemma {:induction false} NumberAllUnits(invoices: map<Id, Invoice>, order: seq<Id>, year: int, count: int)
    requires forall i :: 0 <= i < |order| ==> order[i] in invoices
    ensures forall id :: id in invoices ==> NumberAll(invoices, order, year, count)[id].unit == invoices[id].unit
  {
    if order != [] {
      NumberAllUnits(invoices, order[..|order| - 1], year, count);
    }
  }

  function UnitsAt(invoices: map<Id, Invoice>, order: seq<Id>, n: nat): set<Id>
    requires n <= |order| && forall i :: 0 <= i < |order| ==> order[i] in invoices
  {
    set i | 0 <= i < n :: invoices[order[i]].unit
  }

  /** The stored rows after a recompute of each of these units. */
  ghost function Refreshed(db: Db, units: set<Id>): map<Id, Balance> {
    db.balances + map unit | unit in units :: Derive(db.invoices, db.payments, unit)
  }

  lemma RefreshedAdd(db: Db, units: set<Id>, unit: Id)
    ensures Refreshed(db, units + {unit}) == Refreshed(db, units)[unit := Derive(db.invoices, db.payments, unit)]
  {
    hide Derive;
  }

  lemma NothingRefreshed(db: Db, order: seq<Id>)
    requires forall i :: 0 <= i < |order| ==> order[i] in db.invoices
    ensures Refreshed(db, UnitsAt(db.invoices, order, 0)) == db.balances
  {
  }

  lemma OneRefreshed(db: Db, order: seq<Id>, i: nat)
    requires i < |order| && forall k :: 0 <= k < |order| ==> order[k] in db.invoices
    ensures var unit := db.invoices[order[i]].unit;
            Refreshed(db, UnitsAt(db.invoices, order, i + 1))
            == Refreshed(db, UnitsAt(db.invoices, order, i))[unit := Derive(db.invoices, db.payments, unit)]
  {
    hide Derive, Refreshed;
    var unit := db.invoices[order[i]].unit;
    assert UnitsAt(db.invoices, order, i + 1) == UnitsAt(db.invoices, order, i) + {unit};
    RefreshedAdd(db, UnitsAt(db.invoices, order, i), unit);
  }

  lemma UnitsAtAll(a: map<Id, Invoice>, b: map<Id, Invoice>, order: seq<Id>, period: Id)
    requires a.Keys == b.Keys && forall id :: id in a ==> b[id].unit == a[id].unit
    requires order == ByUnit(a, OwnInvoices(a, period))
    ensures UnitsAt(b, order, |order|) == UnitsOf(a, period)
  {
  }

  class Store {
    var periods: map<Id, Period>
    var invoices: map<Id, Invoice>
    var payments: map<Id, Payment>
    var balances: map<Id, Balance>
    var nextId: Id

    ghost function Tables(): Db
      reads this
    {
      Db(periods, invoices, payments, balances, nextId)
    }

    ghost predicate Valid()
      reads this
    {
      Lifecycle(Tables())
    }

    /** The call came out as the step says, given the tables before it. */
    ghost predicate Answers(out: Outcome, reply: Reply, before: Db)
      reads this
    {
      match reply
      case Done(db) => out == Accepted && Tables() == db
      case Refused(why) => out == Rejected(why) && Tables() == before
    }

    constructor ()
      ensures Valid() && Tables() == EMPTY_DB
    {
      periods, invoices, payments, balances, nextId := map[], map[], map[], map[], 0;
      new;
      EmptyKeeps();
    }

    // ----- Queries

    method SumColumn(c: Column, unit: Id) returns (sum: int)
      ensures sum == InvoiceSum(invoices, c, unit)
    {
      var rest := invoices;
      sum := 0;
      while |rest| != 0
        invariant InvoiceSum(invoices, c, unit) == sum + InvoiceSum(rest, c, unit)
        decreases |rest|
      {
        ghost var some := Unfold(rest, Cells(c, unit));
        assert some in rest;
        var id :| id in rest;
        hide InvoiceSum, Cell;
        ColumnRemove(rest, c, unit, id);
        RemoveKey(rest, id);
        sum := sum + Cell(c, unit, rest[id]);
        rest := rest - {id};
      }
    }

    method SumVerified(unit: Id) returns (sum: int)
      ensures sum == VerifiedSum(payments, unit)
    {
      var rest := payments;
      sum := 0;
      while |rest| != 0
        invariant VerifiedSum(payments, unit) == sum + VerifiedSum(rest, unit)
        decreases |rest|
      {
        ghost var some := Unfold(rest, VerifiedAmounts(unit));
        assert some in rest;
        var id :| id in rest;
        TotalRemove(rest, VerifiedAmounts(unit), id);
        RemoveKey(rest, id);
        hide Total;
        sum := sum + VerifiedAmount(unit, rest[id]);
        rest := rest - {id};
      }
    }

    /** Derives the unit's position from the source rows and stores it. */
    method RecomputeBalance(unit: Id)
      modifies this`balances
      ensures balances == old(balances)[unit := Derive(invoices, payments, unit)]
    {
      var prior := SumColumn(OpenPrior, unit);
      var current := SumColumn(OpenBase, unit);
      var late := SumColumn(OpenLate, unit);
      var paid := SumColumn(OpenPaid, unit);
      var credit := SumColumn(OpenCredit, unit);
      var debits := SumColumn(DebitNotes, unit);
      var credits := SumColumn(CreditNotes, unit);
      var verified := SumVerified(unit);
      var absorbedPaid := SumColumn(AbsorbedPaid, unit);
      var absorbedCredit := SumColumn(AbsorbedCredit, unit);
      hide InvoiceSum, VerifiedSum;

      var balance := prior + debits + current + late - paid - (credit + credits);
      if balance < 0 {
        balance := 0;
      }
      var asset := verified - (absorbedPaid + absorbedCredit);
      if asset < 0 {
        asset := 0;
      }
      balances := balances[unit := Balance(prior + debits, current, late, credit + credits, paid, asset, balance)];
    }

    /** The balance and the credit that go into a new invoice. */
    method Snapshot(unit: Id) returns (priorDebt: int, credit: int)
      ensures priorDebt == Stored(Tables(), unit).balance && credit == Stored(Tables(), unit).creditAsset
    {
      if unit in balances {
        priorDebt, credit := balances[unit].balance, balances[unit].creditAsset;
      } else {
        priorDebt, credit := 0, 0;
      }
    }

    // ----- Payments

    method CreatePayment(p: Payment)
      modifies this`payments, this`nextId
      ensures payments == old(payments)[old(nextId) := p] && nextId == old(nextId) + 1
    {
      payments := payments[nextId := p];
      nextId := nextId + 1;
    }

    method ApplyInvoicePaid(invoice: Id, paid: int, status: InvoiceStatus)
      requires invoice in invoices
      modifies this`invoices
      ensures invoices == old(invoices)[invoice := old(invoices)[invoice].(paid := paid, status := status)]
    {
      invoices := invoices[invoice := invoices[invoice].(paid := paid, status := status)];
    }

    /** Applies a verified amount to an invoice, capped, and refreshes the unit's balance. */
    method Book(invoice: Id, amount: int)
      requires invoice in invoices
      modifies this`invoices, this`balances
      ensures Tables() == Ledger.Book(old(Tables()), invoice, amount)
    {
      hide Derive, Effective, ApplyToInvoice;
      var inv := invoices[invoice];
      var app := ApplyToInvoice(Effective(inv), inv.paid, amount);
      ApplyInvoicePaid(invoice, inv.paid + app.applied, app.status);
      RecomputeBalance(inv.unit);
    }

    method RecordManual(invoice: Id, amount: int) returns (out: Outcome)
      requires Valid()
      modifies this
      ensures Valid()
      ensures Answers(out, Ledger.RecordManual(old(Tables()), invoice, amount), old(Tables()))
    {
      ghost var before := Tables();
      hide Lifecycle, Ledger.Book;
      if amount <= 0 {
        return Rejected(BadRequest);
      }
      if invoice !in invoices {
        return Rejected(NotFound);
      }
      var inv := invoices[invoice];
      if inv.status == Cancelled {
        return Rejected(Conflict);
      }
      CreatePayment(Payment(inv.unit, invoice, false, amount, Verified));
      Book(invoice, amount);
      RecordManualKeeps(before, invoice, amount);
      out := Accepted;
    }

    method StartGateway(invoice: Id, requested: Option<int>, gatewayUp: bool) returns (out: Outcome)
      requires Valid()
      modifies this
      ensures Valid()
      ensures Answers(out, Ledger.StartGateway(old(Tables()), invoice, requested, gatewayUp), old(Tables()))
    {
      ghost var before := Tables();
      if Ledger.StartGateway(before, invoice, requested, gatewayUp).Done? {
        StartGatewayKeeps(before, invoice, requested, gatewayUp);
      }
      hide Lifecycle, Effective;
      if invoice !in invoices {
        return Rejected(NotFound);
      }
      var inv := invoices[invoice];
      if inv.status == Cancelled {
        return Rejected(Conflict);
      }
      var outstanding := Effective(inv) - inv.paid;
      if outstanding < 0 {
        outstanding := 0;
      }
      var amount := outstanding;
      if requested.Some? {
        if requested.value <= 0 {
          return Rejected(BadRequest);
        }
        amount := requested.value;
      }
      if amount <= 0 {
        return Rejected(Conflict);
      }
      if !gatewayUp {
        return Rejected(GatewayDown);
      }
      CreatePayment(Payment(inv.unit, invoice, true, amount, Recorded));
      out := Accepted;
    }

    method HandleCallback(payment: Id, verified: bool) returns (out: Outcome)
      requires Valid()
      modifies this
      ensures Valid()
      ensures Answers(out, Ledger.HandleCallback(old(Tables()), payment, verified), old(Tables()))
    {
      ghost var before := Tables();
      if Ledger.HandleCallback(before, payment, verified).Done? {
        CallbackKeeps(before, payment, verified);
      }
      assert PaymentsPoint(before);
      hide Lifecycle, Ledger.Book;
      if payment !in payments {
        return Rejected(NotFound);
      }
      var p := payments[payment];
      if p.status != Recorded || !p.gateway {
        return Accepted;
      }
      if !verified {
        payments := payments[payment := p.(status := Failed)];
        return Accepted;
      }
      payments := payments[payment := p.(status := Verified)];
      Book(p.invoice, p.amount);
      out := Accepted;
    }

    // ----- Invoice corrections

    method RecomputeInvoice(invoice: Id)
      requires invoice in invoices
      modifies this`balances
      ensures balances == old(balances)[invoices[invoice].unit := Derive(invoices, payments, invoices[invoice].unit)]
    {
      RecomputeBalance(invoices[invoice].unit);
    }

    method CancelInvoice(invoice: Id) returns (out: Outcome)
      requires Valid()
      modifies this
      ensures Valid()
      ensures Answers(out, Ledger.CancelInvoice(old(Tables()), invoice), old(Tables()))
    {
      ghost var before := Tables();
      hide Lifecycle, Derive;
      if invoice !in invoices {
        return Rejected(NotFound);
      }
      if !IsOpen(invoices[invoice].status) {
        return Rejected(Conflict);
      }
      invoices := invoices[invoice := invoices[invoice].(status := Cancelled)];
      RecomputeInvoice(invoice);
      CancelKeeps(before, invoice);
      out := Accepted;
    }

    method AddAdjustment(invoice: Id, note: Note, reasonGiven: bool) returns (out: Outcome)
      requires Valid()
      modifies this
      ensures Valid()
      ensures Answers(out, Ledger.AddAdjustment(old(Tables()), invoice, note, reasonGiven), old(Tables()))
    {
      ghost var before := Tables();
      hide Lifecycle, Derive;
      if invoice !in invoices {
        return Rejected(NotFound);
      }
      var inv := invoices[invoice];
      if inv.status == Cancelled {
        return Rejected(Conflict);
      }
      if note.amount <= 0 || !reasonGiven {
        return Rejected(BadRequest);
      }
      invoices := invoices[invoice := inv.(notes := inv.notes + [note], rows := inv.rows + [AdjustmentRow(note.amount)])];
      RecomputeInvoice(invoice);
      AdjustKeeps(before, invoice, note, reasonGiven);
      out := Accepted;
    }

    // ----- Periods

    method Reopen(period: Id) returns (out: Outcome)
      requires Valid()
      modifies this
      ensures Valid()
      ensures Answers(out, Ledger.Reopen(old(Tables()), period), old(Tables()))
    {
      ghost var before := Tables();
      hide Lifecycle;
      if period !in periods {
        return Rejected(NotFound);
      }
      if periods[period].status != PeriodCalculated {
        return Rejected(Conflict);
      }
      var deleted := DeleteInvoices(period);
      if !deleted {
        return Rejected(StillReferenced);
      }
      periods := periods[period := periods[period].(shares := [])];
      periods := periods[period := periods[period].(status := PeriodDraft)];
      ReopenKeeps(before, period);
      assert Tables() == Ledger.Reopen(before, period).db;
      out := Accepted;
    }

    /** Deletes the period's invoices unless a payment refers to one of them. */
    method DeleteInvoices(period: Id) returns (deleted: bool)
      modifies this`invoices
      ensures deleted == !Referenced(old(Tables()), period)
      ensures invoices == if deleted then old(invoices) - OwnInvoices(old(invoices), period) else old(invoices)
    {
      var own := OwnInvoices(invoices, period);
      deleted := !exists p :: p in payments && payments[p].invoice in own;
      if deleted {
        invoices := invoices - own;
      }
    }

    method Close(period: Id) returns (out: Outcome)
      requires Valid()
      modifies this
      ensures Valid()
      ensures Answers(out, Ledger.Close(old(Tables()), period), old(Tables()))
    {
      ghost var before := Tables();
      hide Lifecycle;
      if period !in periods {
        return Rejected(NotFound);
      }
      if periods[period].status != PeriodIssued {
        return Rejected(Conflict);
      }
      periods := periods[period := periods[period].(status := PeriodClosed)];
      CloseKeeps(before, period);
      out := Accepted;
    }

    // ----- Calculation

    /** Replaces the period's shares and invoices, all or nothing. */
    method ReplaceCalculation(period: Id, shares: seq<ShareRow>, rows: seq<Invoice>) returns (ok: bool)
      requires period in periods
      modifies this
      ensures payments == old(payments) && balances == old(balances)
      ensures ok == !Referenced(old(Tables()), period)
      ensures !ok ==> Tables() == old(Tables())
      ensures ok ==>
        && periods == old(periods)[period := old(periods)[period].(shares := shares)]
        && invoices == Inserted(old(invoices) - OwnInvoices(old(invoices), period), old(nextId), rows, |rows|)
        && nextId == old(nextId) + |rows|
    {
      hide Referenced, OwnInvoices;
      ok := DeleteInvoices(period);
      if ok {
        periods := periods[period := periods[period].(shares := shares)];
        ghost var kept := invoices;
        for i := 0 to |rows|
          invariant invoices == Inserted(kept, old(nextId), rows, i) && nextId == old(nextId) + i
          invariant payments == old(payments) && balances == old(balances)
          invariant periods == old(periods)[period := old(periods)[period].(shares := shares)]
        {
          invoices := invoices[nextId := rows[i]];
          nextId := nextId + 1;
        }
      }
    }

    /** One invoice from a unit's charge rows and its stored balance. */
    method ComposeInvoice(period: Id, units: seq<Unit>, lateFee: int -> int, unit: Id, charges: seq<Row>) returns (inv: Invoice)
      requires period in periods && Calculable(periods[period].items, units)
      requires charges == ChargeRows(periods[period].items, units, unit)
      ensures inv == NewInvoice(Tables(), period, units, lateFee, unit)
    {
      hide Calculable, ChargeRows;
      var base := 0;
      for j := 0 to |charges|
        invariant base == RowSum(charges[..j])
      {
        assert charges[..j + 1][..j] == charges[..j];
        base := base + charges[j].amount;
      }
      assert charges[..|charges|] == charges;
      var priorDebt, credit := Snapshot(unit);
      var late := lateFee(base);
      var rows := charges;
      if late > 0 {
        rows := rows + [LateFeeRow(late)];
      } else {
        assert charges + [] == charges;
      }
      inv := Invoice(Draft, periods[period].building, period, unit, base, priorDebt, late, credit,
                     base + priorDebt + late - credit, Unpaid, 0, [], rows);
    }

    /** One invoice for every unit of the building. */
    method ComposeInvoices(period: Id, units: seq<Unit>, lateFee: int -> int, charges: map<Id, seq<Row>>)
      returns (rows: seq<Invoice>)
      requires period in periods && Calculable(periods[period].items, units)
      requires forall unit :: Lines(charges, unit) == ChargeRows(periods[period].items, units, unit)
      ensures |rows| == |units|
      ensures forall k :: 0 <= k < |rows| ==> rows[k] == NewInvoice(Tables(), period, units, lateFee, units[k].id)
    {
      hide Calculable, NewInvoice, ChargeRows, Lines;
      rows := [];
      for i := 0 to |units|
        invariant |rows| == i
        invariant forall k :: 0 <= k < i ==> rows[k] == NewInvoice(Tables(), period, units, lateFee, units[k].id)
      {
        var inv := ComposeInvoice(period, units, lateFee, units[i].id, Lines(charges, units[i].id));
        rows := rows + [inv];
      }
    }

    method Calculate(period: Id, units: seq<Unit>, lateFee: int -> int) returns (out: Outcome)
      requires Valid() && DistinctUnits(units)
      modifies this
      ensures Valid()
      ensures Answers(out, Ledger.CalculatePeriod(old(Tables()), period, units, lateFee), old(Tables()))
    {
      ghost var before := Tables();
      if Ledger.CalculatePeriod(before, period, units, lateFee).Done? {
        CalculateKeeps(before, period, units, lateFee);
      }
      hide Lifecycle, DistinctUnits, Calculable, NewInvoice, ShareRows, ChargeRows, Lines, Referenced, FirstError, Inserted,
           AddInvoices;
      if period !in periods {
        return Rejected(NotFound);
      }
      var p := periods[period];
      if p.status != PeriodDraft && p.status != PeriodCalculated {
        return Rejected(Conflict);
      }
      if p.items == [] || units == [] {
        return Rejected(BadRequest);
      }
      out := RunAndReplace(period, units, lateFee);
    }

    method RunAndReplace(period: Id, units: seq<Unit>, lateFee: int -> int) returns (out: Outcome)
      requires DistinctUnits(units) && period in periods && periods[period].items != [] && units != []
      requires periods[period].status == PeriodDraft || periods[period].status == PeriodCalculated
      modifies this
      ensures Answers(out, Ledger.CalculatePeriod(old(Tables()), period, units, lateFee), old(Tables()))
    {
      hide DistinctUnits, Calculable, NewInvoice, ShareRows, ChargeRows, Lines, Referenced, FirstError, Inserted, AddInvoices,
           OwnInvoices;
      ghost var before := Tables();
      var run := RunItems(periods[period].items, units);
      if run.Err? {
        return Rejected(NotCalculable(run.error));
      }
      var rows := ComposeInvoices(period, units, lateFee, run.value.charges);
      InsertedIsAdded(before, period, units, lateFee, rows, |units|);
      var replaced := ReplaceCalculation(period, run.value.shares, rows);
      if !replaced {
        return Rejected(StillReferenced);
      }
      periods := periods[period := periods[period].(status := PeriodCalculated)];
      out := Accepted;
    }

    // ----- Issuing

    method NumberInvoices(order: seq<Id>, year: int, count: int)
      requires forall i :: 0 <= i < |order| ==> order[i] in invoices
      modifies this`invoices
      ensures invoices == NumberAll(old(invoices), order, year, count)
    {
      ghost var before := invoices;
      assert order[..0] == [];
      for i := 0 to |order|
        invariant invoices == NumberAll(before, order[..i], year, count)
      {
        var sequence := count + i + 1;
        NumberNext(before, order, year, count, i);
        hide NumberAll;
        invoices := invoices[order[i] := invoices[order[i]].(number := Numbered(year, sequence))];
      }
      assert order[..|order|] == order;
    }

    /** Numbers the period's drafts in the order of their units, from the building's count on. */
    method IssueInvoices(period: Id, year: int) returns (issued: seq<Id>)
      requires OnePerUnit(invoices) && period in periods
      modifies this`invoices, this`periods
      ensures issued == ByUnit(old(invoices), OwnInvoices(old(invoices), period))
      ensures invoices == NumberAll(old(invoices), issued, year, |NumberedInvoices(old(invoices), old(periods)[period].building)|)
      ensures periods == old(periods)[period := old(periods)[period].(status := PeriodIssued)]
    {
      hide ByUnit, NumberedInvoices, NumberAll;
      var count := |NumberedInvoices(invoices, periods[period].building)|;
      issued := OrderByUnit(invoices, OwnInvoices(invoices, period));
      NumberInvoices(issued, year, count);
      periods := periods[period := periods[period].(status := PeriodIssued)];
    }

    /** Issues a calculated period and brings the balances of its units up to date, invoice by invoice. */
    method Issue(period: Id, year: int) returns (out: Outcome)
      requires Valid()
      modifies this
      ensures Valid()
      ensures Answers(out, Ledger.Issue(old(Tables()), period, year), old(Tables()))
    {
      ghost var before := Tables();
      assert OnePerUnit(before.invoices);
      hide Lifecycle, OnePerUnit;
      if period !in periods {
        return Rejected(NotFound);
      }
      if periods[period].status != PeriodCalculated {
        return Rejected(Conflict);
      }
      IssueAndRefresh(period, year);
      IssueKeeps(before, period, year);
      hide Ledger.Issue;
      out := Accepted;
    }

    method IssueAndRefresh(period: Id, year: int)
      requires OnePerUnit(invoices) && period in periods && periods[period].status == PeriodCalculated
      modifies this
      ensures Ledger.Issue(old(Tables()), period, year) == Done(Tables())
    {
      hide ByUnit, NumberedInvoices, NumberAll, Derive, OnePerUnit;
      ghost var before := Tables();
      var issued := IssueInvoices(period, year);
      hide OwnInvoices;
      NumberAllUnits(before.invoices, issued, year, |NumberedInvoices(before.invoices, before.periods[period].building)|);
      UnitsAtAll(before.invoices, invoices, issued, period);
      hide UnitsAt, UnitsOf;
      RecomputeBalances(issued);
    }

    method RecomputeBalances(issued: seq<Id>)
      requires forall i :: 0 <= i < |issued| ==> issued[i] in invoices
      modifies this`balances
      ensures balances == Refreshed(old(Tables()), UnitsAt(invoices, issued, |issued|))
    {
      hide Derive, Refreshed, UnitsAt;
      ghost var before := Tables();
      NothingRefreshed(before, issued);
      for i := 0 to |issued|
        invariant balances == Refreshed(before, UnitsAt(before.invoices, issued, i))
      {
        OneRefreshed(before, issued, i);
        RecomputeInvoice(issued[i]);
      }
    }
  }
}
