/** What every service call keeps about periods and invoices: where drafts and numbered invoices
    may be, that numbers run 1..N in each building, and that issued invoices are frozen. */
module LedgerLifecycle {
  import opened Wrappers
  import opened MapSum
  import opened Engine
  import opened Charges
  import opened Ledger

  function ChargeSum(rows: seq<Row>): int {
    if rows == [] then 0
    else ChargeSum(rows[..|rows| - 1]) + if rows[|rows| - 1].ChargeRow? then rows[|rows| - 1].amount else 0
  }

  // ----- The invariant, part by part

  ghost predicate FreshIds(db: Db) {
    && (forall id :: id in db.periods ==> id < db.nextId)
    && (forall id :: id in db.invoices ==> id < db.nextId)
    && (forall id :: id in db.payments ==> id < db.nextId)
  }

  /** Draft periods have no invoices, calculated ones only drafts, issued and closed ones only numbered ones. */
  predicate Placed(periods: map<Id, Period>, inv: Invoice) {
    && inv.period in periods
    && inv.building == periods[inv.period].building
    && periods[inv.period].status != PeriodDraft
    && (periods[inv.period].status == PeriodCalculated <==> inv.number == Draft)
  }

  ghost predicate AllPlaced(db: Db) {
    forall id :: id in db.invoices ==> Placed(db.periods, db.invoices[id])
  }

  ghost predicate DraftsWithoutShares(db: Db) {
    forall p :: p in db.periods && db.periods[p].status == PeriodDraft ==> db.periods[p].shares == []
  }

  ghost predicate OnePerUnit(invoices: map<Id, Invoice>) {
    forall a, b :: a in invoices && b in invoices && a != b && invoices[a].period == invoices[b].period ==>
      invoices[a].unit != invoices[b].unit
  }

  ghost predicate Taken(invoices: map<Id, Invoice>, building: Id, s: int) {
    exists id :: id in NumberedInvoices(invoices, building) && invoices[id].number.sequence == s
  }

  /** The sequence numbers used in a building are exactly 1..N, without gap or repeat. */
  ghost predicate Sequential(invoices: map<Id, Invoice>, building: Id) {
    var used := NumberedInvoices(invoices, building);
    && (forall s :: Taken(invoices, building, s) <==> 1 <= s <= |used|)
    && (forall a, b :: a in used && b in used && a != b ==> invoices[a].number.sequence != invoices[b].number.sequence)
  }

  ghost predicate AllSequential(db: Db) {
    forall building :: Sequential(db.invoices, building)
  }

  /** The invoice identity, with the base made of the charge rows. */
  predicate Composed(inv: Invoice) {
    inv.final == inv.base + inv.prior + inv.late - inv.credit && ChargeSum(inv.rows) == inv.base && inv.paid >= 0
  }

  ghost predicate AllComposed(db: Db) {
    forall id :: id in db.invoices ==> Composed(db.invoices[id])
  }

  ghost predicate PaymentsPoint(db: Db) {
    forall p :: p in db.payments ==>
      && db.payments[p].invoice in db.invoices
      && db.payments[p].unit == db.invoices[db.payments[p].invoice].unit
      && db.payments[p].amount > 0
  }

  ghost predicate Lifecycle(db: Db) {
    && FreshIds(db) && AllPlaced(db) && DraftsWithoutShares(db) && OnePerUnit(db.invoices)
    && AllSequential(db) && AllComposed(db) && PaymentsPoint(db)
  }

  /** Everything about an invoice except what payments, cancellation and notes may change. */
  predicate SameIdentity(a: Invoice, b: Invoice) {
    && a.number == b.number && a.building == b.building && a.period == b.period && a.unit == b.unit
    && a.base == b.base && a.prior == b.prior && a.late == b.late && a.credit == b.credit && a.final == b.final
  }

  // ----- Steps that only touch how an invoice is paid, cancelled or corrected

  /** The same invoices, apart from payment state and notes. */
  ghost predicate SameBook(a: map<Id, Invoice>, b: map<Id, Invoice>) {
    && a.Keys == b.Keys
    && forall id :: id in a ==> SameIdentity(a[id], b[id])
  }

  lemma SameNumbered(a: map<Id, Invoice>, b: map<Id, Invoice>, building: Id)
    requires SameBook(a, b)
    ensures NumberedInvoices(b, building) == NumberedInvoices(a, building)
    ensures forall s :: Taken(b, building, s) <==> Taken(a, building, s)
  {
    forall id
      ensures id in NumberedInvoices(b, building) <==> id in NumberedInvoices(a, building)
    {
      assert id in a ==> SameIdentity(a[id], b[id]);
    }
    forall s
      ensures Taken(b, building, s) <==> Taken(a, building, s)
    {
      if Taken(a, building, s) {
        var id :| id in NumberedInvoices(a, building) && a[id].number.sequence == s;
        assert SameIdentity(a[id], b[id]);
      }
      if Taken(b, building, s) {
        var id :| id in NumberedInvoices(b, building) && b[id].number.sequence == s;
        assert SameIdentity(a[id], b[id]);
      }
    }
  }

  lemma SameBookNumbers(a: map<Id, Invoice>, b: map<Id, Invoice>, building: Id)
    requires SameBook(a, b) && Sequential(a, building)
    ensures Sequential(b, building)
  {
    SameNumbered(a, b, building);
    hide Taken;
    forall x | x in NumberedInvoices(a, building)
      ensures b[x].number == a[x].number
    {
      assert SameIdentity(a[x], b[x]);
    }
  }

  lemma SameBookKeeps(db: Db, after: Db)
    requires Lifecycle(db) && after.periods == db.periods && SameBook(db.invoices, after.invoices)
    requires FreshIds(after) && AllComposed(after) && PaymentsPoint(after)
    ensures Lifecycle(after)
  {
    hide Sequential, Composed;
    forall building
      ensures Sequential(after.invoices, building)
    {
      SameBookNumbers(db.invoices, after.invoices, building);
    }
    assert AllPlaced(after) by {
      hide PaymentsPoint, AllComposed, OnePerUnit;
      forall id | id in after.invoices
        ensures Placed(after.periods, after.invoices[id])
      {
        assert Placed(db.periods, db.invoices[id]);
      }
    }
    assert OnePerUnit(after.invoices);
  }

  /** A change to one invoice's payment state or notes. */
  predicate Touched(a: Invoice, b: Invoice) {
    SameIdentity(a, b) && (Composed(a) ==> Composed(b))
  }

  lemma TouchOne(db: Db, after: Db, id: Id, inv: Invoice)
    requires Lifecycle(db) && id in db.invoices && Touched(db.invoices[id], inv)
    requires after.periods == db.periods && after.invoices == db.invoices[id := inv]
    requires FreshIds(after) && PaymentsPoint(after)
    ensures Lifecycle(after)
  {
    hide Composed;
    SameBookKeeps(db, after);
  }

  lemma BookedIsTouched(inv: Invoice, amount: int)
    requires amount > 0
    ensures var app := ApplyToInvoice(Effective(inv), inv.paid, amount);
            Touched(inv, inv.(paid := inv.paid + app.applied, status := app.status))
  {
  }

  lemma NotedIsTouched(inv: Invoice, note: Note)
    ensures Touched(inv, inv.(notes := inv.notes + [note], rows := inv.rows + [AdjustmentRow(note.amount)]))
  {
  }

  lemma PaymentAdded(db: Db, after: Db, p: Payment)
    requires FreshIds(db) && PaymentsPoint(db)
    requires p.invoice in db.invoices && p.unit == db.invoices[p.invoice].unit && p.amount > 0
    requires after.periods == db.periods && SameBook(db.invoices, after.invoices)
    requires after.payments == db.payments[db.nextId := p] && after.nextId == db.nextId + 1
    ensures FreshIds(after) && PaymentsPoint(after)
  {
  }

  lemma PaymentChanged(db: Db, after: Db, payment: Id, status: PaymentStatus)
    requires FreshIds(db) && PaymentsPoint(db) && payment in db.payments
    requires after.periods == db.periods && SameBook(db.invoices, after.invoices) && after.nextId == db.nextId
    requires after.payments == db.payments[payment := db.payments[payment].(status := status)]
    ensures FreshIds(after) && PaymentsPoint(after)
  {
  }

  lemma PaymentsUnchanged(db: Db, after: Db)
    requires FreshIds(db) && PaymentsPoint(db)
    requires after.periods == db.periods && SameBook(db.invoices, after.invoices) && after.nextId == db.nextId
    requires after.payments == db.payments
    ensures FreshIds(after) && PaymentsPoint(after)
  {
  }

  lemma SameBookOne(invoices: map<Id, Invoice>, id: Id, inv: Invoice)
    requires id in invoices && SameIdentity(invoices[id], inv)
    ensures SameBook(invoices, invoices[id := inv])
  {
  }

  lemma RecordManualKeeps(db: Db, invoice: Id, amount: int)
    requires Lifecycle(db) && RecordManual(db, invoice, amount).Done?
    ensures Lifecycle(RecordManual(db, invoice, amount).db)
  {
    hide FreshIds, AllPlaced, DraftsWithoutShares, OnePerUnit, AllSequential, AllComposed, PaymentsPoint, SameIdentity;
    var after := RecordManual(db, invoice, amount).db;
    var inv := db.invoices[invoice];
    BookedIsTouched(inv, amount);
    SameBookOne(db.invoices, invoice, after.invoices[invoice]);
    PaymentAdded(db, after, Payment(inv.unit, invoice, false, amount, Verified));
    TouchOne(db, after, invoice, after.invoices[invoice]);
  }

  lemma StartGatewayKeeps(db: Db, invoice: Id, requested: Option<int>, gatewayUp: bool)
    requires Lifecycle(db) && StartGateway(db, invoice, requested, gatewayUp).Done?
    ensures Lifecycle(StartGateway(db, invoice, requested, gatewayUp).db)
  {
  }

  lemma CallbackKeeps(db: Db, payment: Id, verified: bool)
    requires Lifecycle(db) && HandleCallback(db, payment, verified).Done?
    ensures Lifecycle(HandleCallback(db, payment, verified).db)
  {
    hide FreshIds, AllPlaced, DraftsWithoutShares, OnePerUnit, AllSequential, AllComposed, PaymentsPoint, SameIdentity, SameBook,
         Touched, Derive, Effective;
    var after := HandleCallback(db, payment, verified).db;
    var p := db.payments[payment];
    PaymentPoints(db, payment);
    if p.status == Recorded && p.gateway {
      SameBookSelf(db.invoices);
      if verified {
        BookedIsTouched(db.invoices[p.invoice], p.amount);
        TouchedIsSame(db.invoices[p.invoice], after.invoices[p.invoice]);
        SameBookOne(db.invoices, p.invoice, after.invoices[p.invoice]);
        PaymentChanged(db, after, payment, Verified);
        TouchOne(db, after, p.invoice, after.invoices[p.invoice]);
      } else {
        PaymentChanged(db, after, payment, Failed);
        SameComposed(db, after);
        SameBookKeeps(db, after);
      }
    }
  }

  lemma PaymentPoints(db: Db, payment: Id)
    requires PaymentsPoint(db) && payment in db.payments
    ensures db.payments[payment].invoice in db.invoices && db.payments[payment].amount > 0
    ensures db.payments[payment].unit == db.invoices[db.payments[payment].invoice].unit
  {
  }

  lemma SameBookSelf(invoices: map<Id, Invoice>)
    ensures SameBook(invoices, invoices)
  {
  }

  lemma SameComposed(db: Db, after: Db)
    requires AllComposed(db) && after.invoices == db.invoices
    ensures AllComposed(after)
  {
  }

  lemma TouchedIsSame(a: Invoice, b: Invoice)
    requires Touched(a, b)
    ensures SameIdentity(a, b)
  {
  }

  lemma CancelKeeps(db: Db, invoice: Id)
    requires Lifecycle(db) && CancelInvoice(db, invoice).Done?
    ensures Lifecycle(CancelInvoice(db, invoice).db)
  {
    var after := CancelInvoice(db, invoice).db;
    SameBookOne(db.invoices, invoice, after.invoices[invoice]);
    PaymentsUnchanged(db, after);
    hide FreshIds, AllPlaced, DraftsWithoutShares, OnePerUnit, AllSequential, AllComposed, PaymentsPoint;
    TouchOne(db, after, invoice, after.invoices[invoice]);
  }

  lemma AdjustKeeps(db: Db, invoice: Id, note: Note, reasonGiven: bool)
    requires Lifecycle(db) && AddAdjustment(db, invoice, note, reasonGiven).Done?
    ensures Lifecycle(AddAdjustment(db, invoice, note, reasonGiven).db)
  {
    hide FreshIds, AllPlaced, DraftsWithoutShares, OnePerUnit, AllSequential, AllComposed, PaymentsPoint, SameIdentity;
    var after := AddAdjustment(db, invoice, note, reasonGiven).db;
    NotedIsTouched(db.invoices[invoice], note);
    SameBookOne(db.invoices, invoice, after.invoices[invoice]);
    PaymentsUnchanged(db, after);
    TouchOne(db, after, invoice, after.invoices[invoice]);
  }

  // ----- Steps on periods

  lemma CreatePeriodKeeps(db: Db, building: Id)
    requires Lifecycle(db)
    ensures Lifecycle(CreatePeriod(db, building).db)
  {
  }

  lemma EditItemsKeeps(db: Db, period: Id, items: seq<PeriodItem>)
    requires Lifecycle(db) && EditItems(db, period, items).Done?
    ensures Lifecycle(EditItems(db, period, items).db)
  {
  }

  lemma CloseKeeps(db: Db, period: Id)
    requires Lifecycle(db) && Close(db, period).Done?
    ensures Lifecycle(Close(db, period).db)
  {
  }

  /** The same numbered invoices; drafts may come and go. */
  ghost predicate SameNumberedRows(a: map<Id, Invoice>, b: map<Id, Invoice>) {
    forall id :: (id in a && a[id].number.Numbered?) || (id in b && b[id].number.Numbered?) ==>
      id in a && id in b && a[id].number == b[id].number && a[id].building == b[id].building
  }

  lemma SameNumberedRowsSequential(a: map<Id, Invoice>, b: map<Id, Invoice>, building: Id)
    requires SameNumberedRows(a, b) && Sequential(a, building)
    ensures Sequential(b, building)
  {
    var used := NumberedInvoices(a, building);
    forall id
      ensures id in NumberedInvoices(b, building) <==> id in used
    {
      assert id in a && a[id].number.Numbered? ==> id in b && b[id].building == a[id].building;
      assert id in b && b[id].number.Numbered? ==> id in a && b[id].building == a[id].building;
    }
    assert NumberedInvoices(b, building) == used;
    forall s
      ensures Taken(b, building, s) <==> Taken(a, building, s)
    {
      if Taken(a, building, s) {
        var id :| id in used && a[id].number.sequence == s;
        assert id in NumberedInvoices(b, building);
      }
      if Taken(b, building, s) {
        var id :| id in NumberedInvoices(b, building) && b[id].number.sequence == s;
        assert id in used;
      }
    }
    hide Taken;
  }

  lemma DiscardKeepsNumbers(db: Db, period: Id)
    requires AllPlaced(db) && AllSequential(db) && period in db.periods && db.periods[period].status == PeriodCalculated
    ensures forall building :: Sequential(db.invoices - OwnInvoices(db.invoices, period), building)
  {
    hide Sequential;
    var own := OwnInvoices(db.invoices, period);
    var rest := db.invoices - own;
    forall id | id in db.invoices && db.invoices[id].number.Numbered?
      ensures id in rest && rest[id] == db.invoices[id]
    {
      assert Placed(db.periods, db.invoices[id]);
      assert id !in own;
    }
    assert SameNumberedRows(db.invoices, rest);
    hide SameNumberedRows;
    forall building
      ensures Sequential(rest, building)
    {
      SameNumberedRowsSequential(db.invoices, rest, building);
    }
  }

  lemma ReopenKeeps(db: Db, period: Id)
    requires Lifecycle(db) && Reopen(db, period).Done?
    ensures Lifecycle(Reopen(db, period).db)
  {
    hide Sequential, Composed;
    var after := Reopen(db, period).db;
    DiscardKeepsNumbers(db, period);
    assert PaymentsPoint(after) by {
      hide AllPlaced, OnePerUnit, AllComposed;
      forall p | p in after.payments
        ensures after.payments[p].invoice in after.invoices
      {
        assert db.payments[p].invoice !in OwnInvoices(db.invoices, period);
      }
    }
    assert AllPlaced(after) by {
      hide PaymentsPoint, OnePerUnit, AllComposed;
      forall id | id in after.invoices
        ensures Placed(after.periods, after.invoices[id])
      {
        assert Placed(db.periods, db.invoices[id]);
      }
    }
    hide Placed, PaymentsPoint;
  }

  // ----- Calculation

  /** What the invoices look like after `n` of the units have got theirs. */
  lemma {:induction false} AddInvoicesAre(db: Db, period: Id, units: seq<Unit>, lateFee: int -> int, n: nat)
    requires n <= |units| && period in db.periods && Calculable(db.periods[period].items, units)
    requires forall id :: id in db.invoices ==> id < db.nextId
    ensures var m := AddInvoices(db, period, units, lateFee, n);
            && (forall id :: id in m <==>
                  (id in db.invoices && db.invoices[id].period != period) || db.nextId <= id < db.nextId + n)
            && (forall id :: id in db.invoices && db.invoices[id].period != period ==> m[id] == db.invoices[id])
            && (forall id :: db.nextId <= id < db.nextId + n ==>
                  m[id] == NewInvoice(db, period, units, lateFee, units[id - db.nextId].id))
  {
    hide Calculable, NewInvoice;
    if n > 0 {
      var last := n - 1;
      AddInvoicesAre(db, period, units, lateFee, last);
      var key := db.nextId + last;
      assert AddInvoices(db, period, units, lateFee, n)
          == AddInvoices(db, period, units, lateFee, last)[key := NewInvoice(db, period, units, lateFee, units[last].id)];
      hide AddInvoices;
    }
  }

  lemma ChargeSumAppend(a: seq<Row>, row: Row)
    ensures ChargeSum(a + [row]) == ChargeSum(a) + if row.ChargeRow? then row.amount else 0
  {
  }

  lemma {:induction false} ChargesOnly(rows: seq<Row>)
    requires forall k :: 0 <= k < |rows| ==> rows[k].ChargeRow?
    ensures ChargeSum(rows) == RowSum(rows)
  {
    if rows != [] {
      ChargesOnly(rows[..|rows| - 1]);
    }
  }

  lemma {:induction false} ChargeRowsAreCharges(items: seq<PeriodItem>, units: seq<Unit>, unit: Id)
    requires Calculable(items, units)
    ensures forall k :: 0 <= k < |ChargeRows(items, units, unit)| ==> ChargeRows(items, units, unit)[k].ChargeRow?
  {
    hide ItemSpec;
    if items != [] {
      ChargeRowsAreCharges(items[..|items| - 1], units, unit);
    }
  }

  /** Every new invoice satisfies the invoice identity. */
  lemma NewInvoiceComposed(db: Db, period: Id, units: seq<Unit>, lateFee: int -> int, unit: Id)
    requires period in db.periods && Calculable(db.periods[period].items, units)
    ensures Composed(NewInvoice(db, period, units, lateFee, unit))
    ensures DraftFor(NewInvoice(db, period, units, lateFee, unit), db.periods[period].building, period, unit)
  {
    hide Calculable;
    var charges := ChargeRows(db.periods[period].items, units, unit);
    ChargeRowsAreCharges(db.periods[period].items, units, unit);
    ChargesOnly(charges);
    var late := lateFee(RowSum(charges));
    if late > 0 {
      ChargeSumAppend(charges, LateFeeRow(late));
    } else {
      assert charges + [] == charges;
    }
  }

  /** A draft of the period for a unit. */
  predicate DraftFor(inv: Invoice, building: Id, period: Id, unit: Id) {
    inv.number == Draft && inv.building == building && inv.period == period && inv.unit == unit && inv.paid == 0
  }

  /** A calculation replaces the period's invoices by one draft per unit and leaves the others alone. */
  ghost predicate Recalculated(db: Db, after: Db, period: Id, units: seq<Unit>) {
    && period in db.periods
    && (db.periods[period].status == PeriodDraft || db.periods[period].status == PeriodCalculated)
    && after.periods.Keys == db.periods.Keys
    && (forall p :: p in db.periods && p != period ==> after.periods[p] == db.periods[p])
    && after.periods[period].status == PeriodCalculated && after.periods[period].building == db.periods[period].building
    && after.payments == db.payments && after.balances == db.balances && after.nextId == db.nextId + |units|
    && (forall id :: id in after.invoices <==>
          (id in db.invoices && db.invoices[id].period != period) || db.nextId <= id < db.nextId + |units|)
    && (forall id :: id in db.invoices && db.invoices[id].period != period ==> after.invoices[id] == db.invoices[id])
    && (forall id :: db.nextId <= id < db.nextId + |units| ==>
          DraftFor(after.invoices[id], db.periods[period].building, period, units[id - db.nextId].id)
          && Composed(after.invoices[id]))
  }

  lemma CalculateIs(db: Db, period: Id, units: seq<Unit>, lateFee: int -> int)
    requires FreshIds(db) && CalculatePeriod(db, period, units, lateFee).Done?
    ensures Recalculated(db, CalculatePeriod(db, period, units, lateFee).db, period, units)
    ensures !Referenced(db, period)
  {
    hide Composed, Calculable, ShareRows, Referenced, NewInvoice, DraftFor, FirstError;
    var after := CalculatePeriod(db, period, units, lateFee).db;
    AddInvoicesAre(db, period, units, lateFee, |units|);
    hide AddInvoices, CalculatePeriod;
    forall id | db.nextId <= id < db.nextId + |units|
      ensures DraftFor(after.invoices[id], db.periods[period].building, period, units[id - db.nextId].id)
      ensures Composed(after.invoices[id])
    {
      NewInvoiceComposed(db, period, units, lateFee, units[id - db.nextId].id);
    }
  }

  lemma RecalculatedKeepsNumbers(db: Db, after: Db, period: Id, units: seq<Unit>)
    requires FreshIds(db) && AllPlaced(db) && AllSequential(db) && Recalculated(db, after, period, units)
    ensures AllSequential(after)
  {
    hide Sequential, Composed;
    assert SameNumberedRows(db.invoices, after.invoices) by {
      forall id | id in db.invoices && db.invoices[id].number.Numbered?
        ensures db.invoices[id].period != period
      {
        assert Placed(db.periods, db.invoices[id]);
      }
    }
    hide AllPlaced, Recalculated, SameNumberedRows;
    forall building
      ensures Sequential(after.invoices, building)
    {
      SameNumberedRowsSequential(db.invoices, after.invoices, building);
    }
  }

  lemma RecalculatedKeepsPlaces(db: Db, after: Db, period: Id, units: seq<Unit>)
    requires FreshIds(db) && AllPlaced(db) && DraftsWithoutShares(db) && AllComposed(db)
    requires Recalculated(db, after, period, units)
    ensures FreshIds(after) && AllPlaced(after) && DraftsWithoutShares(after) && AllComposed(after)
  {
  }

  lemma RecalculatedKeepsPayments(db: Db, after: Db, period: Id, units: seq<Unit>)
    requires PaymentsPoint(db) && !Referenced(db, period) && Recalculated(db, after, period, units)
    ensures PaymentsPoint(after)
  {
  }

  lemma RecalculatedKeepsUnits(db: Db, after: Db, period: Id, units: seq<Unit>)
    requires FreshIds(db) && OnePerUnit(db.invoices) && DistinctUnits(units) && Recalculated(db, after, period, units)
    ensures OnePerUnit(after.invoices)
  {
  }

  lemma CalculateKeeps(db: Db, period: Id, units: seq<Unit>, lateFee: int -> int)
    requires Lifecycle(db) && DistinctUnits(units) && CalculatePeriod(db, period, units, lateFee).Done?
    ensures Lifecycle(CalculatePeriod(db, period, units, lateFee).db)
  {
    var after := CalculatePeriod(db, period, units, lateFee).db;
    CalculateIs(db, period, units, lateFee);
    hide FreshIds, AllPlaced, DraftsWithoutShares, OnePerUnit, AllSequential, AllComposed, PaymentsPoint, Recalculated,
         CalculatePeriod, DistinctUnits;
    RecalculatedKeepsNumbers(db, after, period, units);
    RecalculatedKeepsPlaces(db, after, period, units);
    RecalculatedKeepsPayments(db, after, period, units);
    RecalculatedKeepsUnits(db, after, period, units);
  }

  // ----- Issuing

  /** Issuing numbers the period's invoices, in the given order, from `count + 1` on and changes no other invoice. */
  ghost predicate NumberedInOrder(a: map<Id, Invoice>, b: map<Id, Invoice>, order: seq<Id>, year: int, count: int) {
    && b.Keys == a.Keys
    && (forall i :: 0 <= i < |order| ==> order[i] in a && b[order[i]] == a[order[i]].(number := Numbered(year, count + 1 + i)))
    && (forall id :: id in a && id !in order ==> b[id] == a[id])
  }

  lemma {:induction false} NumberAllNumbers(invoices: map<Id, Invoice>, order: seq<Id>, year: int, count: int)
    requires forall i :: 0 <= i < |order| ==> order[i] in invoices
    requires forall i, j :: 0 <= i < j < |order| ==> order[i] != order[j]
    ensures NumberedInOrder(invoices, NumberAll(invoices, order, year, count), order, year, count)
  {
    if order != [] {
      var last := |order| - 1;
      var before := order[..last];
      NumberAllNumbers(invoices, before, year, count);
      var m := NumberAll(invoices, before, year, count);
      assert order == before + [order[last]];
      assert order[last] !in before;
      var after := m[order[last] := m[order[last]].(number := Numbered(year, count + |order|))];
      assert NumberAll(invoices, order, year, count) == after;
      hide NumberAll;
      forall i | 0 <= i < |order|
        ensures after[order[i]] == invoices[order[i]].(number := Numbered(year, count + 1 + i))
      {
        assert i < last ==> before[i] == order[i] && order[i] != order[last];
      }
    }
  }

  /** Numbers handed out from the building's count on extend 1..N to 1..N + n. */
  lemma IssueExtends(a: map<Id, Invoice>, b: map<Id, Invoice>, order: seq<Id>, own: set<Id>, building: Id, year: int)
    requires Sequential(a, building)
    requires NumberedInOrder(a, b, order, year, |NumberedInvoices(a, building)|)
    requires forall i, j :: 0 <= i < j < |order| ==> order[i] != order[j]
    requires |order| == |own| && forall id :: id in order <==> id in own
    requires forall id :: id in own ==> id in a && a[id].building == building && a[id].number == Draft
    ensures Sequential(b, building)
    ensures NumberedInvoices(b, building) == NumberedInvoices(a, building) + own
  {
    var used := NumberedInvoices(a, building);
    var after := NumberedInvoices(b, building);
    forall id
      ensures id in after <==> id in used || id in own
    {
      if id in own {
        var i :| 0 <= i < |order| && order[i] == id;
      }
    }
    assert after == used + own;
    assert |after| == |used| + |own| by {
      assert forall id :: id in own ==> id !in used;
    }
    forall id | id in own
      ensures exists i :: 0 <= i < |order| && id == order[i] && b[id].number.sequence == |used| + 1 + i
    {
      var i :| 0 <= i < |order| && order[i] == id;
    }
    forall s
      ensures Taken(b, building, s) <==> 1 <= s <= |after|
    {
      TakenAfterIssue(a, b, order, own, building, year, s);
    }
    forall x, y | x in after && y in after && x != y
      ensures b[x].number.sequence != b[y].number.sequence
    {
      assert x in used ==> Taken(a, building, a[x].number.sequence);
      assert y in used ==> Taken(a, building, a[y].number.sequence);
    }
  }

  lemma TakenAfterIssue(
    a: map<Id, Invoice>, b: map<Id, Invoice>, order: seq<Id>, own: set<Id>, building: Id, year: int, s: int)
    requires Sequential(a, building)
    requires NumberedInOrder(a, b, order, year, |NumberedInvoices(a, building)|)
    requires |order| == |own| && forall id :: id in order <==> id in own
    requires forall id :: id in own ==> id in a && a[id].building == building && a[id].number == Draft
    requires NumberedInvoices(b, building) == NumberedInvoices(a, building) + own
    ensures Taken(b, building, s) <==> 1 <= s <= |NumberedInvoices(a, building)| + |own|
  {
    var used := NumberedInvoices(a, building);
    if Taken(b, building, s) {
      var id :| id in NumberedInvoices(b, building) && b[id].number.sequence == s;
      if id in own {
        var i :| 0 <= i < |order| && order[i] == id;
      } else {
        assert Taken(a, building, s);
      }
    }
    if 1 <= s <= |used| {
      assert Taken(a, building, s);
      var id :| id in used && a[id].number.sequence == s;
      assert b[id].number.sequence == s;
    } else if |used| < s <= |used| + |own| {
      var i := s - |used| - 1;
      var id := order[i];
      assert id in order;
      assert id in own;
      assert id in NumberedInvoices(b, building);
      assert b[id].number.sequence == s;
    }
  }

  /** The other buildings' numbers stay. */
  lemma IssueElsewhere(a: map<Id, Invoice>, b: map<Id, Invoice>, order: seq<Id>, building: Id, other: Id, year: int, count: int)
    requires Sequential(a, other) && other != building && NumberedInOrder(a, b, order, year, count)
    requires forall i :: 0 <= i < |order| ==> order[i] in a && a[order[i]].building == building
    ensures Sequential(b, other)
  {
    assert forall i :: 0 <= i < |order| ==> b[order[i]].building == building;
    SameNumberedHere(a, b, other);
  }

  lemma SameNumberedHere(a: map<Id, Invoice>, b: map<Id, Invoice>, building: Id)
    requires Sequential(a, building)
    requires forall id :: id in a && a[id].building == building ==> id in b && b[id] == a[id]
    requires forall id :: id in b && b[id].building == building ==> id in a && b[id] == a[id]
    ensures Sequential(b, building)
  {
    var used := NumberedInvoices(a, building);
    forall id
      ensures id in NumberedInvoices(b, building) <==> id in used
    {
      assert id in a && a[id].building == building ==> id in b && b[id] == a[id];
      assert id in b && b[id].building == building ==> id in a && b[id] == a[id];
    }
    assert NumberedInvoices(b, building) == used;
    forall s
      ensures Taken(b, building, s) <==> Taken(a, building, s)
    {
      if Taken(a, building, s) {
        var id :| id in used && a[id].number.sequence == s;
        assert b[id] == a[id];
      }
      if Taken(b, building, s) {
        var id :| id in NumberedInvoices(b, building) && b[id].number.sequence == s;
        assert b[id] == a[id];
      }
    }
    hide Taken;
  }

  /** What issuing does to the tables, apart from the balances. */
  ghost predicate IssuedAs(db: Db, after: Db, period: Id, year: int, order: seq<Id>) {
    && period in db.periods && db.periods[period].status == PeriodCalculated
    && after.periods == db.periods[period := db.periods[period].(status := PeriodIssued)]
    && after.payments == db.payments && after.nextId == db.nextId
    && |order| == |OwnInvoices(db.invoices, period)|
    && (forall id :: id in order <==> id in OwnInvoices(db.invoices, period))
    && (forall i, j :: 0 <= i < j < |order| ==> order[i] != order[j])
    && NumberedInOrder(db.invoices, after.invoices, order, year,
                       |NumberedInvoices(db.invoices, db.periods[period].building)|)
  }

  lemma IssueIs(db: Db, period: Id, year: int) returns (order: seq<Id>)
    requires Issue(db, period, year).Done?
    ensures order == ByUnit(db.invoices, OwnInvoices(db.invoices, period))
    ensures IssuedAs(db, Issue(db, period, year).db, period, year, order)
  {
    hide NumberedInOrder, Derive, ByUnit, NumberAll;
    order := ByUnit(db.invoices, OwnInvoices(db.invoices, period));
    NumberAllNumbers(db.invoices, order, year, |NumberedInvoices(db.invoices, db.periods[period].building)|);
    hide NumberedInvoices, UnitsOf;
  }

  lemma IssueKeepsNumbers(db: Db, after: Db, period: Id, year: int, order: seq<Id>)
    requires AllPlaced(db) && AllSequential(db) && IssuedAs(db, after, period, year, order)
    ensures AllSequential(after)
  {
    hide Sequential, NumberedInOrder;
    var own := OwnInvoices(db.invoices, period);
    var building := db.periods[period].building;
    forall id | id in own
      ensures db.invoices[id].building == building && db.invoices[id].number == Draft
    {
      assert Placed(db.periods, db.invoices[id]);
    }
    forall other
      ensures Sequential(after.invoices, other)
    {
      if other == building {
        IssueExtends(db.invoices, after.invoices, order, own, building, year);
      } else {
        forall i | 0 <= i < |order|
          ensures order[i] in db.invoices && db.invoices[order[i]].building == building
        {
          assert order[i] in order;
        }
        IssueElsewhere(db.invoices, after.invoices, order, building, other, year, |NumberedInvoices(db.invoices, building)|);
      }
    }
  }

  /** Except for its number an invoice stays as it was. */
  lemma IssuedInvoice(db: Db, after: Db, period: Id, year: int, order: seq<Id>, id: Id)
    requires AllPlaced(db) && IssuedAs(db, after, period, year, order) && id in db.invoices
    ensures id in after.invoices
    ensures after.invoices[id] == db.invoices[id].(number := after.invoices[id].number)
    ensures after.invoices[id].number.Numbered? <==> db.invoices[id].number.Numbered? || db.invoices[id].period == period
    ensures db.invoices[id].number.Numbered? ==> after.invoices[id] == db.invoices[id]
  {
    assert Placed(db.periods, db.invoices[id]);
    if id in order {
      var i :| 0 <= i < |order| && order[i] == id;
    }
  }

  lemma IssuedKeepsRest(db: Db, after: Db, period: Id, year: int, order: seq<Id>)
    requires Lifecycle(db) && IssuedAs(db, after, period, year, order)
    ensures FreshIds(after) && AllPlaced(after) && DraftsWithoutShares(after)
    ensures AllComposed(after) && PaymentsPoint(after)
  {
    assert after.invoices.Keys == db.invoices.Keys;
    forall id | id in after.invoices
      ensures Placed(after.periods, after.invoices[id]) && Composed(after.invoices[id])
      ensures after.invoices[id] == db.invoices[id].(number := after.invoices[id].number)
    {
      assert Placed(db.periods, db.invoices[id]) && Composed(db.invoices[id]);
      IssuedInvoice(db, after, period, year, order, id);
    }
    hide NumberedInOrder, Composed, Placed, Sequential, OnePerUnit;
  }

  lemma IssuedKeepsUnits(db: Db, after: Db, period: Id, year: int, order: seq<Id>)
    requires AllPlaced(db) && OnePerUnit(db.invoices) && IssuedAs(db, after, period, year, order)
    ensures OnePerUnit(after.invoices)
  {
  }

  lemma IssueKeeps(db: Db, period: Id, year: int)
    requires Lifecycle(db) && Issue(db, period, year).Done?
    ensures Lifecycle(Issue(db, period, year).db)
  {
    var after := Issue(db, period, year).db;
    var order := IssueIs(db, period, year);
    IssuedKeepsRest(db, after, period, year, order);
    hide FreshIds, AllPlaced, DraftsWithoutShares, OnePerUnit, AllSequential, AllComposed, PaymentsPoint, IssuedAs, Issue;
    IssueKeepsNumbers(db, after, period, year, order);
    IssuedKeepsUnits(db, after, period, year, order);
  }

  // ----- Every run

  lemma StepKeeps(db: Db, step: Step)
    requires Lifecycle(db) && WellFormed(step)
    ensures Lifecycle(Apply(db, step))
  {
    hide Lifecycle, CreatePeriod, EditItems, CalculatePeriod, Reopen, Issue, Close, CancelInvoice, AddAdjustment,
         RecordManual, StartGateway, HandleCallback, Recompute, DistinctUnits;
    if Call(db, step).Done? {
      match step
      case DoCreatePeriod(building) => CreatePeriodKeeps(db, building);
      case DoEditItems(period, items) => EditItemsKeeps(db, period, items);
      case DoCalculate(period, units, lateFee) => CalculateKeeps(db, period, units, lateFee);
      case DoReopen(period) => ReopenKeeps(db, period);
      case DoIssue(period, year) => IssueKeeps(db, period, year);
      case DoClose(period) => CloseKeeps(db, period);
      case DoCancel(invoice) => CancelKeeps(db, invoice);
      case DoAdjust(invoice, note, reasonGiven) => AdjustKeeps(db, invoice, note, reasonGiven);
      case DoRecordManual(invoice, amount) => RecordManualKeeps(db, invoice, amount);
      case DoStartGateway(invoice, requested, gatewayUp) => StartGatewayKeeps(db, invoice, requested, gatewayUp);
      case DoCallback(payment, verified) => CallbackKeeps(db, payment, verified);
      case DoReadBalance(unit) => RecomputeKeeps(db, unit);
    }
  }

  lemma RecomputeKeeps(db: Db, unit: Id)
    requires Lifecycle(db)
    ensures Lifecycle(Recompute(db, unit))
  {
  }

  lemma EmptyKeeps()
    ensures Lifecycle(EMPTY_DB)
  {
  }

  lemma {:induction false} RunKeeps(db: Db, steps: seq<Step>)
    requires Lifecycle(db) && forall i :: 0 <= i < |steps| ==> WellFormed(steps[i])
    ensures Lifecycle(Run(db, steps))
  {
    if steps != [] {
      RunKeeps(db, steps[..|steps| - 1]);
      hide Lifecycle, Apply, WellFormed;
      StepKeeps(Run(db, steps[..|steps| - 1]), steps[|steps| - 1]);
    }
  }

  /** The lifecycle invariant holds in every reachable state. */
  lemma {:induction false} ReachableLifecycle(steps: seq<Step>)
    requires forall i :: 0 <= i < |steps| ==> WellFormed(steps[i])
    ensures Lifecycle(Run(EMPTY_DB, steps))
  {
    EmptyKeeps();
    RunKeeps(EMPTY_DB, steps);
  }

  /** Draft to calculated and back, then issued, then closed. */
  predicate MayFollow(before: PeriodStatus, after: PeriodStatus) {
    || before == after
    || (before == PeriodDraft && after == PeriodCalculated)
    || (before == PeriodCalculated && (after == PeriodDraft || after == PeriodIssued))
    || (before == PeriodIssued && after == PeriodClosed)
  }

  /** No step moves a period anywhere else, deletes one or gives it to another building; the items change only
      in a draft. */
  lemma PeriodMoves(db: Db, step: Step, p: Id)
    requires FreshIds(db) && p in db.periods
    ensures var after := Apply(db, step);
            && p in after.periods && after.periods[p].building == db.periods[p].building
            && MayFollow(db.periods[p].status, after.periods[p].status)
            && (after.periods[p].items != db.periods[p].items ==>
                  db.periods[p].status == PeriodDraft && after.periods[p].status == PeriodDraft)
  {
    hide KeepShares, AddInvoices, ShareRows, Calculable, Referenced, FirstError, NumberAll, ByUnit, NumberedInvoices, Derive,
         ApplyToInvoice, Effective, WellFormed;
    if Call(db, step).Done? && OnInvoicesOnly(step) {
      TouchesNoPeriod(db, step);
      hide Call;
    }
  }

  lemma TouchesNoPeriod(db: Db, step: Step)
    requires OnInvoicesOnly(step)
    ensures Apply(db, step).periods == db.periods
  {
    hide Derive, ApplyToInvoice, Effective, CalculatePeriod, Issue;
  }

  // ----- Issued invoices and closed periods are frozen

  predicate Frozen(p: Period) {
    p.status == PeriodIssued || p.status == PeriodClosed
  }

  /** Numbered invoices persist with the same identity, issued periods keep items and shares. */
  ghost predicate Freezes(db: Db, after: Db) {
    && (forall id :: id in db.invoices && db.invoices[id].number.Numbered? ==>
          && id in after.invoices && SameIdentity(db.invoices[id], after.invoices[id])
          && db.invoices[id].notes <= after.invoices[id].notes
          && ChargeSum(after.invoices[id].rows) == ChargeSum(db.invoices[id].rows))
    && (forall p :: p in db.periods && Frozen(db.periods[p]) ==>
          && p in after.periods && Frozen(after.periods[p])
          && after.periods[p].items == db.periods[p].items && after.periods[p].shares == db.periods[p].shares)
  }

  lemma StepFreezes(db: Db, step: Step)
    requires Lifecycle(db) && WellFormed(step)
    ensures Freezes(db, Apply(db, step))
  {
    assert FreshIds(db);
    SameFreezes(db, db);
    hide Lifecycle, FreshIds, Freezes, DistinctUnits;
    if Call(db, step).Done? {
      hide CalculatePeriod, Issue, Recompute, KeepShares, Referenced, ApplyToInvoice, Effective;
      match step
      case DoCalculate(period, units, lateFee) => CalculateFreezes(db, period, units, lateFee);
      case DoReopen(period) => ReopenFreezes(db, period);
      case DoIssue(period, year) => IssueFreezes(db, period, year);
      case DoCreatePeriod(_) => OpenPeriodFreezes(db, Apply(db, step), db.nextId);
      case DoEditItems(period, _) => OpenPeriodFreezes(db, Apply(db, step), period);
      case DoClose(period) => CloseFreezes(db, period);
      case _ => TouchFreezes(db, step);
    }
  }

  predicate OnInvoicesOnly(step: Step) {
    step.DoCancel? || step.DoAdjust? || step.DoRecordManual? || step.DoStartGateway? || step.DoCallback? || step.DoReadBalance?
  }

  lemma TouchFreezes(db: Db, step: Step)
    requires OnInvoicesOnly(step)
    ensures Freezes(db, Apply(db, step))
  {
    hide Freezes, Derive, ApplyToInvoice, Effective, ChargeSum;
    SameFreezes(db, db);
    if Call(db, step).Done? {
      var after := Apply(db, step);
      match step
      case DoCancel(invoice) => OneFreezes(db, after, invoice, after.invoices[invoice]);
      case DoAdjust(invoice, note, reasonGiven) =>
        ChargeSumAppend(db.invoices[invoice].rows, AdjustmentRow(note.amount));
        OneFreezes(db, after, invoice, after.invoices[invoice]);
      case DoRecordManual(invoice, amount) => OneFreezes(db, after, invoice, after.invoices[invoice]);
      case DoCallback(payment, verified) =>
        var invoice := db.payments[payment].invoice;
        if invoice in db.invoices {
          OneFreezes(db, after, invoice, after.invoices[invoice]);
        } else {
          SameFreezes(db, after);
        }
      case _ => SameFreezes(db, after);
    }
  }

  lemma SameFreezes(db: Db, after: Db)
    requires after.periods == db.periods && after.invoices == db.invoices
    ensures Freezes(db, after)
  {
  }

  lemma OneFreezes(db: Db, after: Db, id: Id, inv: Invoice)
    requires id in db.invoices && SameIdentity(db.invoices[id], inv)
    requires db.invoices[id].notes <= inv.notes && ChargeSum(inv.rows) == ChargeSum(db.invoices[id].rows)
    requires after.periods == db.periods && after.invoices == db.invoices[id := inv]
    ensures Freezes(db, after)
  {
  }

  lemma OpenPeriodFreezes(db: Db, after: Db, period: Id)
    requires period in db.periods ==> !Frozen(db.periods[period])
    requires after.invoices == db.invoices && period in after.periods
    requires after.periods == db.periods[period := after.periods[period]]
    ensures Freezes(db, after)
  {
  }

  lemma CloseFreezes(db: Db, period: Id)
    requires Close(db, period).Done?
    ensures Freezes(db, Close(db, period).db)
  {
  }

  lemma CalculateFreezes(db: Db, period: Id, units: seq<Unit>, lateFee: int -> int)
    requires Lifecycle(db) && DistinctUnits(units) && CalculatePeriod(db, period, units, lateFee).Done?
    ensures Freezes(db, CalculatePeriod(db, period, units, lateFee).db)
  {
    CalculateIs(db, period, units, lateFee);
    hide CalculatePeriod, DistinctUnits, Sequential, Composed, ChargeSum, DraftFor;
    forall id | id in db.invoices && db.invoices[id].number.Numbered?
      ensures db.invoices[id].period != period
    {
      assert Placed(db.periods, db.invoices[id]);
    }
  }

  lemma ReopenFreezes(db: Db, period: Id)
    requires Lifecycle(db) && Reopen(db, period).Done?
    ensures Freezes(db, Reopen(db, period).db)
  {
  }

  lemma IssueFreezes(db: Db, period: Id, year: int)
    requires Lifecycle(db) && Issue(db, period, year).Done?
    ensures Freezes(db, Issue(db, period, year).db)
  {
    hide Sequential, Composed, ChargeSum;
    var after := Issue(db, period, year).db;
    var order := IssueIs(db, period, year);
    forall id | id in db.invoices && db.invoices[id].number.Numbered?
      ensures id in after.invoices && after.invoices[id] == db.invoices[id]
    {
      IssuedInvoice(db, after, period, year, order, id);
    }
    hide IssuedAs, NumberedInOrder;
  }

  lemma FreezesTransitive(a: Db, b: Db, c: Db)
    requires Freezes(a, b) && Freezes(b, c)
    ensures Freezes(a, c)
  {
  }

  /** Over any run, what was issued stays issued with the same number, amounts, charges and shares. */
  lemma {:induction false} RunFreezes(db: Db, steps: seq<Step>)
    requires Lifecycle(db) && forall i :: 0 <= i < |steps| ==> WellFormed(steps[i])
    ensures Freezes(db, Run(db, steps))
  {
    if steps == [] {
      hide ChargeSum;
    } else {
      var before := Run(db, steps[..|steps| - 1]);
      RunFreezes(db, steps[..|steps| - 1]);
      RunKeeps(db, steps[..|steps| - 1]);
      hide Lifecycle, Apply, WellFormed, Freezes;
      StepFreezes(before, steps[|steps| - 1]);
      FreezesTransitive(db, before, Apply(before, steps[|steps| - 1]));
    }
  }
}
