/** The period row is saved after the transaction that changes its invoices, with the status the call decided on when
    it read the row (backend/internal/billing/calc_service.go, period_service.go): what a save that comes late does. */
module PeriodRace {
  import opened Engine
  import opened Charges
  import opened Ledger
  import opened LedgerLifecycle

  /** Writes the status over whatever the row says by now. */
  function SavePeriod(db: Db, period: Id, status: PeriodStatus): Db
    requires period in db.periods
  {
    db.(periods := db.periods[period := db.periods[period].(status := status)])
  }

  /** What the period must look like when the status is written. */
  ghost predicate Ready(db: Db, period: Id, status: PeriodStatus)
    requires period in db.periods
  {
    match status
    case PeriodDraft => OwnInvoices(db.invoices, period) == {} && db.periods[period].shares == []
    case PeriodCalculated => OwnInvoices(db.invoices, period) == {} || db.periods[period].status == PeriodCalculated
    case _ => OwnInvoices(db.invoices, period) == {} || Frozen(db.periods[period])
  }

  /** A late save keeps the lifecycle invariant if and only if, when it is written: a draft has neither invoices nor
      shares, a calculated period has not been issued, an issued or closed one has been. */
  lemma LateSaveIff(db: Db, period: Id, status: PeriodStatus)
    requires Lifecycle(db) && period in db.periods
    ensures Lifecycle(SavePeriod(db, period, status)) <==> Ready(db, period, status)
  {
    PlacedIff(db, period, status);
    hide Sequential, Composed, OnePerUnit, PaymentsPoint, AllPlaced, Placed;
    var after := SavePeriod(db, period, status);
    assert period in after.periods && after.periods[period].shares == db.periods[period].shares;
    assert status != PeriodDraft ==> DraftsWithoutShares(after);
    assert status == PeriodDraft ==> (DraftsWithoutShares(after) <==> db.periods[period].shares == []);
  }

  lemma PlacedIff(db: Db, period: Id, status: PeriodStatus)
    requires AllPlaced(db) && period in db.periods
    ensures AllPlaced(SavePeriod(db, period, status))
            <==> OwnInvoices(db.invoices, period) == {}
                 || (status != PeriodDraft && (status == PeriodCalculated <==> db.periods[period].status == PeriodCalculated))
    ensures OwnInvoices(db.invoices, period) != {} ==> db.periods[period].status != PeriodDraft
  {
    var after := SavePeriod(db, period, status);
    forall id | id in db.invoices
      ensures db.invoices[id].period != period ==> Placed(after.periods, db.invoices[id])
      ensures db.invoices[id].period == period ==>
        db.periods[period].status != PeriodDraft
        && (Placed(after.periods, db.invoices[id])
            <==> status != PeriodDraft
                 && (status == PeriodCalculated <==> db.periods[period].status == PeriodCalculated))
    {
      assert Placed(db.periods, db.invoices[id]);
    }
    hide Placed;
    if OwnInvoices(db.invoices, period) != {} {
      assert exists id: Id :: id in OwnInvoices(db.invoices, period) by {
        assert (forall id: Id :: id !in OwnInvoices(db.invoices, period)) ==> OwnInvoices(db.invoices, period) == {};
      }
    } else {
      forall id | id in db.invoices
        ensures db.invoices[id].period != period
      {
        assert id !in OwnInvoices(db.invoices, period);
      }
    }
  }

  /** Writing "calculated" over an issued period: numbered invoices stand in a calculated period, and reopening it,
      unless a payment forbids, deletes them. */
  lemma IssuedIsLost(db: Db, period: Id)
    requires Lifecycle(db) && period in db.periods && Frozen(db.periods[period]) && OwnInvoices(db.invoices, period) != {}
    ensures var saved := SavePeriod(db, period, PeriodCalculated);
            !Lifecycle(saved) && (Reopen(saved, period).Done? ==> !Freezes(db, Reopen(saved, period).db))
  {
    LateSaveIff(db, period, PeriodCalculated);
    assert exists id: Id :: id in OwnInvoices(db.invoices, period) by {
      assert (forall id: Id :: id !in OwnInvoices(db.invoices, period)) ==> OwnInvoices(db.invoices, period) == {};
    }
    var id :| id in OwnInvoices(db.invoices, period);
    assert Placed(db.periods, db.invoices[id]);
    hide Lifecycle, SameIdentity, Referenced, ChargeSum;
  }

  /** It happens when a calculated period is calculated again and issued before the recalculation saves its status. */
  lemma RecalculatedAndIssued(db: Db, period: Id, units: seq<Unit>, lateFee: int -> int, year: int)
    requires Lifecycle(db) && DistinctUnits(units) && CalculatePeriod(db, period, units, lateFee).Done?
    ensures var calculated := CalculatePeriod(db, period, units, lateFee).db;
            && Issue(calculated, period, year).Done?
            && var issued := Issue(calculated, period, year).db;
               && Lifecycle(issued) && period in issued.periods && Frozen(issued.periods[period])
               && OwnInvoices(issued.invoices, period) != {}
  {
    var calculated := CalculatePeriod(db, period, units, lateFee).db;
    CalculateKeeps(db, period, units, lateFee);
    CalculateIs(db, period, units, lateFee);
    SomeDraft(db, calculated, period, units, lateFee);
    hide CalculatePeriod, Recalculated, DistinctUnits;
    IssueDone(calculated, period, year);
    IssueKeeps(calculated, period, year);
    var order := IssueIs(calculated, period, year);
    assert AllPlaced(calculated);
    hide Issue;
    IssuedInvoice(calculated, Issue(calculated, period, year).db, period, year, order, db.nextId);
    hide Lifecycle, AllPlaced, NumberedInOrder;
    assert db.nextId in OwnInvoices(Issue(calculated, period, year).db.invoices, period);
  }

  lemma SomeDraft(db: Db, after: Db, period: Id, units: seq<Unit>, lateFee: int -> int)
    requires CalculatePeriod(db, period, units, lateFee).Done? && Recalculated(db, after, period, units)
    ensures db.nextId in after.invoices && after.invoices[db.nextId].period == period
    ensures period in after.periods && after.periods[period].status == PeriodCalculated
  {
    hide AddInvoices, ShareRows, Calculable, FirstError, Referenced, Composed;
    assert units != [];
    hide CalculatePeriod;
    assert DraftFor(after.invoices[db.nextId], db.periods[period].building, period, units[0].id);
  }

  lemma IssueDone(db: Db, period: Id, year: int)
    requires period in db.periods && db.periods[period].status == PeriodCalculated
    ensures Issue(db, period, year).Done?
    ensures var after := Issue(db, period, year).db;
            period in after.periods && after.periods[period].status == PeriodIssued
  {
    hide ByUnit, NumberAll, Derive, NumberedInvoices, UnitsOf;
  }

  /** An edit of the cost items that read the period as a draft and is written now. */
  function LateEdit(db: Db, period: Id, items: seq<PeriodItem>): Db
    requires period in db.periods
  {
    var p := db.periods[period];
    db.(periods := db.periods[period := p.(items := items, shares := KeepShares(p.shares, items))])
  }

  /** A late edit changes nothing that was issued if and only if the period has not been issued or the edit leaves its
      items and shares as they are. */
  lemma LateEditIff(db: Db, period: Id, items: seq<PeriodItem>)
    requires period in db.periods
    ensures Freezes(db, LateEdit(db, period, items))
            <==> !Frozen(db.periods[period])
                 || (items == db.periods[period].items
                     && KeepShares(db.periods[period].shares, items) == db.periods[period].shares)
  {
    hide ChargeSum, KeepShares;
    assert period in LateEdit(db, period, items).periods;
  }

  /** Of the shares exactly those of the remaining items are kept, each as often as it was there. */
  lemma {:induction false} KeptShares(shares: seq<ShareRow>, items: seq<PeriodItem>, s: ShareRow)
    ensures multiset(KeepShares(shares, items))[s]
         == if exists k :: 0 <= k < |items| && items[k].id == s.item then multiset(shares)[s] else 0
  {
    if shares != [] {
      var last := |shares| - 1;
      KeptShares(shares[..last], items, s);
      assert shares == shares[..last] + [shares[last]];
    }
  }

  /** On time the late writes are the calls of the ledger: the edit of a draft, and the close of an issued period. */
  lemma OnTimeIsTheCall(db: Db, period: Id, items: seq<PeriodItem>)
    requires period in db.periods
    ensures db.periods[period].status == PeriodDraft ==> EditItems(db, period, items) == Done(LateEdit(db, period, items))
    ensures db.periods[period].status == PeriodIssued ==> Close(db, period) == Done(SavePeriod(db, period, PeriodClosed))
  {
  }
}
