/** A state in which two calculations in a row spend a credit twice: one issued and overpaid invoice, and two drafts. */
module LedgerExample {
  import opened MapSum
  import opened Engine
  import opened Charges
  import opened Ledger
  import opened LedgerLifecycle
  import opened LedgerBalance
  import opened LedgerCache
  import opened LedgerMoney

  const BUILDING: Id := 5
  const UNIT: Id := 1
  const HOME := [Unit(UNIT, 2, 80, false)]
  const CLEANING := PeriodItem(10, CostItem(0, Fixed, 70, [], true, []))
  const SPRING := Period(BUILDING, PeriodIssued, [], [])
  const SUMMER := Period(BUILDING, PeriodDraft, [CLEANING], [])
  const OVERPAID := Invoice(Numbered(1403, 1), BUILDING, 0, UNIT, 100, 0, 0, 0, 100, Paid, 100, [], [ChargeRow(9, 100)])
  const PAYMENT := Payment(UNIT, 3, false, 150, Verified)
  const CREDIT := Balance(0, 0, 0, 0, 0, 50, 0)
  const TABLES := Db(map[0 := SPRING, 1 := SUMMER, 2 := SUMMER], map[3 := OVERPAID], map[4 := PAYMENT], map[UNIT := CREDIT], 6)

  function NoFee(): int -> int {
    (base: int) => 0
  }

  lemma NumbersFit(building: Id)
    ensures Sequential(TABLES.invoices, building)
  {
    var used := NumberedInvoices(TABLES.invoices, building);
    assert used == if building == BUILDING then {3} else {};
    if building == BUILDING {
      assert 3 in used && TABLES.invoices[3].number.sequence == 1;
    }
  }

  lemma ExampleLifecycle()
    ensures Lifecycle(TABLES)
  {
    forall building
      ensures Sequential(TABLES.invoices, building)
    {
      NumbersFit(building);
    }
    assert [ChargeRow(9, 100)][..0] == [];
    hide Sequential;
  }

  lemma OneRow(c: Column)
    ensures InvoiceSum(TABLES.invoices, c, UNIT) == Cell(c, UNIT, OVERPAID)
  {
    hide Total, Cell;
    var rest := TABLES.invoices - {3};
    assert |rest| == 0;
    TotalRemove(TABLES.invoices, Cells(c, UNIT), 3);
    TotalNone(rest, Cells(c, UNIT));
  }

  lemma OnePayment()
    ensures VerifiedSum(TABLES.payments, UNIT) == 150
  {
    hide Total;
    var rest := TABLES.payments - {4};
    assert |rest| == 0;
    TotalRemove(TABLES.payments, VerifiedAmounts(UNIT), 4);
    TotalNone(rest, VerifiedAmounts(UNIT));
  }

  lemma ExampleFresh()
    ensures Fresh(TABLES, UNIT)
  {
    hide InvoiceSum, VerifiedSum;
    forall c
      ensures InvoiceSum(TABLES.invoices, c, UNIT) == Cell(c, UNIT, OVERPAID)
    {
      OneRow(c);
    }
    OnePayment();
  }

  lemma CleaningCalculates()
    ensures Calculable([CLEANING], HOME) && DistinctUnits(HOME)
  {
    assert Participants(true, HOME) != [] by {
      assert HOME[..0] == [];
    }
  }

  /** Both drafts can be calculated, one after the other. */
  lemma BothCalculate()
    ensures CalculatePeriod(TABLES, 1, HOME, NoFee()).Done?
    ensures CalculatePeriod(CalculatePeriod(TABLES, 1, HOME, NoFee()).db, 2, HOME, NoFee()).Done?
  {
    CleaningCalculates();
    ExampleLifecycle();
    hide Lifecycle, Calculable, DistinctUnits, ShareRows, NewInvoice, AddInvoices, FirstError;
    var between := CalculatePeriod(TABLES, 1, HOME, NoFee()).db;
    assert FreshIds(TABLES);
    CalculateIs(TABLES, 1, HOME, NoFee());
    assert between.periods[2] == SUMMER && between.payments == TABLES.payments;
  }

  lemma NothingYet()
    ensures OwnInvoices(TABLES.invoices, 1) == {} && OwnInvoices(TABLES.invoices, 2) == {}
    ensures Billed(HOME, |HOME|, UNIT) && Stored(TABLES, UNIT).creditAsset == 50
  {
    assert HOME[0].id == UNIT;
  }

  /** The credit of 50 is embedded in both drafts: 50 of the 150 verified are spent twice. */
  lemma CreditSpentTwice()
    ensures var after := Apply(Apply(TABLES, DoCalculate(1, HOME, NoFee())), DoCalculate(2, HOME, NoFee()));
            Slack(after, UNIT) == -50 && !Conserved(after, UNIT)
  {
    hide Lifecycle, Fresh, DistinctUnits, CalculatePeriod, Slack, Conserved, OwnInvoices, Billed, Stored, Calculable;
    CleaningCalculates();
    BothCalculate();
    ExampleLifecycle();
    ExampleFresh();
    NothingYet();
    SameCreditTwice(TABLES, 1, 2, HOME, NoFee(), HOME, NoFee(), UNIT);
  }
}
