# Verified model of the building-charge system

This project models the parts of the system where money, dates and sessions can
silently go wrong, and proves what those parts promise. `dafny verify dfyconfig.toml`
checks the whole project.

**Charges** (`Rounding`, `Engine`, `EngineGuarantees`, `EngineAnswers`, `Charges`). A cost item is an
integer Toman total that is divided over units by exact rational weights and then
rounded by largest remainder; combined items do this twice. Exact shares are
`real` numbers (the source's rationals). The loops of the engine, the sorting by
remainder and the item-by-unit transposition are methods; they are proved against
descriptions that do not mention the loops, and conservation, the quota rule,
optimality of the rounding and reconciliation are proved about those descriptions.
`EngineAnswers` says what is charged in terms of the item and the units alone.

**Ledger** (`MapSum`, `Ledger`, `LedgerLifecycle`, `LedgerAnswers`, `LedgerPeriods`,
`LedgerHistory`, `LedgerBalance`, `LedgerCache`, `LedgerMoney`, `LedgerExample`,
`LedgerCoverage`, `LedgerCancel`, `LedgerRecalc`, `PaymentRace`, `PeriodRace`, `Store`). The tables are maps; `Ledger` gives each service call as one step
on them, `Store` is the mutable version with the queries and loops of the source, each
call proved to answer and to change the tables as its step does. `LedgerAnswers` and
`LedgerPeriods` say what each step does to the rows and when it is refused. Over the steps are
proved: the period lifecycle and numbering invariant, the freezing of issued invoices,
the meaning of a balance row, when the stored balance agrees with its source rows, what a
cancellation and a recalculation are worth, and where verified money goes.

One step per call is an assumption. The source keeps less together: a manual payment
reads the invoice, a gateway callback the payment's status, and cancelling and adjusting
the invoice's status, before they write; a calculation reads status and balances before
its transaction and, like reopening, closing and editing a period, saves the period row
after it; a cost item is saved after the period's status was read; issuing recomputes
balances after its transaction. `PaymentRace` takes apart manual payments and
cancellations of one invoice and the callbacks of one payment, `PeriodRace` the late save
of a period row and of cost items; for these they say exactly when overlapping calls do
harm. What they leave out is listed at the end.

**Jalali calendar** (`Truncated`, `JalaliCycle`, `GregorianDays`, `JalaliCalendar`, `DateInput`).
Truncating division is defined explicitly. The conversions are proved to be inverse to
each other over the whole supported range, years -61 to 3177.

**Sessions** (`Tokens`, `TokenRace`, `Session`). `Tokens` has the rotating refresh tokens
of the server (the scheme recommended by RFC 9700, section 4.14.2) with each call running
on its own. The source does not ensure that: a rotation reads, saves and creates in three
statements without a transaction or a lock. `TokenRace` runs any number of calls statement
by statement, shows what goes wrong, and says exactly when a family has at most one token
and when a revoked family stays revoked. `Session` composes the tokens with the browser's
single-flight refresh queue and any number of concurrent requests; the queue is what keeps
the rotations of one page from overlapping.

**Smaller state machines and texts** (`FileCache`, `Game`, `Numerals`, `MoneyText`,
`Announcements`; `Wrappers` has the shared option type). The object-URL cache, the twelve-month campaign and its saves,
printing and parsing of amounts, and who sees an announcement.

Values that the system draws at random or takes from outside (identifiers, token
values, the clock, the gateway's answer, the late fee, storage faults) are parameters
or come from a counter of fresh values.

## Where code and text disagree

- `web/src/lib/format/jalali.ts:93` says Nowruz falls on 20 or 21 March. Over the
  supported range it falls on 20, 21 or 22 March (`JalaliCalendar.MarchRange`); the
  sentence is true from 1339 to 1581 and of neither neighbouring year
  (`JalaliCalendar.MarchNowadays`).
- `backend/internal/billing/engine/engine.go:271` says the caller sorts by unit id;
  `backend/internal/billing/repository.go:132` orders by unit number. The model has
  what the code does: ties go to the lower index.
- `backend/internal/payment/repository.go:260` says a carried prior debt is not
  counted twice; the query at line 273 adds it while the old invoice stays open:
  `LedgerRecalc.CarriedDebtCountsTwice`, `LedgerRecalc.OwedTwice`.
- Reading a unit's balance between two calculations of a period makes the first draft the
  prior debt of the second: `LedgerRecalc.ReadThenRecalculate`,
  `LedgerRecalc.ChargeBilledTwice`.
- A confirmed gateway payment reopens a cancelled invoice, and as long as calls do not
  overlap nothing else does: `LedgerCancel.CancelledStaysIff`,
  `LedgerCancel.CancellationUndone`. A manual payment read before the cancellation and
  written after it does so too, and an invoice read as open can be paid in full and then
  cancelled: `PaymentRace.CancellationOverwritten`, `PaymentRace.PaidThenCancelled`.
- A unit that has paid every invoice to the last Toman, debit notes included, still owes
  the notes: `LedgerBalance.PaidUpStillOwes`, `LedgerRecalc.NotesBilledAgain`.
- Two periods calculated before either is issued, with no balance read in between, embed
  the same credit: `LedgerMoney.SameCreditTwice`, `LedgerExample.CreditSpentTwice`.
- `backend/internal/auth/token.go:160-162` promises that a used token ends its family.
  Overlapping calls can exchange a token twice and bring a revoked family back:
  `TokenRace.ExchangedTwice`, `TokenRace.RevokedComesBack`.
- A combined item with a chosen-units component is accepted and can never be
  calculated: `EngineGuarantees.ChosenUnitsNeverCombine`.
- The date field loses the sign of a negative Jalali year:
  `DateInput.FieldRoundTripIff`.

## Model

| member | source | states |
|---|---|---|
| Rounding.Allocate | backend/internal/billing/engine/engine.go:272-304 | The in-place loops yield a largest-remainder rounding: each share is its floor or one more, the sum is the total, and extra Tomans go to larger remainders, ties to the lower index; the hand-out never leaves the index range |
| Rounding.LargestRemainderUnique | backend/internal/billing/engine/engine.go:293-302 | That description determines the rounded shares completely |
| Rounding.Optimal | backend/internal/billing/engine/engine.go:268-304 | No other integer shares with the same sum are closer to the exact ones in total absolute distance |
| Rounding.Quota | backend/internal/billing/engine/engine.go:272-304 | Every rounded share is within one of the exact share, is not negative and does not exceed the total |
| Rounding.WholeSharesKept | backend/internal/billing/engine/engine.go:281-302 | An exact share that is already whole is not changed |
| Rounding.Monotone | backend/internal/billing/engine/engine.go:293-302 | A larger exact share never gets less; equal ones differ by at most one Toman, in favour of the lower index |
| Engine.Distribute | backend/internal/billing/engine/engine.go:238-266 | Distribution over the participants, its errors included, meets its specification and reports itself reconciled |
| Engine.CalcFixed | backend/internal/billing/engine/engine.go:133-147 | Every participant pays the fixed amount; no participants is an error |
| Engine.CalcSpecific | backend/internal/billing/engine/engine.go:149-167 | Only the chosen units pay; no chosen or no known unit is an error |
| Engine.CalcCombined | backend/internal/billing/engine/engine.go:169-232 | The pools and the accumulation per unit yield the position-wise sum of the component divisions, sorted by unit, with the first failing component's error, and reconcile |
| Engine.Calculate | backend/internal/billing/engine/engine.go:94-118 | Every method, or the error the item deserves |
| Engine.DistributeConserves | backend/internal/billing/engine/engine.go:238-266 | Rounded shares and exact shares of a distribution both add up to the total |
| Engine.ItemConserves | backend/internal/billing/engine/engine.go:94-232 | The same for every method, through both rounding levels of a combined item |
| Engine.OrderedUnique | backend/internal/billing/engine/engine.go:226-229 | Collecting per-unit shares in any order and sorting them gives one result only |
| EngineGuarantees.DistributionFair | backend/internal/billing/engine/engine.go:238-304 | A heavier unit never pays less, equal weights differ by at most one Toman, a weightless unit pays nothing, nobody pays more than the total |
| EngineGuarantees.DistributionClose | backend/internal/billing/engine/engine.go:238-304 | Each rounded share is less than one Toman from the exact share |
| EngineGuarantees.CombinedClose | backend/internal/billing/engine/engine.go:169-232 | Exactly the participants pay, each within the number of components of the exact share |
| EngineGuarantees.CombinedSucceeds | backend/internal/billing/engine/engine.go:169-215 | An accepted combined item is calculable if and only if every component has a non-empty pool where one is needed and participants with weight |
| EngineGuarantees.PoolsPositive | backend/internal/billing/engine/engine.go:187-193 | From 100 Toman on no pool is empty |
| EngineGuarantees.ChosenUnitsNeverCombine | backend/internal/billing/period_service.go:272-290 | An accepted combined item with a chosen-units component always fails |
| EngineGuarantees.OneTomanFails | backend/internal/billing/engine/engine.go:187-215 | A one-Toman combined item is accepted, has an empty pool and fails |
| EngineAnswers.SimpleShares | backend/internal/billing/engine/engine.go:94-167 | Every share of an item that is not combined stands to the total as the unit's occupants, area or one stand to those of all participants, and is rounded by less than one Toman; a fixed item charges the amount exactly |
| EngineAnswers.PoolsFollowPercentages | backend/internal/billing/engine/engine.go:187-193 | Each component's pool is that component's own percentage of the total, to less than one Toman |
| EngineAnswers.CombinedShares | backend/internal/billing/engine/engine.go:195-232 | The exact share of a combined item is one part per component, its pool in proportion to what that component goes by; the rounded share is within the number of components |
| EngineAnswers.CombinedPays | backend/internal/billing/engine/engine.go:169-232 | Without the pools: a participant pays, to less than two Toman per component, the sum of the components' percentages of the total, each divided by occupants, area or heads |
| EngineAnswers.EarlierPaysTheOddToman | backend/internal/billing/engine/engine.go:281-302 | Of two units that bring in the same, the earlier in the list pays as much or one Toman more |
| EngineAnswers.SimpleFailsIff | backend/internal/billing/engine/engine.go:94-167 | Exactly when an item that is not combined fails, and with which error: amount, method, participants, and what they bring in |
| EngineAnswers.BadWeightsIff | backend/internal/billing/engine/engine.go:169-183 | A combined item is refused for its percentages exactly when there are none, one is not positive or combined again, or they do not sum to 100 |
| EngineAnswers.FirstComponentFails | backend/internal/billing/engine/engine.go:198-215 | The first component that cannot be calculated decides the error |
| EngineAnswers.ReturnsTheShares | backend/internal/billing/engine/engine.go:257-266 | A calculation returns one share for each participant, in the order of identifiers, with its exact and rounded part, and the reported total is their sum |
| Charges.RunItems | backend/internal/billing/calc_service.go:133-183 | The loops over items and shares give every unit exactly its rows, item by item, store all shares in order, and stop with the first failing item's error |
| Charges.NoMoneyLost | backend/internal/billing/calc_service.go:133-217 | The base amounts of all units add up to what all items distribute |
| Charges.RowOfItem | backend/internal/billing/calc_service.go:164-183 | Of one item a unit that shares it gets one row with its own rounded share, any other unit none |
| Charges.RowsAreShares | backend/internal/billing/calc_service.go:133-183 | A unit has each charge row exactly as often as that share is stored for it |
| Charges.ItemByItem | backend/internal/billing/calc_service.go:133-183 | Rows and stored shares follow the order of the items |
| Charges.PreviewReconciled | backend/internal/billing/calc_service.go:285-331 | The preview's flag is true exactly when every item's stored shares meet their target |
| Charges.PreviewReconciles | backend/internal/billing/calc_service.go:295-331 | After a calculation every item's stored shares do meet their target |
| Charges.ChangedShareShows | backend/internal/billing/calc_service.go:295-331 | Changing one stored share of a reconciled item shows on that item and on no other |
| LedgerLifecycle.NewInvoiceComposed | backend/internal/billing/calc_service.go:187-243 | A composed invoice has final = base + prior + late - credit, its charge rows add up to its base, and it is an unpaid draft of its unit and period |
| LedgerLifecycle.CalculateIs | backend/internal/billing/repository.go:163-192 | A calculation replaces the period's invoices by one draft per unit, leaves every other row alone, and only happens when no payment refers to a replaced invoice |
| LedgerLifecycle.IssueExtends | backend/internal/billing/repository.go:308-354 | Numbering from the count on extends the building's numbers 1..N to 1..N + n |
| LedgerLifecycle.IssueKeeps | backend/internal/billing/period_service.go:392-442 | Issuing keeps the lifecycle invariant |
| LedgerLifecycle.StepKeeps | backend/internal/billing/period_service.go:297-541 | So does every service call on periods, invoices and payments, with every outcome |
| LedgerLifecycle.ReachableLifecycle | backend/internal/billing/repository.go:163-354 | In every run from empty tables: draft periods have no invoices, calculated ones only drafts, issued and closed ones only numbered ones, one per unit; each building's numbers are exactly 1..N without repeat; payments point at existing invoices of their unit |
| LedgerLifecycle.PeriodMoves | backend/internal/billing/period_service.go:297-460 | No step moves a period's status otherwise than draft, calculated and back, issued, closed, or deletes a period; items change only in a draft |
| LedgerLifecycle.RunFreezes | backend/internal/billing/repository.go:305-373 | Over every run a numbered invoice keeps its number, unit, amounts and charges and only gains notes, and an issued period keeps its items and shares |
| LedgerAnswers.ManualEffect | backend/internal/payment/service.go:218-276 | An accepted manual payment adds one verified payment of that amount, pays the invoice by it as far as it is owed, settles it exactly when that is all, and changes no other invoice or payment |
| LedgerAnswers.GatewayEffect | backend/internal/payment/service.go:281-332 | Opening a gateway payment adds one pending payment of the requested amount, or of all that is outstanding, and changes nothing else |
| LedgerAnswers.FailedEffect | backend/internal/payment/service.go:359-371 | A callback that is not confirmed fails the pending payment and changes nothing else in any table |
| LedgerAnswers.ConfirmedEffect | backend/internal/payment/service.go:373-395 | A confirmed one verifies it and pays the invoice by the payment's own amount |
| LedgerAnswers.ReplayedEffect | backend/internal/payment/service.go:355-357 | A callback of any other payment changes nothing |
| LedgerAnswers.RequestedAmountIsBooked | backend/internal/payment/service.go:291-395 | From opening to confirmation the requested amount is what is booked and what counts as verified, whatever was outstanding |
| LedgerAnswers.NoteEffect | backend/internal/billing/period_service.go:502-541 | An accepted debit note raises and a credit note lowers what is owed and the unit's balance formula by its amount; the invoice keeps its identity, paid amount and status, and no other row changes |
| LedgerAnswers.CancelEffect | backend/internal/billing/period_service.go:471-490 | A cancellation takes off the unit's balance formula exactly what the invoice still asked for, and changes nothing but the status |
| LedgerAnswers.OneMoreInvoice | backend/internal/payment/repository.go:267-308 | What one invoice adds to each column of its unit's balance row: its amounts while open, its notes until cancelled, nothing to another unit |
| LedgerAnswers.RefusedExactly | backend/internal/payment/service.go:218-357 | Exactly when each call on invoices and payments is refused, and why |
| LedgerPeriods.CalculateRefusedExactly | backend/internal/billing/calc_service.go:82-160 | Exactly when a calculation is refused: status, no items or units, the first item that fails, or a payment on an invoice of the period |
| LedgerPeriods.RefusedExactly | backend/internal/billing/period_service.go:298-460 | Exactly when editing, reopening, issuing and closing are refused |
| LedgerPeriods.MissingPeriod | backend/internal/billing/period_service.go:188-205 | A period that does not exist is not found by any call |
| LedgerPeriods.DraftEffect | backend/internal/billing/period_service.go:133-150 | A new period is an empty draft; editing replaces the items of a draft and nothing else |
| LedgerPeriods.CalculatedInvoice | backend/internal/billing/calc_service.go:185-243 | A unit's draft has its stored shares as charge rows, its stored balance and credit, and the late fee on its charges |
| LedgerPeriods.ReopenUndoes | backend/internal/billing/period_service.go:370-386 | Calculating a draft period and reopening it leaves every table as it was |
| LedgerPeriods.IssueEffect | backend/internal/billing/repository.go:305-354 | Issuing gives the drafts the year and the building's next numbers in the order of their units, and changes nothing else of them and no other invoice |
| LedgerPeriods.CloseEffect | backend/internal/billing/period_service.go:445-460 | Closing closes the issued period and touches nothing else |
| LedgerHistory.FirstCallbackDecides | backend/internal/payment/service.go:335-395 | Over every run the first callback of a gateway payment decides it for good; unit, invoice and amount never change, and no other payment changes at all |
| LedgerHistory.FailedForGood | backend/internal/payment/service.go:355-371 | A failed payment stays failed over every run, and no later callback of it changes any table |
| LedgerHistory.OwedOverRuns | backend/internal/billing/period_service.go:502-541 | Over every run an invoice owes its frozen amount plus the accepted debit notes less the accepted credit notes |
| LedgerHistory.ClosedForGood | backend/internal/billing/period_service.go:392-460 | Over every run an issued or closed period keeps items, shares and exactly its invoices, and a closed one its whole row |
| LedgerBalance.LedgerIdentity | backend/internal/payment/repository.go:266-316 | The derived balance is what open invoices still ask for plus the net notes of settled ones, never below zero |
| LedgerBalance.ReachableIdentity | backend/internal/payment/repository.go:256-316 | In every reachable state |
| LedgerBalance.RowsReconcile | web/src/lib/payments/balance.ts:34-75 | The client's reconciliation test accepts every row that any run ever stores |
| LedgerBalance.ClientAgrees | web/src/lib/payments/balance.ts:45-64 | What the client shows as outstanding is what a gateway payment without an amount is opened for on the server |
| LedgerBalance.BalanceVersusOutstanding | web/src/lib/payments/balance.ts:55-64 | The derived balance against the sum of what the invoices show as outstanding: equal if and only if the excesses cancel out, or nothing is outstanding and they are not positive |
| LedgerBalance.ExcessIs | backend/internal/payment/repository.go:278-281 | The excess of an open invoice is its overpayment, negatively; of a paid one its net notes as far as they are not outstanding again |
| LedgerBalance.PaidUpStillOwes | backend/internal/payment/repository.go:278-281 | A unit that is paid up owes the net notes of its paid invoices, and nothing if and only if they are no net debit |
| LedgerBalance.PaymentsClosedForm | backend/internal/payment/service.go:153-276 | Any sequence of manual payments leaves the invoice paid by the sum of the amounts up to its effective amount, books all of it as verified, and changes nothing else but the unit's balance row |
| LedgerBalance.PaidFromZero | backend/internal/payment/service.go:153-172 | From zero, paid is the least of the sum and the effective amount, with status paid exactly when the sum reaches it |
| LedgerBalance.OrderAndSplittingIrrelevant | backend/internal/payment/service.go:218-276 | Payments with equal sums lead to equal invoices and balances, whatever their order and number |
| LedgerCache.StepFresh | backend/internal/payment/repository.go:291-349 | Every step other than a calculation and a reopening keeps a unit's stored balance equal to the derivation from its rows; starting a gateway payment and a failed callback do so without a recompute |
| LedgerCache.RunFresh | backend/internal/payment/service.go:260-395 | Over runs without those two steps agreement is permanent |
| LedgerCache.IssueFresh | backend/internal/billing/period_service.go:434-440 | Issuing restores agreement for every unit of the period, whatever it was before |
| LedgerCache.OtherRowsStay | backend/internal/payment/repository.go:330-344 | No step writes the row of a unit it does not concern |
| LedgerCache.RecomputeIdempotent | backend/internal/payment/repository.go:288-349 | A recompute brings agreement and a second one changes nothing |
| LedgerMoney.ConservedIff | backend/internal/payment/repository.go:322-327 | Verified money equals paid amounts plus embedded credit plus credit asset exactly when the clamp on the asset has nothing to cut |
| LedgerMoney.CalculatedTotal | backend/internal/billing/calc_service.go:133-252 | After a stored calculation the base amounts of the period's invoices add up to what its items distribute |
| LedgerMoney.CalculateColumns | backend/internal/billing/repository.go:163-192 | A calculation moves each balance column by the new draft of the unit less its old ones |
| LedgerMoney.SlackExact | backend/internal/payment/repository.go:322-327 | By exactly how much each step changes the verified money that no invoice has absorbed |
| LedgerMoney.ConservedStep | backend/internal/payment/service.go:375-395 | Conservation survives a step if and only if the step neither embeds more credit than there is nor confirms too small a payment on a cancelled invoice |
| LedgerMoney.AlwaysConservedIff | backend/internal/payment/repository.go:318-327 | A run conserves throughout if and only if none of its steps embeds more credit than there is or confirms too small a payment on a cancelled invoice |
| LedgerMoney.ConservedRun | backend/internal/payment/repository.go:318-327 | With embedded credit too: a run that calculates on up-to-date balances and confirms no payment of a cancelled invoice accounts for all verified money |
| LedgerCoverage.StepCovered | backend/internal/payment/service.go:218-401 | Every service call, whatever its outcome, keeps a unit's verified money at or above what its invoices show as paid |
| LedgerCoverage.ReachableCovered | backend/internal/payment/repository.go:318-327 | In every reachable state verified money covers all paid amounts, and what is missing for conservation is at most the embedded credit |
| LedgerCoverage.ConservedWithoutCredit | backend/internal/payment/repository.go:318-327 | In every reachable state without embedded credit of a unit its verified payments are the paid amounts of its invoices that are not cancelled plus its credit asset, and the clamp cuts nothing |
| LedgerMoney.SameCreditTwice | backend/internal/billing/calc_service.go:203-216 | Two first calculations before either is issued spend a unit's credit twice, and the clamp hides it |
| LedgerExample.CreditSpentTwice | backend/internal/billing/calc_service.go:203-216 | It happens: a concrete ledger in which 50 of 150 verified Toman are spent twice |
| LedgerExample.ExampleLifecycle | backend/internal/billing/calc_service.go:203-216 | That ledger satisfies the lifecycle invariant |
| LedgerCancel.CancelledStaysIff | backend/internal/payment/service.go:375-395 | Under every step a cancelled invoice stays cancelled for as long as it exists if and only if the step is not a confirmed payment of it |
| LedgerCancel.CancellationLastsIff | backend/internal/billing/period_service.go:471-490 | Over every run a cancellation lasts if and only if no payment of the invoice is confirmed after it |
| LedgerCancel.CancellationUndone | backend/internal/payment/service.go:375-395 | A payment under way at the gateway turns a cancelled invoice into a paid one, from any state |
| LedgerRecalc.CarriedDebtCountsTwice | backend/internal/payment/repository.go:256-275 | After any calculation the derived balance is prior debt and charge on top of everything else that is open; it is prior debt and charge alone if and only if nothing but the replaced draft was open or the result is cut at zero both ways |
| LedgerRecalc.OwedTwice | backend/internal/payment/repository.go:256-275 | After a first calculation on an up-to-date balance that is owed the derived balance contains it twice |
| LedgerRecalc.CalculateFreshIff | backend/internal/billing/calc_service.go:245-252 | A calculation, first or repeated, leaves a unit's stored balance in agreement if and only if the replaced draft and the new one show the same on the balance row |
| LedgerRecalc.ReopenFreshIff | backend/internal/billing/period_service.go:370-386 | Reopening does if and only if the discarded draft shows nothing on it |
| LedgerRecalc.RecalculationSameIff | backend/internal/billing/calc_service.go:187-243 | The same items and units give a unit the same invoice again if and only if its stored balance and credit are unchanged |
| LedgerRecalc.ReadThenRecalculate | backend/internal/billing/calc_service.go:203-216 | After a recompute in between, a second calculation takes the first draft over as prior debt; exactly when the second invoice is still the same |
| LedgerRecalc.ChargeBilledTwice | backend/internal/billing/calc_service.go:203-216 | A unit that owed nothing is then billed the same charge twice, unless the charge is not positive |
| LedgerRecalc.NotesBilledAgain | backend/internal/billing/calc_service.go:203-216 | The next calculation bills these notes again as prior debt |
| PeriodRace.LateSaveIff | backend/internal/billing/period_service.go:169-187 | A period row saved late keeps the lifecycle invariant if and only if a draft then has no invoices and shares, a calculated period has not been issued, an issued or closed one has been |
| PeriodRace.RecalculatedAndIssued | backend/internal/billing/calc_service.go:245-249 | A recalculation overtaken by issuing reaches such a state |
| PeriodRace.IssuedIsLost | backend/internal/billing/repository.go:196-206 | Saving "calculated" over an issued period breaks the invariant, and reopening it then deletes issued invoices |
| PeriodRace.LateEditIff | backend/internal/billing/period_service.go:336-364 | A late edit of cost items leaves everything issued alone if and only if the period has not been issued or the edit changes neither items nor shares |
| PeriodRace.KeptShares | backend/internal/billing/period_service.go:355-364 | An edit keeps exactly the shares of the items that remain |
| PeriodRace.OnTimeIsTheCall | backend/internal/billing/period_service.go:336-460 | On time the late writes are the ledger's edit and close |
| PaymentRace.NeverOverdrawn | backend/internal/payment/service.go:237-270 | However manual payments and cancellations overlap, the paid amount never exceeds the verified money |
| PaymentRace.AloneIsManual | backend/internal/payment/service.go:218-276 | Reading and committing without interruption is the ledger's manual payment, refusals included |
| PaymentRace.AloneIsCancel | backend/internal/billing/period_service.go:471-490 | The same for a cancellation |
| PaymentRace.AloneIsCallback | backend/internal/payment/service.go:355-395 | The same for a callback, replays included |
| PaymentRace.AlwaysExactIff | backend/internal/payment/service.go:237-270 | For every schedule of payments and cancellations: the paid amount is all that was verified, up to what is owed, throughout if and only if no payment commits on a reading that is out of date without settling the invoice by itself |
| PaymentRace.AtomicIsExact | backend/internal/payment/service.go:237-270 | Without overlap it is always exact |
| PaymentRace.LostUpdate | backend/internal/payment/service.go:237-270 | Two overlapping payments can erase one another from the invoice |
| PaymentRace.CancellationLastsIff | backend/internal/payment/service.go:237-270 | For every schedule: a cancellation lasts if and only if no payment that was read before it commits after it |
| PaymentRace.NothingNewPending | backend/internal/payment/service.go:241-243 | Only the payments pending when the invoice was cancelled can do so |
| PaymentRace.CancellationOverwritten | backend/internal/payment/repository.go:89-98 | A run in which one does, and leaves the invoice partially paid |
| PaymentRace.StillOpenIff | backend/internal/billing/period_service.go:471-484 | For every schedule: the invoice a cancellation has read is still open at its write if and only if no payment settled it and no other cancellation was written in between |
| PaymentRace.PaidThenCancelled | backend/internal/billing/period_service.go:471-484 | A run in which an invoice is paid in full and then cancelled |
| PaymentRace.OneAtATimeExact | backend/internal/payment/service.go:339-401 | Callbacks of one payment that do not overlap book it at most once, however often they are repeated and whatever the gateway answers |
| PaymentRace.ScheduleExactIff | backend/internal/payment/service.go:359-395 | For every schedule of checks, bookings and failures of one payment's callbacks: paid stays covered by verified money if and only if no booking took effect, or nothing was owed, or the last to write was a booking and there was one or it settles the invoice by itself |
| Store.Store.SumColumn | backend/internal/payment/repository.go:266-286 | A query's loop over the invoices computes the column's sum |
| Store.Store.RecomputeBalance | backend/internal/payment/repository.go:291-349 | The stored row of the unit becomes the derived one; no other row changes |
| Store.Store.RecordManual | backend/internal/payment/service.go:218-276 | Answers and changes the tables as the step does, refusals included, and keeps the lifecycle invariant |
| Store.Store.StartGateway | backend/internal/payment/service.go:281-332 | The same for opening a gateway payment |
| Store.Store.HandleCallback | backend/internal/payment/service.go:339-401 | The same for a gateway callback |
| Store.Store.CancelInvoice | backend/internal/billing/period_service.go:471-490 | The same for cancelling an invoice |
| Store.Store.AddAdjustment | backend/internal/billing/period_service.go:502-541 | The same for a debit or credit note |
| Store.Store.Reopen | backend/internal/billing/period_service.go:370-386 | The same for reopening a period |
| Store.Store.Close | backend/internal/billing/period_service.go:445-460 | The same for closing a period |
| Store.Store.ComposeInvoices | backend/internal/billing/calc_service.go:185-243 | One invoice for every unit, from its charge rows and its stored balance |
| Store.Store.ReplaceCalculation | backend/internal/billing/repository.go:163-192 | All or nothing: shares and invoices are replaced unless a payment refers to an invoice of the period |
| Store.Store.Calculate | backend/internal/billing/calc_service.go:82-253 | The whole calculation in one step, refusals included |
| Store.Store.IssueInvoices | backend/internal/billing/repository.go:308-354 | The numbering loop numbers the drafts in the order of their units, from the building's count on |
| Store.Store.Issue | backend/internal/billing/period_service.go:392-442 | Issuing and the invoice-by-invoice recompute of balances |
| JalaliCycle.JalaliCalendarInfo | web/src/lib/format/jalali.ts:105-139 | For every year the walk over the breaks yields the leap count, the leap residue and the Nowruz day of the year's own stretch |
| JalaliCycle.LeapTestMatchesCount | web/src/lib/format/jalali.ts:105-139 | Leap count and leap test, computed by different formulas, agree on every supported year, break years included |
| GregorianDays.EncodeNext | web/src/lib/format/jalali.ts:145-153 | The day number grows by one per calendar day, over every month, year and century end |
| GregorianDays.DecodeEncode | web/src/lib/format/jalali.ts:145-170 | Decoding inverts encoding on every real date |
| GregorianDays.EncodeDecode | web/src/lib/format/jalali.ts:156-170 | Encoding inverts decoding, and every day number stands for a real date |
| JalaliCalendar.CenturiesCancel | web/src/lib/format/jalali.ts:127-151 | The century corrections of the Nowruz formula and of the day number cancel |
| JalaliCalendar.NowruzIs | web/src/lib/format/jalali.ts:173-176 | Nowruz is 365 days a year plus the leap count plus a constant |
| JalaliCalendar.NowruzSpacing | web/src/lib/format/jalali.ts:173-189 | Consecutive Nowruz days are 366 days apart exactly in leap years, over the whole range |
| JalaliCalendar.DayNumberDetermines | web/src/lib/format/jalali.ts:173-184 | Two valid Jalali dates on the same day are equal |
| JalaliCalendar.ToJalaliCorrect | web/src/lib/format/jalali.ts:204-233 | Every Gregorian day of the span converts to a valid Jalali date of a supported year, on the same day |
| JalaliCalendar.ToGregorianCorrect | web/src/lib/format/jalali.ts:236-240 | Every valid Jalali date converts to a real Gregorian day of the span, on the same day |
| JalaliCalendar.JalaliRoundTrip | web/src/lib/format/jalali.ts:204-247 | Jalali to Gregorian and back is the identity |
| JalaliCalendar.GregorianRoundTrip | web/src/lib/format/jalali.ts:204-247 | Gregorian to Jalali and back is the identity |
| JalaliCalendar.ConsecutiveDays | web/src/lib/format/jalali.ts:204-247 | Consecutive days convert to consecutive dates |
| JalaliCalendar.MarchRange | web/src/lib/format/jalali.ts:93-129 | Nowruz falls on 20, 21 or 22 March in every supported year |
| JalaliCalendar.MarchNowadays | web/src/lib/format/jalali.ts:93-129 | From 1339 to 1581 on 20 or 21 March, in 1338 and in 1582 on the 22nd |
| JalaliCalendar.MonthSpacing | web/src/lib/format/jalali.ts:182-197 | In every supported year the months are six of 31 days, five of 30 and one of 29 or 30, each beginning where the one before ends |
| JalaliCalendar.KnownNowruz | web/src/lib/format/jalali.test.ts:78-92 | First days of years known in both calendars convert to each other |
| JalaliCalendar.KnownDays | web/src/lib/format/dateInput.test.ts:5-18 | So do other days |
| DateInput.ToLatinDigits | web/src/lib/format/dateInput.ts:21-31 | The loop replaces digits of every script and nothing else |
| DateInput.ParseJalaliInput | web/src/lib/format/dateInput.ts:34-60 | The parser reads three runs of digits, or eight digits, and refuses what is no supported date |
| DateInput.IsoRoundTrip | web/src/lib/format/jalali.ts:268-291 | Reading a written ISO date gives the date back |
| DateInput.IsoReadsIff | web/src/lib/format/jalali.ts:268-291 | A text is read as a date if and only if it begins with that date's ISO text |
| DateInput.IsoLayout | web/src/lib/format/jalali.ts:268-273 | Year, month and day stand in their places of the ISO text |
| DateInput.FieldRoundTripIff | web/src/lib/format/dateInput.ts:34-70 | For every day of the span the field's text parses back to the same ISO date if and only if the Jalali year is not negative |
| DateInput.CompactAndSlashedParse | web/src/lib/format/dateInput.ts:34-60 | For every year below 10000: the compact and the slashed text of a date, in Latin or Persian digits, are answered by the ISO text of its day, and by nothing if there is no such date |
| DateInput.ThreeRunsParse | web/src/lib/format/dateInput.ts:38-60 | Three runs of digits of any script, with anything but digits between them and with or without leading zeros, are read as year, month and day |
| DateInput.AnswersADate | web/src/lib/format/dateInput.ts:34-60 | Whatever is typed, the answer is nothing or the ISO text of a valid supported date |
| DateInput.KnownText | web/src/lib/format/dateInput.test.ts:9-18 | The documented example |
| Numerals.ToPersianDigits | web/src/lib/format/digits.ts:33-39 | The loop maps every Latin digit and nothing else |
| Numerals.LatinDigitsOnly | web/src/lib/format/digits.ts:48-61 | The loop keeps the digits of all three scripts, in Latin |
| Numerals.LatinOfPersian | web/src/lib/format/digits.ts:25-61 | Reading the digits back undoes the Persian script |
| Numerals.ScriptsByCode | web/src/lib/format/digits.ts:25-61 | The three digit scripts by their code points |
| MoneyText.GroupDigits | web/src/lib/format/digits.ts:67-75 | Counting what remains from the left gives groups of three from the right |
| MoneyText.FormatToman | web/src/lib/format/money.ts:119-124 | Sign, Persian digits, grouping and isolates |
| MoneyText.IsStrictlyNumeric | web/src/lib/format/digits.ts:128-136 | The guard accepts exactly the empty text and signed runs of digits with separators and spaces inside |
| MoneyText.ParseToman | web/src/lib/format/money.ts:60-86 | Parsing refuses what is not strictly numeric and normalises the rest |
| MoneyText.ParseOfPrinted | web/src/lib/format/money.ts:60-124 | Parsing a printed amount gives its canonical text, for every integer |
| MoneyText.PrintedInjective | web/src/lib/format/money.ts:119-124 | No two amounts print alike |
| MoneyText.PrintedLooksLike | web/src/lib/format/money.ts:119-124 | A printed amount stands between its isolates, with a minus in front exactly when negative, in Persian digits with U+066C before each third digit from the right |
| MoneyText.ParsedIff | web/src/lib/format/digits.ts:109-136 | Exactly which typed texts are amounts, and which amount each is |
| MoneyText.ScriptIrrelevant | web/src/lib/format/digits.ts:109-115 | Writing Latin digits in Persian script does not change what a text normalises to |
| Tokens.TokenService.IssueRefreshToken | backend/internal/auth/token.go:132-150 | A login gives a new usable token in a new family |
| Tokens.TokenService.RotateRefreshToken | backend/internal/auth/token.go:163-215 | A rotation on its own meets its specification, the faults of the store included |
| Tokens.TokenService.RevokeAll | backend/internal/auth/token.go:59-63 | Every token of the family and no other is revoked |
| Tokens.TokenService.RevokeFamilyOf | backend/internal/auth/token.go:220-232 | Logout revokes the token's family; an unknown token changes nothing |
| Tokens.RotateSucceedsIff | backend/internal/auth/token.go:163-215 | A rotation succeeds exactly for a usable, unexpired token, and its successor is then the family's only usable one |
| Tokens.RotateAnswers | backend/internal/auth/token.go:163-202 | Which answer every rotation gets, and what becomes of every token: nothing but the presented one or its family is revoked, and the successor expires after its time to live |
| Tokens.LoginAndLogout | backend/internal/auth/token.go:132-232 | A login adds one usable token in a new family, with its expiry; a logout revokes the family and nothing else |
| Tokens.ReachableInv | backend/internal/auth/token.go:132-232 | In every run of calls that do not overlap each family has at most one usable token |
| Tokens.DeadForever | backend/internal/auth/token.go:163-232 | In such a run a family without a usable token never regains one |
| Tokens.ReuseKillsFamily | backend/internal/auth/token.go:170-176 | In such a run presenting a used token ends its family for good, unless the store fails to revoke it |
| Tokens.ExchangedOnce | backend/internal/auth/token.go:163-215 | In such a run no token is exchanged twice |
| TokenRace.AloneIsRotate | backend/internal/auth/token.go:163-215 | The statements of one rotation without interruption, failing where the store does, are the rotation of the sequential model |
| TokenRace.AloneIsLogout | backend/internal/auth/token.go:220-232 | The same for a logout |
| TokenRace.StakeExact | backend/internal/auth/token.go:43-63 | By exactly how much each single statement changes what is usable or promised in a family |
| TokenRace.AtMostOneIff | backend/internal/auth/token.go:163-215 | For every run of overlapping calls: a family has at most one token usable or promised throughout if and only if no rotation saves a token revoked since its reading while another is usable or promised |
| TokenRace.AtMostOneUsable | backend/internal/auth/token.go:163-215 | Two usable tokens of one family occur only after such a save |
| TokenRace.StakeBecomesUsable | backend/internal/auth/token.go:192-202 | From every state the promised successors can all become usable, so the condition cannot be relaxed |
| TokenRace.EndedForeverIff | backend/internal/auth/token.go:163-232 | For every run: a family with nothing usable or promised stays so if and only if no rotation saves a token revoked since its reading |
| TokenRace.RevokedEndsIff | backend/internal/auth/token.go:59-63 | A revocation leaves no usable token, and ends the family if and only if no rotation of it has saved and not yet created |
| TokenRace.SavedAgainIsStale | backend/internal/auth/token.go:186-190 | Once a token is revoked every later save of it is such a save, in every run |
| TokenRace.ExchangedTwice | backend/internal/auth/token.go:163-202 | Two overlapping presentations of one token leave two usable tokens, from any state |
| TokenRace.RevokedComesBack | backend/internal/auth/token.go:186-231 | A logout between a rotation's save and create is undone by the create |
| Session.PresentsUsableIff | web/src/lib/api/refreshQueue.ts:38-61 | However many requests run at once, after a login or a reload: a refresh presents a usable token, and the session's family lives, if and only if no rotation revoked its token and then failed to store the successor |
| Session.NeverPresentsRevoked | web/src/lib/api/refreshQueue.ts:38-61 | Until then no refresh is ever answered as unknown or as reuse |
| Session.SentAtMostTwice | web/src/lib/api/http.ts:115-152 | Every request is replayed at most once |
| Session.RequestsAdvance | web/src/lib/api/http.ts:115-199 | A step that concerns a request brings it nearer to its end, any other leaves it alone: nothing waits for ever behind a settled refresh |
| Session.StepKeeps | web/src/lib/api/refreshQueue.ts:50-61 | A refresh is under way exactly when some request waits for it, and the cookie is usable unless its successor is on the way |
| Session.EndsExactly | web/src/lib/api/http.ts:115-152 | A request succeeds exactly on a successful answer and fails exactly on another failure, a 401 to its replay, or a refresh that is not granted |
| Session.ResumesExactly | web/src/lib/api/http.ts:115-152 | A granted refresh lets the waiting requests go out and starts the replays; a request counts as sent exactly when it goes out |
| Session.SessionExactly | web/src/lib/api/refreshQueue.ts:38-68 | Access token and cookie change exactly with a granted or refused refresh or a 401 to a replay |
| Session.RefreshExactly | web/src/lib/api/refreshQueue.ts:38-61 | A refresh goes out, with the cookie, exactly when one is needed and none is under way |
| Session.Page.Send | web/src/lib/api/http.ts:160-199 | A request is sent or queued as the step says, and a refresh goes out exactly when none was under way and one is needed |
| Session.Page.Receive | web/src/lib/api/http.ts:115-152 | A 401 queues the request for one replay, or ends the session on the replay |
| Session.Page.RefreshSettles | web/src/lib/api/refreshQueue.ts:50-61 | The settled refresh is cleared and all its waiters resume or fail |
| FileCache.ObjectUrls.GetFileObjectUrl | web/src/lib/files/fileCache.ts:48-62 | A lookup makes its id the most recent one, with a URL that is not revoked |
| FileCache.ObjectUrls.EvictOverflow | web/src/lib/files/fileCache.ts:74-83 | The eviction loop drops the oldest entries beyond 24 and promises their revocation |
| FileCache.ObjectUrls.ClearFileObjectUrls | web/src/lib/files/fileCache.ts:86-91 | Clearing empties the cache and promises the revocation of everything in it |
| FileCache.CacheIsMostRecent | web/src/lib/files/fileCache.ts:48-91 | After every run the cache holds exactly the 24 most recently used distinct ids since the last clear, in order of use |
| FileCache.LookupEffect | web/src/lib/files/fileCache.ts:48-83 | A cached id keeps its URL without a download, any other starts one; the oldest entry goes exactly when a new one does not fit |
| FileCache.RevokedExactlyOnce | web/src/lib/files/fileCache.ts:74-95 | A cached URL is not revoked; any other is revoked once its promised revocation runs, and never twice |
| FileCache.LetGo | web/src/lib/files/fileCache.ts:74-95 | Whatever has left the cache is revoked once its download has finished, and only once |
| Game.ReachableFitsSchema | web/src/lib/game/persistence.ts:29-70 | Every state any player can reach from any seed fits the save schema |
| Game.NeverStuck | web/src/lib/game/engine.ts:121-201 | In every reachable action phase every action is affordable and accepted; in an event phase some choice is |
| Game.TwentyFourMoves | web/src/lib/game/engine.ts:133-201 | A campaign is complete exactly after 24 accepted moves and then accepts none |
| Game.EachEventThreeTimes | web/src/lib/game/engine.ts:139-153 | Every complete campaign has met each of the four events three times |
| Game.SeedCycle | web/src/lib/game/engine.ts:227-233 | The 32-bit seed step adds three modulo four |
| Game.SeedStep | web/src/lib/game/engine.ts:231-233 | Signed multiplication, addition and wrapping are one linear congruence modulo two to the 32nd |
| Game.EventsFollowSeed | web/src/lib/game/engine.ts:133-153 | Every month's event follows from the seed modulo four, in reverse order of the list |
| Game.ActionOutcome | web/src/lib/game/engine.ts:44-49 | What each action costs and how it moves the three metrics, held between 0 and 100 |
| Game.ChoiceOutcome | web/src/lib/game/engine.ts:51-101 | What each choice costs, moves and records, and where the month goes on |
| Game.CreditsAddUp | web/src/lib/game/engine.ts:133-201 | Over every run the credits are the initial ones and the monthly income less what the history has cost |
| Game.RefusedMove | web/src/lib/game/engine.ts:133-175 | When a move is refused, and why; it changes nothing |
| Game.FirstMonth | web/src/lib/game/engine.test.ts:68-87 | The documented first month |
| Game.GameStorage.SaveCampaign | web/src/lib/game/persistence.ts:106-115 | A save happens exactly for a fitting campaign on a writable storage |
| Game.GameStorage.LoadCampaign | web/src/lib/game/persistence.ts:81-104 | A load returns exactly a fitting save of this version and discards anything else, as far as the storage can be read and written |
| Game.GameStorage.ClearCampaign | web/src/lib/game/persistence.ts:117-124 | Clearing removes the save and no other, and tells whether the storage allowed it |
| Game.SchemaMeans | web/src/lib/game/persistence.ts:29-70 | What fits the schema is a month with its whole history, bounded metrics, and the selection and event of its phase |
| Game.GameStorage.SaveThenLoad | web/src/lib/game/persistence.ts:81-115 | Saving any reachable state and loading it gives it back |
| Announcements.NormalizedIsNormal | backend/internal/announcement/service.go:360-417 | What is stored as an audience is always normalised |
| Announcements.AcceptedReaches | backend/internal/announcement/service.go:360-417 | Whom an accepted audience reaches, said of what was typed: the building, the block, the floor of that number, the unit of that identifier |
| Announcements.RefusedAudience | backend/internal/announcement/service.go:360-417 | Exactly when an audience is refused, and why |
| Announcements.BuildIndex | backend/internal/announcement/repository.go:248-266 | The index holds exactly what the resident's units say |
| Announcements.IndexMeetsSpecification | backend/internal/announcement/repository.go:388-414 | On normalised announcements the index decides as: some unit of the resident is in the building and in the audience |
| Announcements.IndexDecidesIff | backend/internal/announcement/repository.go:248-266 | For every announcement and resident, normalised or not: the index decides as the specification if and only if the audience is neither an empty block that the resident has nor a unit of the resident in another building |
| Announcements.VisibleAnnouncements | backend/internal/announcement/repository.go:246-291 | The list is the table filtered by that specification and the window, in order |
| Announcements.IsVisible | backend/internal/announcement/repository.go:308-342 | The single test decides the same |
| Announcements.ListedIffVisible | backend/internal/announcement/repository.go:246-342 | An announcement is listed exactly when it is visible on its own |
| Announcements.ListedInOrder | backend/internal/announcement/repository.go:268-291 | The list holds every visible announcement once for each place, in the order of the table |
| Announcements.Handover | backend/internal/announcement/repository.go:276-278 | When one announcement expires as its successor is published, exactly one of the two is visible throughout |
| Announcements.SeenThroughOccupancy | backend/internal/announcement/service.go:323-340 | A resident sees what is open and reaches a unit that a person with this phone occupies and has not left |
| Announcements.NotifiedVisibleIff | backend/internal/announcement/repository.go:157-203 | For every announcement: inside the window an active user is notified exactly when it is visible to that user, if and only if it does not reach the user by an empty block value and a unit without a block alone |
| Announcements.NotifiedIffVisible | backend/internal/announcement/repository.go:157-203 | So the two coincide for every announcement without an empty block value, also when its unit was deleted later |
| Announcements.ListPage | backend/internal/announcement/repository.go:207-239 | A page is the window of its page size over the list |
| Announcements.PlaceOnPage | backend/internal/announcement/repository.go:211-238 | Which place of the list stands where on which page, for every size |
| Announcements.PagesGiveAll | backend/internal/announcement/repository.go:218-238 | The pages in a row are the whole list, each item once |

## Left out

- LedgerLifecycle.StepKeeps: adding, changing and deleting cost items is one step that sets the period's item list, because the field checks of the form do not affect the tables' invariants; the accepted items here include all that the form accepts.
- LedgerBalance.PaymentsClosedForm: is stated for manual payments; confirmed gateway payments book through the same operation, and their effect on the ledger is in LedgerMoney.
- LedgerCoverage.ReachableCovered: each call is one step; overlapping payments and callbacks are in PaymentRace, for one invoice at a time.
- Store.Store.Calculate: status, snapshots, replacement and status save are one step; a late status save is in PeriodRace, snapshots that go stale before the replacement and edits between a first replacement and its save are not modelled.
- Store.Store.CancelInvoice: is one step; its overlap with manual payments is in PaymentRace.
- Store.Store.AddAdjustment: is one step; a note written between a payment's reading and its write is not modelled.
- LedgerHistory.FirstCallbackDecides: each call is one step; callbacks of one payment that overlap are in PaymentRace.
- Tokens.ReachableInv: is about calls that do not overlap; overlapping ones are in TokenRace.
- DateInput.FieldRoundTripIff: ISO dates outside the supported Jalali years are not formatted by the model.
- Session.NeverPresentsRevoked: covers one page with one cookie jar, no lost response, and ends at logout; a reload starts a new run, a reload during a refresh is not modelled.
- FileCache.CacheIsMostRecent: failed downloads are left out, because a late failure after an eviction removes a newer entry of the same id.
- Announcements.NormalizedIsNormal: the length of a block name is counted in characters, not bytes, and the readers of unit identifiers and floor numbers are parameters.
- Game.ReachableFitsSchema: JSON is the identity on validated saves; the score is left out because it goes through floating point.
- Late fees go through floating point; the late fee is an arbitrary function of the base amount, and every calculation passes zero days late.
- 64-bit overflow of amounts is not modelled: Quota bounds every share by its total, sums over many invoices are unbounded integers here.
- Reversing a payment is not a step, because no route reaches it.
- Expiry of invoices is not a step; the status exists and counts as open.
- Access checks, notifications, audit entries, HTTP and SQL plumbing, and the fields of periods and items that carry no amounts.
- The preview's list of at most 100 invoices, its titles and the decimal text of exact shares.
- Signing of access tokens, hashing of refresh tokens, cookies and CORS; token values are distinct by construction.
- Percentages of amounts, compact amounts and the browser's own Persian date formatting.
- Read marks and unread counts of announcements; attachments.
