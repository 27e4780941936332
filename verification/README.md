# Trading service: verified models

Dafny models of the decision-making core of the trading service: how broker orders become
ledger transactions, the three accountings kept over that ledger, and a few self-contained
numeric and state cores. Each Python component has one module; code that updates state in place is
a class or a loop proved against a specification function, and the laws are lemmas about those
functions, stated over every input, every ledger or every run. Money is `real` (exact, like
`Decimal`); storage at 8 places and Python's half-even `round` are written out where a law
depends on them.

Verify everything with `dafny verify dfyconfig.toml`.

| file | what it models |
|---|---|
| `Orders`, `Desk` | order rows, the one function that books a fill, and the services that change rows |
| `Conservation`, `Drift`, `Settling`, `FineFills` | venue, late/lost/repeated reports, rows and ledger as one step machine; the drift report |
| `Execute`, `Orphans`, `Replays` | concurrent idempotent submission, interleaved at every await, with lost answers, dying workers and the kill switch |
| `Portfolio`, `TaxLots`, `LotLaws`, `FifoLine`, `LifoStack` | average cost, FIFO and LIFO lots, and their common laws |
| `PaperTrading` | the simulated account |
| `Valuation` | forward and reverse DCF |
| `Backtest` | simulator and walk-forward folds |
| `Performance`, `RiskHalt`, `Equity` | drawdown, the daily snapshot race, the automatic halt, and the equity it measures |
| `Rebalance`, `VectorStore`, `LeaderLock` | target trades, the bounded vector store, the TTL lock |
| `Wire`, `Numerals` | the decimal printer and parser |
| `Money`, `Text` | rounding and order-independent sums; symbol clean-up |

## What the proofs found

Where the code falls short of what its comments promise, the model keeps the code and a lemma says
exactly when it does meet the promise.

- An order closed by a terminal report other than "filled" is never booked, so the units a cancel
  leaves behind, and a fill after "done for the day", never reach the ledger; broker and ledger then
  differ by exactly those units for good (`PartialCloseLosesItsFill`, `FillAfterDayEndIsLost`,
  `DriftsExactlyWhen`).
- The tax-lot report raises `IndexError` for the whole report exactly when some ledger prefix
  oversells a symbol, a ledger average cost silently clamps; one sale booked before its purchase is enough
  (`ReportFaultsExactlyOnOversell`, `SaleBeforePurchaseFails`).
- The ledger keeps fills at 8 places and the broker may fill at more: with everything booked and
  reconciled a symbol still drifts exactly when these fractions add up to more than the tolerance,
  which takes at least 200 booked orders; 300 with a ninth decimal do it
  (`SettledIsInSyncExactlyWhen`, `RoundingIsSmall`, `FineFillsDrift`).
- An order the venue accepted ends without a row and an audit record exactly when its answer was lost
  on the way to the commit, or another order's row took its key. A venue that refuses a repeated client
  order id excludes the second case, not the first: the resend after a read timeout is refused as a
  repeat, and the key never succeeds again (`OrphanedExactlyWhen`, `OnlyLostAnswersOrphan`,
  `LostKeyIsDead`, `LostAnswerLeavesAnOrphan`, `RaceLeavesAnOrphan`).
- The kill switch comes before the duplicate check, so a halted account's retry is refused although its
  order exists; let through, it only ever echoes that order (`HaltStopsARetry`, `RetriesOnlyEcho`).
- With positive cash flow, and growth above the bracket's lower end, the reverse DCF searches for the
  growth behind a fair value exactly when there is at least one (million) share and the value is not
  floored at one cent, or hits that floor exactly. With negative cash flow every answer is an end of
  the bracket (`SolverSearchesForGrowthExactlyWhen`, `NegativeCashFlowMisleadsTheSolver`).
- Walk-forward accepts folds whose warm-up and test bars together do not exceed 15; such a test fold
  cannot trade at all (`FoldCanTradeExactlyWhen`).
- The one-pass drawdown misses the pairwise maximum exactly when some negative equity falls further from
  the least positive value before it than every date falls from its running peak; and the report is sure to show the kill
  switch's loss exactly for openings and marks that are not negative, or show none
  (`OnePassIsPairwiseExactlyWhen`, `ReportCoversKillSwitchLossExactlyWhen`).
- The kill switch's equity leaves cash out, so a day's change is the trading result exactly when open cost
  is unchanged: selling out at cost halts an account that lost nothing, and buying more can hide the
  loss of half of it (`ChangeIsResultExactlyWhen`, `SellingOutHalts`, `BuyingHidesALoss`).
- On a day that opens with negative equity the kill switch halts on a rise, and never on a fall
  (`LossTestFollowsTheOpening`, `HaltMeansAFallExactlyWhen`).
- A sweep that crosses midnight between its check and its mark uses up the next day's automatic halt,
  and nothing else can (`HeldBackExactlyWhen`, `MidnightSweepUsesUpTheNextDay`).
- Exclusion is lost exactly when a worker gets the key beside a job that outlived its own or runs without
  one, or goes in without Redis while another is inside (`ExclusiveExactlyWhen`,
  `ReachableExclusiveExactlyWhen`, `FailingOpenAdmitsASecondWorker`).
- `_wire` prints equal zeros differently: "-0" and "0" (`NegativeZeroPrintsASign`).
- A vector store of capacity 0 stays empty but remembers keys (`NoCapacityLeaksKeys`).

## Model

| member | source | states |
|---|---|---|
| Desk.Desk.ApplyRemoteState | app/services/reconciliation_service.py:56-104 | the row takes the report's status and fills; a transaction is appended exactly for a filled report of at least a millionth of a unit at a price above zero on an unreconciled row; such fills and unfilled closes set reconciled |
| Desk.Desk.IngestFillEvent | app/services/reconciliation_service.py:106-138 | a webhook applies its report to the row with that broker id, and ignores unknown ids |
| Desk.Desk.ReconcileOpenOrders | app/services/reconciliation_service.py:140-161 | the sweep is the fold of single polls over the rows unreconciled at its start; the count is the number of transactions appended |
| Desk.Desk.Resync | app/services/trade_service.py:335-351 | copies the venue's status and fill fields one by one, keeps the old status when none is given, never books, never raises |
| Desk.Desk.CancelOrder | app/services/trade_service.py:232-282 | succeeds exactly for an own, cancelable order the venue accepts, and marks it pending_cancel; a "too late" answer resyncs the row with what the venue then says and refuses; every other failure changes nothing |
| Desk.Desk.CancelOpenOrders | app/services/trade_service.py:284-333 | marks exactly the user's own unreconciled orders in a working status that the venue accepts, counts them, and one refusal strands none of the rest |
| Desk.CountIsRowsCanceled | app/services/trade_service.py:299-315 | the count a flatten returns is the number of rows it marks |
| Desk.Desk.ReplaceOrder | app/services/trade_service.py:353-424 | succeeds exactly under the listed checks; retires the old row without reconciling it and appends the new one; otherwise nothing changes |
| Orders.OneOp | app/services/reconciliation_service.py:72-104 | any single step keeps an order's identity, reconciles it only by a closing report and books it only by a valid fill that finds it open |
| Orders.ExactlyOnceBooking | app/services/reconciliation_service.py:66-104 | over any sequence of steps an order is reconciled exactly when a closing report arrived, and its transactions are the first closing report when that is a valid fill, none otherwise |
| Orders.BookableIs | app/services/reconciliation_service.py:78-104 | which reports book and which only close, by status, quantity and price |
| Orders.FirstFillIsBooked | app/services/reconciliation_service.py:78-95 | over any sequence of steps, filled with at least a millionth of a unit at a price above zero is booked at that quantity and price, unless an earlier report was filled or ended the order |
| Orders.NothingElseIsBooked | app/services/reconciliation_service.py:78-84 | over any sequence of steps nothing is booked for another status, less than 0.000000999 units, a price of zero or below, or no price |
| Orders.BookingRepeatsTheFill | app/services/reconciliation_service.py:78-95 | a booked transaction carries the quantity and price of one filled report at 8 places, and the order's own user, side and upper-case symbol |
| Orders.ReconciledIsMonotone | app/services/reconciliation_service.py:80-103 | reconciled never reverts |
| Orders.ToleranceIsOneMillionth | app/services/reconciliation_service.py:21 | a storable quantity passes the double 1e-6 exactly from one millionth up |
| Desk.OpenRowsAre | app/services/reconciliation_service.py:144-146 | the sweep selects exactly the unreconciled rows, each once |
| Desk.SeenFillsStaySelected | app/services/reconciliation_service.py:140-161 | an order stays selected exactly while it is not booked and no terminal report without a fill closed it first |
| Conservation.StepKeepsSound | app/services/reconciliation_service.py:56-161 | every step of venue, network and services keeps: booked entries repeat a finally filled venue order at 8 places, at most one entry per order, booked implies reconciled, reconciled implies booked or closed by a report |
| Drift.BookedFillsAreTheLedger | app/services/reconciliation_service.py:85-93 | the ledger's signed units are the fills of booked orders at 8 places plus the manual entries |
| Drift.RunConservesUnits | app/services/portfolio_service.py:173-199 | over every run, broker position minus reconstructed holding is unbooked fills plus fractions rounded away minus manual units minus units dropped by the clamp |
| Drift.RoundingIsSmall | app/models/transaction.py:21 | the fractions rounded away are at most half a unit in the eighth place per booked order, and none for fills that fit the column |
| Drift.PositionDrift | app/services/reconciliation_service.py:163-195 | lists exactly the symbols that differ by more than the tolerance; in sync means none, or that positions could not be fetched |
| Drift.ShownDriftIsTelling | app/services/reconciliation_service.py:182-188 | a drift beyond the tolerance is never shown as zero, and what is shown is off by at most half a millionth |
| Drift.DriftsExactlyWhen | app/services/reconciliation_service.py:173-195 | over every run a symbol drifts exactly when its unbooked fills and rounded fractions, less manual and dropped units, exceed the tolerance |
| Drift.SettledIsInSyncExactlyWhen | app/services/reconciliation_service.py:163-195 | with every fill booked, a symbol is in sync exactly when the rounded fractions are within the tolerance |
| Drift.FittingRoundingIsTolerated | app/services/reconciliation_service.py:21 | which they are below 200 booked orders of the symbol, or when every fill fits the column |
| FineFills.FineFillsDrift | app/services/reconciliation_service.py:173-195 | a concrete run: 300 orders filled at nine places, all booked and reconciled, drift |
| Settling.ReconciledRunIsInSyncExactlyWhen | app/services/reconciliation_service.py:163-195 | once every order is reconciled and none closed partially filled, a symbol is in sync exactly when the rounded fractions are within the tolerance |
| Settling.SweepHandles | app/services/reconciliation_service.py:149-159 | an open row that is answered ends as its answer says, booked when that is a valid fill |
| Settling.SweepBooksTheFill | app/services/reconciliation_service.py:78-95 | an open row answered filled, with at least a millionth of a unit at a price above zero, is booked and reconciled by the sweep |
| Settling.UnansweredRowsStay | app/services/reconciliation_service.py:149-156 | a row whose user has no provider, or whose poll failed, stays as it is |
| Settling.OneSweepBringsInSyncExactlyWhen | app/services/reconciliation_service.py:140-195 | after any history, one complete sweep over a finished venue leaves a symbol in sync exactly when the rounded fractions are within the tolerance |
| Settling.ClosedUnfilledIsNeverBooked | app/services/reconciliation_service.py:102-103 | an order first closed by a terminal report other than filled is never booked and never selected again |
| Settling.PartialCloseLosesItsFill | app/services/reconciliation_service.py:102-103 | a concrete run: three units bought before a cancel never reach the ledger |
| Settling.FillAfterDayEndIsLost | app/services/reconciliation_service.py:78-103 | a concrete run: an order done for the day and filled later is never booked |
| Execute.OrderTable.FindByClientOrderId | app/services/trade_service.py:541-549 | finds the first row of a (user, key), or none when there is none |
| Execute.OrderTable.PersistOrder | app/services/trade_service.py:551-589 | adds row and audit record together, or neither when the unique index objects |
| Execute.EventIsSound | app/services/trade_service.py:470-589 | every step between two awaits, resends, lost answers, halts and deaths included, keeps the table unique and audited, and every finished call consistent with it |
| Execute.OneOrderPerKey | app/models/order.py:51-55 | over any interleaving a (user, key) has at most one row |
| Execute.AnswersNameTheRow | app/services/trade_service.py:483-539 | a successful answer, fresh or replayed, never changes and names the key's only row, whatever cancels and replaces follow |
| Execute.SuccessHasItsRowAndAudit | app/services/trade_service.py:524-531 | a success has its row, a lost race always finds the winner's, and each row written by execute has exactly one audit record |
| Replays.RetriesOnlyEcho | app/services/trade_service.py:483-488 | over every run and either venue policy, once a call under a (user, key) has succeeded with an order, every call under it not yet past its pre-check is before it, echoes that order, or was stopped by the kill switch or its worker's death |
| Replays.RetriesPlaceNothing | app/services/trade_service.py:480-488 | and no step of such a call gives the venue another order |
| Replays.RetryIsEchoed | app/services/trade_service.py:485-488 | let through by the kill switch, the retry answers with that order and changes nothing else |
| Replays.ClosedKeyStaysClosed | app/services/trade_service.py:484-531 | once a key has its order and no earlier request is on its way, the venue takes no other order under it, whatever follows |
| Replays.NewKeyIsPlaced | app/services/trade_service.py:484-532 | a request under a key neither table nor venue knows is placed, recorded and audited under its user, if gates and venue agree |
| Replays.NoKeyIsAFreshKey | app/services/trade_service.py:484 | over every run a request without a key, or with an empty one, goes by a key no call and no row goes by |
| Replays.ThirdTimeoutEndsTheCall | app/providers/alpaca_broker_provider.py:51-56 | a timed-out request is sent three times at most, under the same key; another failure ends it at once |
| Replays.HaltStopsARetry | app/services/trade_service.py:473-478 | the kill switch stops a request before the duplicate check, a retry included |
| Replays.AuditsNameTheUser | app/services/trade_service.py:551-589 | over every run the audit record of an executed order is filed under the order's own user |
| Orphans.EventTracks | app/services/trade_service.py:510-531 | every step, lost answers and deaths included, keeps each accepted order in hand, lost, or with a row under its key, and no row or hand holds a lost one |
| Orphans.CommitWins | app/services/trade_service.py:510-526 | with a venue that refuses repeated keys an order in hand cannot lose its commit |
| Orphans.OrphanedExactlyWhen | app/services/trade_service.py:510-531 | over every interleaving and either venue policy, an accepted order no call still holds has no row exactly when its answer was lost or its key's row carries another order |
| Orphans.OnlyLostAnswersOrphan | app/providers/alpaca_broker_provider.py:98-102 | with a venue that refuses repeated keys it takes one order per (user, key), no commit loses the race, and only a lost answer leaves an order without its row |
| Orphans.LostKeyIsDead | app/services/trade_service.py:484-531 | with such a venue no request under a lost order's key ever succeeds or gets a row, whatever follows |
| Orphans.LostAnswerLeavesAnOrphan | app/providers/alpaca_broker_provider.py:25-66 | a concrete run: the first attempt is accepted and times out, the second is refused as a repeat, and the order has no row and no audit record |
| Orphans.RaceLeavesAnOrphan | app/services/trade_service.py:524-531 | with a venue that takes repeated keys, a concrete race leaves a venue order with no row and no audit record |
| Portfolio.Holdings.ApplyTransaction | app/services/portfolio_service.py:173-199 | updates one symbol's entry as the average-cost step says and no other |
| Portfolio.PortfolioService.ReconstructHoldings | app/services/portfolio_service.py:79-91 | one entry per traded symbol, each the per-symbol replay of the user's ledger |
| Portfolio.PortfolioService.RecordTransaction | app/services/portfolio_service.py:24-48 | refuses exactly a sale above the rounded holding; otherwise appends one entry under the cleaned symbol, with its amounts at the column's 8 places, and returns it |
| Portfolio.LowWaterIsMinimum | app/services/portfolio_service.py:191-199 | the low-water mark is the minimum of the signed prefix sums |
| Portfolio.ClampedReplayIsReflectedSum | app/services/portfolio_service.py:186-199 | for every ledger, oversells included, the quantity is the signed sum minus its minimum, and the units dropped are that minimum negated |
| Portfolio.ClampsExactlyOnOversell | app/services/portfolio_service.py:192-199 | units are dropped exactly when some prefix oversells |
| Portfolio.AverageCostBalances | app/services/portfolio_service.py:186-199 | quantity times average cost minus realized is purchases minus matched proceeds |
| Portfolio.MatchedInFull | app/services/portfolio_service.py:191-194 | without oversells matched proceeds are all proceeds |
| Portfolio.GuardedLedgerNeverClamps | app/services/portfolio_service.py:24-48 | over every run of requests, at any precision, no user's recorded ledger oversells and its replay drops nothing |
| Portfolio.RecordedExactlyWhenHeld | app/services/portfolio_service.py:24-48 | over every run a purchase is recorded, and a sale exactly when it asks for no more than the user's units bought less units sold |
| Portfolio.AverageMovesOnlyOnPurchases | app/services/portfolio_service.py:186-199 | over every ledger a purchase realizes nothing, a sale realizes its margin over the average and leaves it alone, and the average lies between the purchase prices |
| Text.TickerIsStable | app/services/portfolio_service.py:27 | cleaning a symbol twice, or upper-casing a stored one as a booked fill does, gives the same ledger key |
| Text.TickerIs | app/services/portfolio_service.py:27 | surrounding white space is dropped, letters are raised, and nothing else changes |
| TaxLots.TaxLotReport.ConsumeSale | app/services/tax_lot_service.py:57-76 | the in-place loop is the specified consumption; it faults exactly when lots run out; only the report year's slices are kept; it terminates |
| TaxLots.TaxLotReport.Run | app/services/tax_lot_service.py:30-54 | fails exactly when some symbol's lots run out; otherwise lots and realized list are those of the ledger, and the long total sums the listed gains held for 366 days or more, the short total the others |
| LotLaws.ConsumeConserves | app/services/tax_lot_service.py:59-76 | a sale faults exactly beyond the open lots; otherwise units, cost and proceeds pass from lots to slices without loss and lots stay positive |
| LotLaws.LotsBalance | app/services/tax_lot_service.py:30-76 | for FIFO and LIFO: completes exactly without oversell, open lots sum to the signed sum, realized minus open cost is proceeds minus purchases |
| LotLaws.ReportFaultsExactlyOnOversell | app/services/tax_lot_service.py:61-62 | the report fails exactly when some symbol has an oversold prefix |
| LotLaws.SaleBeforePurchaseFails | app/services/tax_lot_service.py:33-39 | a concrete ledger, a sale before its purchase, on which the report fails and average cost drops the unit |
| LotLaws.ThreeAccountingsAgree | app/services/tax_lot_service.py:30-76 | average cost, FIFO and LIFO have one balance, open lots sum to the holding, and all realized totals coincide when the position is flat |
| LotLaws.YearsPartition | app/services/tax_lot_service.py:64-72 | a realized slice is in its own year's report as often as realized, and in no other |
| LotLaws.YearlyGainsAddUp | app/services/tax_lot_service.py:48-54 | the yearly reports add up to the whole list, for exact and for listed gains |
| LotLaws.TermsAddUp | app/services/tax_lot_service.py:48-53 | short and long totals add up to the listed gains, at most half a cent per slice from the exact gain |
| LotLaws.SlicesComeFromTheLedger | app/services/tax_lot_service.py:59-72 | every realized slice carries the stamps of a purchase and of a sale of its symbol |
| LotLaws.QuickSalesAreShort | app/services/tax_lot_service.py:48-67 | sales all within 365 days of every purchase of their symbol leave no long-term gain in any year |
| LotLaws.ReportSeparatesSymbols | app/services/tax_lot_service.py:31-39 | the report's single list, restricted to a symbol, is that symbol's own |
| FifoLine.ConsumeMovesTheCut | app/services/tax_lot_service.py:57-76 | a FIFO sale moves the cut on the line of purchases and realizes exactly the pieces it covers, in order |
| FifoLine.ConsumeIgnoresEmptyLots | app/services/tax_lot_service.py:46-76 | a FIFO sale does to the lots the report shows what it does to all of them, lots of quantity zero included |
| FifoLine.FifoCutsTheLine | app/services/tax_lot_service.py:46-76 | after every ledger without oversell the open lots shown are the purchases cut to [total sold, total bought) and the slices are what the sales cover; without entries stored as zero that is the whole book |
| LifoStack.ConsumeTakesTheTop | app/services/tax_lot_service.py:57-76 | a LIFO sale takes the pile of lots down by its quantity and realizes exactly what lay above, newest first |
| LifoStack.LifoTakesTheNewest | app/services/tax_lot_service.py:46-76 | after any ledger without oversell a sale does so to the lots the report shows, lots of quantity zero left out |
| PaperTrading.PaperAccount.ResetTo | app/services/paper_trading_service.py:36-45 | starts over with the given cash and no fills |
| PaperTrading.PaperAccount.ExecuteOrder | app/services/paper_trading_service.py:47-70 | a purchase goes through exactly when slipped amount and fee fit the cash, a sale exactly when the quantity is held; cash moves by amount and fee, and one fill records them; a refusal changes nothing |
| PaperTrading.PaperAccount.Quantity | app/services/paper_trading_service.py:83-87 | the net units of the cleaned symbol |
| PaperTrading.RealizedPnl | app/services/paper_trading_service.py:90-103 | the sum over symbols of the realized profit of each symbol's fills |
| PaperTrading.SalesKeepTheCost | app/services/paper_trading_service.py:90-103 | a purchase realizes nothing; a sale realizes its margin over the cost less its fee and leaves the cost of the rest alone |
| PaperTrading.StepKeepsLaw | app/services/paper_trading_service.py:47-70 | one request keeps cash and positions nonnegative and the books balanced |
| PaperTrading.CashCostAndProfitBalance | app/services/paper_trading_service.py:36-103 | over every run cash plus open cost is starting cash plus realized profit of the full history |
| PaperTrading.OrderCostsItsFriction | app/services/paper_trading_service.py:50-61 | at constant quotes an accepted order costs exactly its slippage and fee |
| PaperTrading.TradingNeverGains | app/services/paper_trading_service.py:47-70 | at constant quotes no run of orders raises cash plus holdings |
| Valuation.CalculateDcf | app/services/valuation_service.py:36-56 | the enterprise value is the year-by-year roll-back at the rates asked for, at 4% below 4% and at half a point below the discount rate where the terminal growth comes closer; cash flows grow once a year; fair value per share is floored |
| Valuation.CalculateReverseDcf | app/services/valuation_service.py:85-112 | fifty bisection passes on [-50%, 100%] for the price's enterprise value, at the same rates |
| Valuation.EvRollsBack | app/services/valuation_service.py:44-54 | the summed value is the value rolled back a year at a time from a perpetuity |
| Valuation.EvGrows | app/services/valuation_service.py:44-54 | enterprise value is strictly increasing in growth |
| Valuation.HigherWaccIsWorthLess | app/services/valuation_service.py:36-54 | from 4% up, with a terminal growth half a point below, the enterprise value strictly falls as the discount rate rises |
| Valuation.HigherWaccImpliesMoreGrowth | app/services/valuation_service.py:92-112 | and the growth implied by a target never falls |
| Valuation.BisectConverges | app/services/valuation_service.py:95-112 | after n passes the answer is within the bracket over 2^n of the clamped solution |
| Valuation.SolverInvertsEv | app/services/valuation_service.py:85-112 | the solver returns the growth behind a value, clamped to its bracket, within 1.5/2^50 |
| Valuation.SolverSaturates | app/services/valuation_service.py:88-112 | targets outside the bracket's values give its ends within the same bound |
| Valuation.NegativeCashFlowMisleadsTheSolver | app/services/valuation_service.py:95-112 | with negative cash flow every answer is an end of the bracket, and which one |
| Valuation.ZeroCashFlowFallsToTheFloor | app/services/valuation_service.py:95-112 | with no cash flow the answer is the lower end |
| Valuation.TargetIsRecoveredExactlyWhen | app/services/valuation_service.py:55-86 | the fair value leads back to its enterprise value exactly when neither floor applied, or the floor is hit exactly |
| Valuation.SplitsExactlyAtItsValue | app/services/valuation_service.py:95-112 | with positive cash flow the search separates its midpoints at a growth above the lower end exactly when the target is that growth's value |
| Valuation.SolverSearchesForGrowthExactlyWhen | app/services/valuation_service.py:55-112 | fed with the fair value, the solver searches for the growth behind it exactly when neither the share floor nor the one-cent floor changed the target |
| Valuation.ReverseUndoesForward | app/services/valuation_service.py:22-112 | feeding the unrounded fair value back returns the growth within 1.5/2^50, clamped to the bracket |
| Backtest.Simulate | app/services/backtest_service.py:199-235 | the loop computes the specified curve and trades |
| Backtest.NoLookAhead | app/services/backtest_service.py:208-222 | series agreeing on their first k closes drive the simulator to the same state |
| Backtest.CurveIsCausal | app/services/backtest_service.py:208-222 | the curve on a prefix is the prefix of the curve |
| Backtest.RunIsSound | app/services/backtest_service.py:202-222 | exactly one of cash and shares is held, and trade profits explain the position at cost |
| Backtest.ProfitsTelescope | app/services/backtest_service.py:217-246 | trade profits, final mark included, sum to final equity minus capital |
| Backtest.TradesAlternate | app/services/backtest_service.py:210-221 | entries and exits alternate and none precedes the warm-up |
| Backtest.TradesFollowTheRule | app/services/backtest_service.py:189-221 | over every series each entry is at the close of a bar past the warm-up with the indicator at or below the buy threshold and each exit at or above the sell threshold; every such low bar ends with a position, every high one without |
| Backtest.WalkForward | app/services/backtest_service.py:46-61 | refuses exactly too little data; otherwise each fold trains before and tests after its own edge |
| Backtest.WindowsTile | app/services/backtest_service.py:49-60 | test windows tile the last bars without gap or overlap and end at the last bar |
| Backtest.TestEntersInsideItsWindow | app/services/backtest_service.py:57-60 | no test trade enters before its window, warm-up bars or not |
| Backtest.FoldCanTradeExactlyWhen | app/services/backtest_service.py:201 | a test fold can trade exactly when warm-up plus test bars exceed 15 |
| Performance.MaxDrawdownPct | app/services/performance_service.py:94-107 | the loop computes the specified peak walk |
| Performance.PeakIsTheWorstStartExactlyWhen | app/services/performance_service.py:101-106 | at a date with a positive peak the loop's decline is the largest ending there exactly when the value is not negative or the peak is the only positive value so far |
| Performance.OnePassIsPairwiseExactlyWhen | app/services/performance_service.py:94-107 | over every series the result is the maximum pairwise decline exactly when each negative value falls no further from the least positive value before it than some date falls from its running peak |
| Performance.NonnegativeSeriesArePairwise | app/services/performance_service.py:94-107 | so it is on every series without a negative value, at most 100, below 100 for positive values |
| Performance.NegativeValuesCanBreakIt | app/services/performance_service.py:101-106 | a concrete series where it is not, and one with a negative value where it is |
| Performance.ReportCoversKillSwitchLossExactlyWhen | app/services/risk_service.py:187-198 | every window's drawdown is at least the kill switch's daily loss exactly when opening and current equity are not negative, or the switch sees no loss |
| RiskHalt.RunIsCoherent | app/services/risk_service.py:112-144 | snapshots only grow, and every call's answer is the stored row, over every interleaving |
| RiskHalt.OneOpeningPerDay | app/models/risk.py:38-42 | all racing calls for a user and day return one opening, which never changes, and the re-read always finds it |
| RiskHalt.OpeningIsAValuation | app/services/risk_service.py:112-144 | over every interleaving a stored opening is what some call for that user and day valued |
| RiskHalt.StoredOpeningIsReturned | app/services/risk_service.py:112-144 | a call that begins after the day has its opening returns it without valuing anything |
| RiskHalt.EveryCallReturns | app/services/risk_service.py:112-144 | whatever other calls do in between, a call has its answer after four steps of its own |
| RiskHalt.RiskSetting.SetConfig | app/services/risk_service.py:46-63 | sets the loss limit and the limits on orders, and keeps the switch and the latch |
| RiskHalt.RiskSetting.SetManualHalt | app/services/risk_service.py:179-185 | sets the manual switch and nothing else |
| RiskHalt.LossTestFollowsTheOpening | app/services/risk_service.py:196-197 | above zero the test fires on a fall by the limit, below zero on a rise by it, at zero never |
| RiskHalt.HaltMeansAFallExactlyWhen | app/services/risk_service.py:196-197 | every halt for loss means that equity fell exactly when the day did not open below zero |
| Equity.EquityIsResultPlusOpenCost | app/services/risk_service.py:108-110 | over every ledger, equity is the trading result plus the cost of what is still held |
| Equity.ChangeIsResultExactlyWhen | app/services/risk_service.py:191-197 | a day's change of equity is its trading result exactly when open cost is unchanged |
| Equity.SellingOutHalts | app/services/risk_service.py:108-110 | a concrete day: selling out at cost loses nothing and halts at every limit up to 100% |
| Equity.BuyingHidesALoss | app/services/risk_service.py:108-110 | a concrete day: half the account is lost and no limit halts it |
| RiskHalt.RiskSetting.EvaluateAccount | app/core/scheduler.py:112-132 | one sweep of one account: exactly when it trips it cancels the working orders the venue lets go and marks the day, otherwise orders and setting are unchanged |
| RiskHalt.AtMostOneTripPerDay | app/services/risk_service.py:159-176 | over every serial run each completed halt is checked on a later day than the one before it was marked |
| RiskHalt.EveryTripWasDue | app/core/scheduler.py:116-126 | every completed halt met an armed, not manually halted account at its loss when it was swept |
| RiskHalt.HeldBackExactlyWhen | app/models/risk.py:26-31 | after any serial history a sweep ready to trip is held back exactly when that day has had a halt of its own or one crossed midnight into it |
| RiskHalt.MidnightSweepUsesUpTheNextDay | app/core/scheduler.py:122-126 | a concrete run across midnight after which the next day's loss flattens nothing |
| Rebalance.Plan | app/services/rebalance_service.py:16-41 | refuses exactly when the holdings, summed over their own symbols, are worth nothing; otherwise one action for each symbol off target and no other |
| Rebalance.WeightsAddUp | app/models/rebalance.py:18-25 | distinct target weights sum to the request's total over any set of symbols |
| Rebalance.DeltasCancel | app/services/rebalance_service.py:29-32 | signed notional deltas sum to zero |
| Rebalance.ReachesTarget | app/services/rebalance_service.py:29-40 | the unrounded action brings a symbol to its target value |
| Rebalance.SellsFitTheHolding | app/services/rebalance_service.py:32-40 | no sell exceeds the holding, rounded or not |
| Rebalance.RoundingMovesALegByHalfAUnit | app/services/rebalance_service.py:37 | 8-place rounding moves a leg by at most half a unit in the eighth place times its price |
| Rebalance.RebalancingIsAFixpoint | app/services/rebalance_service.py:24-41 | applying the plan keeps the total, reaches every target, and planning again yields nothing |
| Rebalance.TradingKeepsTheValue | app/services/rebalance_service.py:19-41 | trading the plan keeps the value of the holdings, brings each target to its share of it, and leaves nothing else |
| Rebalance.OtherHoldingsAreSold | app/services/rebalance_service.py:19-33 | every holding that is no target is sold whole, by one action |
| VectorStore.InMemoryVectorStore.Filter | app/core/vector_store.py:91-93 | the candidates are the nonblank items with unseen keys, in order |
| VectorStore.InMemoryVectorStore.Insert | app/core/vector_store.py:95-104 | the locked loop takes the specified steps |
| VectorStore.InMemoryVectorStore.Search | app/core/vector_store.py:106-123 | blank queries and empty stores give nothing; otherwise the specified hits with their scores |
| VectorStore.EveryInterleavingIsCoherent | app/core/vector_store.py:90-104 | over every interleaving keys, chunks and vectors agree, keys are distinct, size stays within capacity and the newest are kept |
| VectorStore.StoredChunksDiffer | app/core/vector_store.py:95-104 | over every interleaving no two stored chunks share a link, and no two without links share a text |
| VectorStore.NewChunksGoIn | app/core/vector_store.py:90-104 | a chunk goes in exactly when no stored chunk goes by its link, or by its text without one; the pre-filter passes exactly those with a character that is not white space |
| VectorStore.NoCapacityLeaksKeys | app/core/vector_store.py:85-104 | with capacity 0 the key set grows while nothing is stored |
| VectorStore.OrderIsSortedPermutation | app/core/vector_store.py:118 | the ranking is a descending permutation of all indices |
| VectorStore.SearchReturnsTheTopK | app/core/vector_store.py:117-123 | the result is descending, distinct, at most k, at or above the threshold, and whatever is left out is below it or no better |
| VectorStore.DotGrows | app/core/vector_store.py:117 | scores are sums of products, place by place |
| LeaderLock.LockTtl | app/core/scheduler.py:241-253 | nine tenths of the interval in whole seconds, at least one, and below the interval exactly from two seconds up |
| LeaderLock.RedisLock.Acquire | app/core/distributed_lock.py:57-60 | takes the key exactly when it is free or expired |
| LeaderLock.RedisLock.Release | app/core/distributed_lock.py:76-80 | frees the key exactly for its unexpired owner |
| LeaderLock.StepKeepsOwner | app/core/distributed_lock.py:49-81 | every step, with or without Redis, keeps whoever is inside within its lifetime the owner of the key |
| LeaderLock.ExclusiveExactlyWhen | app/core/distributed_lock.py:49-81 | over every run, with Redis or without, no two workers are ever inside exactly when nobody gets the key beside an overrun or unguarded worker and nobody goes in unguarded beside another |
| LeaderLock.ReachableExclusiveExactlyWhen | app/core/distributed_lock.py:55-81 | with Redis reachable, exactly when nobody gets the key beside a job that outlived its own |
| LeaderLock.MutualExclusion | app/core/distributed_lock.py:49-81 | with Redis reachable and jobs within the lifetime no two workers are ever inside |
| LeaderLock.LateFinishSparesTheSuccessor | app/core/distributed_lock.py:76-80 | over every run, when a worker that lost its key finishes, the successor inside keeps its own and nobody else gets in |
| LeaderLock.FinishFreesTheKey | app/core/distributed_lock.py:55-81 | over every run a worker that finishes within its lifetime lets the next attempt in, and until then it does not |
| LeaderLock.CrashKeepsTheKey | app/core/distributed_lock.py:55-81 | over every run a crashed worker's key keeps everybody out until it expires, and not after |
| LeaderLock.OverrunAdmitsASecondWorker | app/core/distributed_lock.py:74-81 | a job as long as the lifetime admits a second worker |
| LeaderLock.FailingOpenAdmitsASecondWorker | app/core/distributed_lock.py:61-67 | a concrete run in which failing open admits a second worker, and one in which a lone worker does no harm |
| LeaderLock.CrashedHolderNeverBlocksTheNextRun | app/core/scheduler.py:244-253 | after any history a key taken an interval ago never blocks an attempt |
| Wire.NormalizeKeepsValue | app/providers/alpaca_broker_provider.py:194 | normalizing a storable value keeps it and makes it canonical |
| Wire.CanonicalIsUnique | app/providers/alpaca_broker_provider.py:194-195 | equal magnitudes have one canonical form |
| Wire.ContextRoundsToNearest | app/providers/alpaca_broker_provider.py:194 | values of at most 28 digits are kept; longer ones become the nearest of 28 digits, the even one of two |
| Wire.FormatParses | app/core/money.py:68-75 | the parser reads back exactly the printed number |
| Numerals.ReadsExactlyNumerals | app/core/money.py:68-75 | white space aside, a text is read exactly when it is blank, as zero, or a sign, digits with at most one point and an exponent, as the number it writes |
| Wire.WireRoundTrips | app/providers/alpaca_broker_provider.py:187-198 | every storable value prints, without exponent or trailing fractional zeros, and reads back to itself |
| Wire.EqualValuesPrintAlike | app/providers/alpaca_broker_provider.py:187-198 | two storable values print alike exactly when they are equal, zeros of opposite sign apart |
| Wire.NegativeZeroPrintsASign | app/providers/alpaca_broker_provider.py:194-198 | negative zero prints "-0" |

## Left out

- HTTP routes, authentication, encryption, logging, metrics, tracing, notifications and the web UI.
- Market, news and AI providers, Redis caching and pgvector: a quote is an arbitrary positive real, a
  venue a step machine, an indicator an arbitrary function of the closes so far, an embedder an
  arbitrary function of the text.
- The Binance and IBKR adapters, webhook signatures, and the risk, notional, confidence, bracket and
  buying-power gates in front of an order: a gate or the venue may refuse at will.
- Keyword and threshold services, option pricing, Monte Carlo, Markowitz, Sharpe, volatility, RSI and
  the backtest's metrics and run history: floats, samples or single branches.
- The upside figure, the growth gap and the assessment label of the valuation reports.
- `round` to 2, 4 or 6 places at report edges: except for drift items and tax gains, reports carry
  unrounded amounts, and the laws are about the state before it; 28-digit `Decimal` division and
  binary floats are exact reals.
- What columns round away is modelled for the ledger only. The paper account's amounts, the snapshot and
  the order rows' own fill columns are kept exact; nothing decides on the latter. Ties round away from
  zero, as on PostgreSQL; SQLite may break them otherwise.
- The rounding of equity to cents.
- The paper account's view over its latest 100 fills; the law is about the full history.
- Paper orders are atomic; two that interleave at the quote lookup are not modelled.
- Symbol order (`sorted`) in the drift report and the rebalance plan; rebalance and drift symbols
  are given in their cleaned spelling, and upper-casing and stripping cover ASCII only.
- ORM identity: rows are values in the service's table, read and written in one step, so a row held
  stale across an await in another session is not covered. Local status is not monotone, and nothing
  here says it is.
- Ledger order by timestamp: the ledger is in booking order.
- Bracket legs and shorts opened at the venue outside this service: every venue order belongs to a user
  of the service. `Entry.origin`, `Sim.entries`, `Store.appended`, `History.trips` and the venue's `accepted` and `lost`
  in `Execute` record what the laws speak about and are not fields of the source.
- Generated keys are assumed never to collide with a caller's key or with each other.
- Ties in the search ranking follow one fixed order; numpy leaves them open.
- Decimal texts with underscores, NaN and Infinity, and non-string arguments of the parser.
- Wire.WireRoundTrips: storable values only (28 digits, 8 places); others may be rounded or refused by
  the 28-digit context (`ContextRoundsToNearest`), and no round trip is claimed for them.
