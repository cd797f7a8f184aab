# Verification model of the paper-trading system

This project models the deterministic core of the trading system and proves what holds of it over every input and every
run. It has four parts.

**Paper execution.** A gateway hands orders to a matching engine that moves cash and positions with cent-truncated
amounts, and records them in an idempotent order store. A risk gate predicts the state after a trade, a ledger re-derives
profit and loss from the same fills, a facade sizes recommended rows into orders, and a batch orchestrator sends them.
Each object is a class whose methods are proved equal to a function on values; the properties are lemmas about those
functions over arbitrary runs, including runs with calls that raise.

**Recommendation.** Daily rows are validated against a decision time, turned into features, reduced to the latest row of
each series, filtered, ranked and made into a portfolio under two nested caps.

**Dataset store.** A date-partitioned store is proved to be a keyed map under any sequence of builds; recovered rows are
published, merged and written back; retry passes run against a provider that may answer anything.

**Drawdown.** The two one-pass implementations are compared with each other and with the minimum over all pairs.

For each part one module states what its operations mean in terms of their inputs alone, down to the single threshold,
rate, factor or key field: `FillTerms`, `FacadeTerms`, `FeatureTerms`, `DailyTerms`, `RankingTerms`, `PortfolioTerms`,
`RetryTerms` and `DatasetRows`.

Decimal and float amounts are exact reals. `quantize(0.01, ROUND_DOWN)` is truncation to cents, `round(x, n)` is the
nearest multiple with ties to even, sorting is a stable insertion sort. Timestamp parsing, the calendar and the volatility
of a window are parameters about which nothing is assumed. What a provider answers, which ids are made up, what the agents
decide, which mode the environment is in and in which order the drive lists its folders are parameters of each call.

## What the code does that one might not expect

- `fill` has no status guard, so a cancelled order with quantity left re-opens; only the gateway keeps terminal orders
  terminal (`Orders.FillReopensCanceled`, `GatewayRuns.TerminalOrderIsFrozen`).
- An order for which nothing is available is answered REJECTED, while its record says CANCELED (`GatewayRuns.Delivery`).
- Cent truncation lets equity grow by almost a cent per BUY, and no better bound exists (`Equity.TruncationBoundIsTight`).
- The gate compares the price before slippage, fee and tax with its limits. An approved BUY can fail for lack of cash, and
  an approved order can end above the market limit or below the cash reserve (`Risk.ReserveConditionIsExact`,
  `Exposure.SlippageBreachesExposure`, `Exposure.SlippageBreachesReserve`).
- With slippage of 100% or more a SELL is delivered by the account and refused by the ledger
  (`TradingPipeline.AgreementCondition`). A call whose id belongs to a finished order is answered from its record, and the
  ledger books that answer as a fill. Below 100% this is the only way the two come apart
  (`TradingPipeline.AgreementAfterCall`); a repeated id of an open order does no harm.
- A batch whose submissions are not on record fills orders without telling the ledger, and the two agree afterwards exactly
  if its fills, echoes apart, cancel out (`BatchAgreement.UnrecordedBatchDrifts`).
- Preflight checks every row against the account before the first of them. So a batch whose rows are all approved can stop
  midway (`PreflightBatch.PreflightIsNotEnough`), and what the first fills cost can size a later row anew, so that the
  approved orders are not what is filled: two rows of weight 0.4 at the default rates are an example
  (`PreflightBatch.DefaultRatesResize`). A batch fills what was approved exactly if every order, after those before it,
  keeps its size, finds room within the limits and can be paid for, all of which can be computed from the preflight
  (`BatchHeadroom.BatchCompletesExactly`, `PreflightBatch.RebalanceCompletesExactly`).
- RISK is never a reason of a recommendation unless a volatility is negative, since the score it is given for falls from 50
  with the volatility (`RankingTerms.ReasonsExactly`).
- The history of a candidate is counted under its stripped symbol and looked up under the symbol as it stands, so that a
  symbol with white space around it is always rejected (`DailyTerms.SpacedSymbolHasNoHistory`).
- Six equal weights round to a sum of 1.000002, and a cap that is not a multiple of a millionth can be exceeded by its own
  rounding (`TargetWeights.SixEqualWeightsExceedOne`, `TargetWeights.CapConditionIsExact`).
- The two drawdowns agree on every curve. They are the minimum over pairs whatever the curve exactly when its values are
  taken from a set without negative values or with at most one positive one (`Drawdown.PairCondition`).
- A second spelling of one date in a dataset refuses this build and every later one that still has it
  (`MarketDataset.SecondSpellingRefused`).
- Merging takes the earliest recovery row of a key, but the recovery dataset keeps only the latest, so on the drive path a
  latest one arrives (`DriveRecovery.DriveTakesTheLater` shows it on two rows). It is an earliest one exactly when all rows
  stored or fetched for the key are available at the same time (`DriveRecovery.DriveAddsEarliestExactly`). The merge
  depends on arrival order exactly when a key the canonical rows lack has several different earliest recovery rows
  (`Reconciliation.OrderCondition`).
- An item that enters a retry queue at the attempt limit stays retryable for ever without being tried, and only such items
  do (`Retry.StuckAtTheLimit`, `Retry.RetryableInTheEnd`).

## Model

| member | source | states |
|---|---|---|
| Orders.OrderLifecycle.Submit | src/paper_live/order_lifecycle.py:30-37 | idempotent submission: an equal order is returned, a different one under the same id refused, and nothing else changes |
| Orders.OrderLifecycle.Fill | src/paper_live/order_lifecycle.py:39-47 | the new store and reply for every id and quantity: overfilling and non-positive quantities are refused without change |
| Orders.OrderLifecycle.Cancel | src/paper_live/order_lifecycle.py:49-55 | a finished order is returned unchanged, any other is cancelled |
| Orders.SubmitAnswers | src/paper_live/order_lifecycle.py:30-37 | a new record is stored, an equal one answered and a different one under a known id refused by name |
| Orders.FillAnswers | src/paper_live/order_lifecycle.py:39-47 | exactly which fills are refused and by which error, and what an accepted one makes of quantity and status |
| Orders.CancelAnswers | src/paper_live/order_lifecycle.py:49-55 | exactly which cancels change a record, and what each answers |
| Orders.RecordsAreKept | src/paper_live/order_lifecycle.py:26-64 | over any sequence of store calls, whatever records are submitted, no record is lost, re-labelled or shrunk |
| Orders.StoreStaysValid | src/paper_live/order_lifecycle.py:26-64 | a valid store is valid after every call if and only if each record stored anew is valid: fills and cancels never overfill one or make its status disagree with its filled quantity |
| Orders.FillReopensCanceled | src/paper_live/order_lifecycle.py:39-47 | a fill of a cancelled order succeeds exactly when the quantity fits, and then re-opens it |
| Execution.VirtualMatchingEngine.Execute | src/paper_live/execution.py:72-122 | account and reply after every call: argument checks in order, ratio and available quantity, slippage, cent truncation, fee, tax, affordability |
| Execution.ExecutionGateway.Execute | src/paper_live/execution.py:135-192 | account, order store and reply after every call, including calls that raise midway |
| Execution.ExecutionGateway.Cancel | src/paper_live/execution.py:194-195 | cancels in the store and leaves the account alone |
| FillTerms.RefusedExactly | src/paper_live/execution.py:72-85 | the engine looks at an order if and only if its arguments are in range and a limit order is marketable; a refusal names the first check that fails |
| FillTerms.EngineTerms | src/paper_live/execution.py:86-122 | from order, price and rates alone: quantity, slipped price, gross, fee and tax, each the one truncation to cents, cash and position afterwards, and exactly when a BUY or SELL fails |
| FillTerms.SellProceeds | src/paper_live/execution.py:100-122 | a SELL brings in its slipped amount less fee and tax rate, to within two cents |
| FillTerms.AnswerAtOnce | src/paper_live/execution.py:135-180 | live mode, missing id, reused id and finished order: the reply, with the filled quantity and status of the record, and no change |
| FillTerms.GatewayTerms | src/paper_live/execution.py:146-192 | every other call hands the outstanding quantity to the engine; account, record and reply are those of its answer, and no other record changes |
| Money.TruncationIsUnique | src/paper_live/execution.py:102-107 | only one whole number of cents is the truncation of an amount, so the charges above are determined |
| GatewayRuns.StepShape | src/paper_live/execution.py:146-192 | one step either trades, and then account and store move by the same quantity of the ordered symbol, or leaves account and filled quantities alone |
| GatewayRuns.Delivery | src/paper_live/execution.py:183-192 | the store's fill guard never fires after the account moved; a raising delivery changes nothing; reply and stored status agree; nothing available means cancelled |
| GatewayRuns.FillQuantityBounded | src/paper_live/execution.py:86-88 | the engine never fills more than it is asked for, and something when no limit is given |
| GatewayRuns.AccountAgreesWithOrders | src/paper_live/execution.py:146-192 | over any run each position moves by exactly filled BUY less filled SELL quantity in the store, and the store stays valid, so no order is overfilled |
| GatewayRuns.RaisingChangesNothing | src/paper_live/execution.py:135-195 | a call that raises changes neither the account nor any filled quantity, and the store refuses only a cancel of an unknown id |
| GatewayRuns.FinishedOrderIgnoresCalls | src/paper_live/execution.py:154-172 | any call about a finished order leaves account and store exactly as they were |
| GatewayRuns.TerminalOrderIsFrozen | src/paper_live/execution.py:154-192 | through the gateway a finished order keeps its record over every run |
| GatewayRuns.DeliveryLeaves | src/paper_live/execution.py:86-88 | without a quantity limit a delivery that does not raise leaves the fraction 1 - ratio of the request unfilled |
| GatewayRuns.GeometricRemainder | src/paper_live/execution.py:86-88 | n answered calls for an order, however interleaved with others, leave exactly quantity * (1 - ratio)^n unfilled |
| GatewayRuns.PartialRatioNeverCompletes | src/paper_live/execution.py:154-192 | with a ratio below one no such run ever completes an order |
| Equity.Snapshot | src/paper_live/portfolio.py:17-21 | the loop over the positions computes cash, market value and their sum, whatever the order of iteration |
| Equity.GrossBounds | src/paper_live/execution.py:100-102 | the truncated amount is within a cent below the exact one, and slippage goes against the trader on both sides |
| Equity.ChargesBounded | src/paper_live/execution.py:102-108 | fee and tax together never exceed the proceeds they are taken from |
| Equity.TradeMovesEquity | src/paper_live/execution.py:100-120 | a trade moves equity by the traded value at market less what was paid, or the reverse |
| Equity.EquityGrowthBounded | src/paper_live/execution.py:100-120 | over any run at fixed prices equity grows by less than 0.01 per BUY fill and not at all on SELL fills, and cash and positions stay non-negative |
| Equity.TruncationBoundIsTight | src/paper_live/execution.py:100-112 | n orders below one cent grow equity by exactly n times their price, for every price below 0.01 |
| Ledger.PortfolioLedger.ApplyFill | src/paper_live/pnl.py:25-42 | the ledger after every fill: refused fills change nothing, BUY averages the cost, SELL realises profit, a flat position has average zero |
| Ledger.PortfolioLedger.TotalPnl | src/paper_live/pnl.py:47-55 | realised plus unrealised profit at a positive mark, an error otherwise |
| Ledger.AppliedBook | src/paper_live/pnl.py:28-41 | one accepted fill moves realised profit less book value by exactly what was paid or received |
| Ledger.PnlIsCashPlusMark | src/paper_live/pnl.py:25-55 | for every history and mark, realised plus unrealised profit is sale proceeds less purchase cost plus held quantity times mark |
| Ledger.AverageWithinBounds | src/paper_live/pnl.py:28-41 | the average stays within any bounds of the BUY prices since the position was last flat |
| Ledger.AveragePriceBetweenOpenBuys | src/paper_live/pnl.py:28-41 | over every history the average is zero exactly when flat and else between the lowest and highest BUY price since last flat |
| TradingPipeline.Pipeline.Run | src/paper_live/pipeline.py:63-85 | account, store, ledger and outcome after one run: hold, refusal by gate, engine or ledger, or a booked fill |
| TradingPipeline.RunReports | src/paper_live/pipeline.py:63-85 | a run reports a trade if and only if gate, gateway and ledger accept it, with the P&L of the new position and the charges of the fill; otherwise the ledger is unchanged, and only the live refusal escapes |
| TradingPipeline.PnlAfterFill | src/paper_live/pnl.py:28-55 | a ledger fill moves total P&L over all symbols by its value at the mark less what it cost, or the reverse |
| TradingPipeline.FillOnBoth | src/paper_live/pipeline.py:72-80 | the ledger accepts every engine fill of a position it agrees on, both still hold the same, and up to charges their values move together within a cent |
| TradingPipeline.GatewayExecution | src/paper_live/execution.py:146-192 | for an order of any id: an echo changes nothing, and any other reply reports exactly what the account traded |
| TradingPipeline.StepTracks | src/paper_live/pipeline.py:63-85 | one run that books no echo keeps account and ledger in agreement, and changes neither unless it reports a trade, whatever its id |
| TradingPipeline.EchoDrifts | src/paper_live/pipeline.py:72-80 | a booked echo moves the ledger and not the account |
| TradingPipeline.AgreementAfterCall | src/paper_live/pipeline.py:63-85 | for every call account and ledger still agree afterwards if and only if it books no echo: the answer from a finished record with a filled quantity that the ledger can take |
| TradingPipeline.AgreementCriterion | src/paper_live/pipeline.py:63-85 | over any run account and ledger agree after every call if and only if no call books an echo |
| TradingPipeline.FreshIdsNeverEcho | src/paper_live/pipeline.py:70 | ids that are new when they come are enough for that |
| TradingPipeline.LedgerTracksAccount | src/paper_live/pipeline.py:63-85 | over any run that books no echo the account's equity change differs from ledger P&L less fees and taxes by less than 0.01 per trade |
| TradingPipeline.FullSlippageDrifts | src/paper_live/execution.py:100-122 | at 100% slippage a SELL leaves the account but not the ledger |
| TradingPipeline.AgreementCondition | src/paper_live/pipeline.py:72-80 | account and ledger stay in agreement on every call that books no echo if and only if slippage is below 10000 basis points |
| TradingPipeline.RepeatedIdIsBookedTwice | src/paper_live/pipeline.py:70-78 | a concrete booked echo: the id of a completed order moves the ledger and not the account |
| Risk.RiskGuardian.Approve | src/paper_live/risk.py:68-103 | the verdict on every order, first failing check first |
| Risk.RiskGuardian.ApprovePortfolio | src/paper_live/risk.py:105-134 | the verdict with the account checks ahead of the market and portfolio limits |
| Risk.ApprovedExactly | src/paper_live/risk.py:75-99 | an order is approved if and only if breaker, quantity, price, order, daily loss, cash reserve, holding and position are all within limits; a denial names a check that failed; a tripped breaker denies everything |
| Risk.PortfolioApprovedExactly | src/paper_live/risk.py:105-134 | with a context, if and only if the market and portfolio limits hold as well |
| Risk.BuyCost | src/paper_live/execution.py:100-114 | a BUY costs its notional times (1 + slippage)(1 + fee), less up to 2 + fee cents |
| Risk.ApprovedBuyIsAffordable | src/paper_live/risk.py:85-91 | an approved BUY never fails for lack of cash, for every available quantity, when ratio (1 - reserve)(1 + slippage)(1 + fee) is at most 1 |
| Risk.WholeFillCoversAll | src/paper_live/risk.py:85-91 | a reserve with (1 - reserve)(1 + slippage)(1 + fee) at most 1 covers the costs for every fill ratio |
| Risk.ApprovedSellIsCovered | src/paper_live/risk.py:93-98 | an approved SELL never fails for lack of position, for every fill ratio and available quantity |
| Risk.ShortfallFails | src/paper_live/risk.py:85-91 | for every engine and reserve that do not meet this, a gate, an account and an approved BUY the account cannot pay |
| Risk.ReserveConditionIsExact | src/paper_live/risk.py:85-91 | for every fill ratio, approval implies affordability for all orders if and only if ratio (1 - reserve)(1 + slippage)(1 + fee) is at most 1 |
| ContextBuilder.Tally | src/paper_live/portfolio_risk.py:50-66 | the loop refuses shorts and missing or non-positive prices, and else accumulates portfolio and per-market notionals |
| ContextBuilder.Build | src/paper_live/portfolio_risk.py:35-95 | the context equals its definition over the account, and the per-market notionals always sum to the portfolio notional |
| ContextBuilder.MarketAfterUpdate | src/paper_live/portfolio_risk.py:50-66 | changing one position moves its own market's notional by its value and no other |
| FacadeTerms.MarketsAsMapped | src/paper_live/portfolio_risk.py:62-81 | an unmapped or blank market is UNKNOWN for a holding and no market for a target |
| FacadeTerms.ContextExactly | src/paper_live/portfolio_risk.py:43-95 | there is a context if and only if cash, holdings and prices are in order and the account is worth something, and what it then says |
| Exposure.ProjectionIsRebuilt | src/paper_live/risk.py:121-134 | the notionals the gate projects equal those the builder computes from the account after a full fill at the same prices |
| Exposure.LimitsHoldAfterFill | src/paper_live/risk.py:121-134 | the rebuilt portfolio notional is within its limit; the rebuilt market share is within its limit if and only if the projection is below the limit's share of account value less friction |
| Exposure.ReserveAfterFill | src/paper_live/risk.py:85-91 | the cash share rebuilt after a full fill is above the reserve if and only if cash less notional and friction is above the reserve's share of account value less friction; without friction an approved BUY keeps it |
| Exposure.SlippageBreachesExposure | src/paper_live/risk.py:121-127 | an order of 49.99 of 100 passes a market limit of one half and ends above it |
| Exposure.SlippageBreachesReserve | src/paper_live/risk.py:85-91 | an order of 89 of 100 passes a cash reserve of a tenth and ends below it |
| Exposure.WholeFillIsMatched | src/paper_live/execution.py:86-122 | with ratio one and no limit a covered order is filled whole |
| TradeFacade.InternalTradeFacade.RevalidateRow | src/paper_live/trade_facade.py:138-156 | context, sized order and verdict for a row, or the first refusal |
| TradeFacade.InternalTradeFacade.Preflight | src/paper_live/trade_facade.py:158-196 | exactly the approved and the rejected selected rows, in order, against one account, with nothing submitted |
| TradeFacade.InternalTradeFacade.SubmitRow | src/paper_live/trade_facade.py:198-204 | account, store and outcome of revalidating and submitting one row on the paper path |
| FacadeTerms.RevalidatedExactly | src/paper_live/trade_facade.py:100-156 | a row fails by the name of the first thing wrong with it, and otherwise gives the order that takes the holding to the largest lot multiple that fits, with the verdict of every limit |
| FacadeTerms.PreflightExactly | src/paper_live/trade_facade.py:158-196 | the rejected rows are the selected ones that fail, the approved orders those of the selected rows that pass |
| FacadeTerms.SubmittedExactly | src/paper_live/trade_facade.py:198-204 | which order is submitted for a row, and when none is |
| Sizing.LargestLotMultiple | src/paper_live/trade_facade.py:119 | the target is the largest lot multiple worth at most weight times account value |
| Sizing.LargestLotIsUnique | src/paper_live/trade_facade.py:119 | no other whole number of lots has that property |
| Sizing.SizedReachesTarget | src/paper_live/trade_facade.py:119-124 | no order exactly when the position is on target; else a positive order that never sells more than is held and lands on the target |
| Sizing.ApprovedIsCovered | src/paper_live/risk.py:105-134 | under the reserve condition an order approved with its context can be paid or delivered in full |
| Sizing.ApprovedRowLandsOnTarget | src/paper_live/trade_facade.py:138-204 | a row that passes revalidation is filled whole by the gateway and the position lands exactly on the target |
| Sizing.SecondOrderCondition | src/paper_live/trade_facade.py:149-154 | after the fill revalidation yields no order if and only if the target is still the largest that fits the value less friction |
| Sizing.RevalidationIsIdempotent | src/paper_live/trade_facade.py:149-154 | after a full frictionless cent-exact fill revalidating at the same prices yields no order |
| Sizing.PremisesCanBeMet | src/paper_live/trade_facade.py:138-156 | a concrete account, gate and row for which the premises of the sizing lemmas hold |
| PaperBatch.PaperExecutionOrchestrator.Settle | src/paper_live/paper_execution.py:131-204 | books and outcome of one approved row: refusal stops the batch, a fill is booked when the submission is on record |
| PaperBatch.PaperExecutionOrchestrator.Execute | src/paper_live/paper_execution.py:75-293 | a rejected row or live mode leaves everything unchanged; else the books, fills and stop of settling the approved rows in turn |
| PaperBatch.ApprovedIsFound | src/paper_live/paper_execution.py:120-137 | every approved row is found again by its symbol |
| FacadeTerms.ConcludedExactly | src/paper_live/paper_execution.py:156-204 | which submissions stop a batch, which fills are listed, and which are booked |
| FacadeTerms.LastIsFound | src/paper_live/paper_execution.py:120-124 | under each symbol the last selected row is found |
| BatchAgreement.SubmissionShape | src/paper_live/trade_facade.py:198-204 | a submitted row is echoed from the record of its id, or its reply reports exactly what the account traded |
| BatchAgreement.RecordedAgreement | src/paper_live/paper_execution.py:131-204 | a recorded row leaves account and ledger in agreement if and only if it books no echo |
| BatchAgreement.UnrecordedAgreement | src/paper_live/paper_execution.py:186-199 | an unrecorded row leaves them in agreement if and only if it fills nothing or its fill is an echo |
| BatchAgreement.BatchTracks | src/paper_live/paper_execution.py:131-204 | a recorded batch that books no echo keeps account and ledger in agreement and within a cent per fill, even when it stops early |
| BatchAgreement.BatchCriterion | src/paper_live/paper_execution.py:131-204 | in a recorded batch they agree after every row if and only if no row books an echo |
| BatchAgreement.UnusedIsEchoFree | src/paper_live/paper_execution.py:131-204 | unused ids are enough for that |
| BatchAgreement.UnrecordedBatchMoves | src/paper_live/paper_execution.py:186-199 | without submissions on record each position moves by the fills that are not echoes, whatever the ids, and the ledger not at all |
| BatchAgreement.UnrecordedBatchDrifts | src/paper_live/paper_execution.py:186-199 | then, whatever the ids, they agree if and only if these fills cancel out in every symbol, and for rows about different symbols if and only if there are none |
| BatchAgreement.UnusedAreTraded | src/paper_live/execution.py:146-172 | under unused ids every fill of an unrecorded batch is traded, so none is an echo |
| BatchAgreement.UnrecordedRebalanceDrifts | src/paper_live/paper_execution.py:186-199 | such a batch: the account buys 50 and the ledger stays empty |
| BatchHeadroom.SizedAnew | src/paper_live/trade_facade.py:119-124 | at another account value a row calls for the same order if and only if its target is still the largest lot multiple that fits, and else for another one or none |
| BatchHeadroom.ContextNow | src/paper_live/portfolio_risk.py:35-95 | after the rows before it, the context of a row is the preflight's one moved by their notionals and less their friction, and none is built when nothing is left |
| BatchHeadroom.VerdictNow | src/paper_live/trade_facade.py:138-156 | after the rows before it, at any rates, the gate approves a row if and only if the limits leave room, computed from the preflight alone |
| BatchHeadroom.CoveredNow | src/paper_live/execution.py:100-120 | after the rows before it, the engine can execute a row in full if and only if the cash left by them pays for it |
| BatchHeadroom.BatchCompletesExactly | src/paper_live/paper_execution.py:131-161 | at any sound rates a preflighted batch fills exactly the approved orders, each whole, if and only if each still fits after those before it: in size, in the limits and in cash; the account is then determined |
| BatchHeadroom.HoldsTargets | src/paper_live/trade_facade.py:119-124 | after such a batch each row's position is the largest lot multiple preflight aimed at |
| BatchHeadroom.FirstObstacle | src/paper_live/paper_execution.py:131-160 | what happens at the first row that does not fit: no context, refusal by the gate, lack of cash, or another order in its place |
| BatchHeadroom.OtherRatiosNeverFill | src/paper_live/execution.py:86-122 | with a fill ratio other than one no batch fills its approved orders whole |
| PreflightBatch.PassedRowsAreReady | src/paper_live/trade_facade.py:158-196 | when no two selected rows share a symbol, each row that preflight passes on is about a different symbol and finds its own row again |
| PreflightBatch.RebalanceCompletesExactly | src/paper_live/paper_execution.py:96-161 | for such rows the batch that preflight passes on fills exactly the approved orders if and only if each still fits |
| PreflightBatch.ReserveSuffices | src/paper_live/risk.py:85-91 | with a reserve that covers slippage and fee, room within the limits means that the cash pays |
| PreflightBatch.FreeBatchStops | src/paper_live/paper_execution.py:131-160 | when no fill costs anything the batch runs to its end if and only if the limits leave room for each row, and else the gate stops it |
| PreflightBatch.DefaultRatesResize | src/paper_live/execution.py:61-64 | two rows of weight 0.4 at the default rates: both are approved for 40, the second is sized anew to 39, and the approved orders are never filled |
| PreflightBatch.PreflightIsNotEnough | src/paper_live/trade_facade.py:158-196 | two BUYs that preflight approves together, of which the gate refuses the second once the first is filled |
| Drawdown.AnalyticsMaxDrawdown | src/paper_live/analytics.py:104-113 | the loop computes the deepest fall below the running peak, on every curve |
| Drawdown.PortfolioMaxDrawdown | src/paper_live/portfolio.py:34-41 | the second implementation is the exact negation of the first on every curve |
| Drawdown.FallIsMinimumOverPairs | src/paper_live/analytics.py:104-113 | on non-negative curves it is the minimum over all pairs i at most j of (v_j - v_i) / v_i, at least -1 and, on positive ones, above -1 |
| Drawdown.SinglePositive | src/paper_live/analytics.py:104-113 | so it is on curves with a single positive value, whatever negative ones they have |
| Drawdown.NegativeEquityBreaksPairs | src/paper_live/analytics.py:104-113 | a negative value after two different positive ones falls deeper below the lower of them than the pass says |
| Drawdown.PairCondition | src/paper_live/analytics.py:104-113 | it is the minimum over pairs on all curves over a set of values if and only if the set has no negative value or at most one positive one |
| Recommendation.Rank | src/paper_live/recommendation.py:86-110 | the scorable rows with score, grade, confidence and reasons, sorted by descending score then symbol, numbered from one |
| RankingTerms.RankedExactly | src/paper_live/recommendation.py:47-110 | each row that may be ranked is ranked, in descending score and then by symbol; score, grade, reasons and confidence are those of seven scores spelled out from its factors and of the weights |
| RankingTerms.ReasonsExactly | src/paper_live/recommendation.py:70 | MOMENTUM and TECHNICAL are reasons if and only if the feature reaches 0.4 up to the last place, and RISK only for a negative volatility |
| Recommendation.RankedDescends | src/paper_live/recommendation.py:86-110 | the ranking descends in score and is a permutation of the scored rows |
| Recommendation.ScoreBounded | src/paper_live/recommendation.py:47-73 | scores lie between 0 and 100, or 100.0001 when the weights use their tolerance, and confidences between 0 and 100 |
| Recommendation.ScoreMonotone | src/paper_live/recommendation.py:65 | more momentum, a higher last return, less volatility or a higher score brought along never lowers a score |
| Rounding.RoundsAsStated | src/paper_live/recommendation.py:71 | rounding gives the nearest multiple, and the even one of two |
| Portfolio.PickedIsFeasible | src/paper_live/recommendation_pipeline.py:227-237 | what the loop picks is eligible and within both caps |
| Portfolio.PassedOverOnlyWhenFull | src/paper_live/recommendation_pipeline.py:230-237 | while the total cap has room an eligible row is passed over only because its market is full |
| Portfolio.PrefixDominance | src/paper_live/recommendation_pipeline.py:230-237 | on every prefix of the rows no admissible set has more members than the picked one |
| Portfolio.AheadByLevel | src/paper_live/recommendation_pipeline.py:230-237 | on every prefix of a descending ranking the score lead is at least the count lead times the current score |
| Portfolio.GreedyIsOptimal | src/paper_live/recommendation_pipeline.py:227-237 | of all admissible sets the picked one has the most members and, on descending scores, the largest total score |
| TargetWeights.Select | src/paper_live/recommendation_pipeline.py:227-237 | the loop with its counters and early stop lists exactly the picked positions in order |
| TargetWeights.ConstructPortfolio | src/paper_live/recommendation_pipeline.py:221-247 | the rows updated in place: selection, portfolio rank and weight of every row |
| PortfolioTerms.ConstructedExactly | src/paper_live/recommendation_pipeline.py:221-247 | a row is selected if and only if it reaches both thresholds with room under both caps; it is numbered among the selected and weighs its part of the inverse volatilities, capped and rounded; any other weighs nothing |
| TargetWeights.WeightBounded | src/paper_live/recommendation_pipeline.py:238-246 | weights are non-negative, at most the rounded cap, at most the cap when it is a multiple of 1e-6, and zero when not selected |
| TargetWeights.CapConditionIsExact | src/paper_live/recommendation_pipeline.py:246 | all weights of all rankings stay within the cap if and only if rounding does not raise the cap |
| TargetWeights.LowerVolatilityNoSmaller | src/paper_live/recommendation_pipeline.py:238-246 | a selected row with lower volatility never gets a smaller weight |
| TargetWeights.WeightsSumToOne | src/paper_live/recommendation_pipeline.py:238-246 | weights sum to at most 1 plus 0.0000005 per selected row |
| TargetWeights.SlackIsAttained | src/paper_live/recommendation_pipeline.py:238-246 | four rows sum to exactly 1 plus four times 0.0000005, so the bound cannot be lowered |
| TargetWeights.AlikeWeights | src/paper_live/recommendation_pipeline.py:238-246 | n equal rows get one n-th each, capped and rounded |
| TargetWeights.CapsBoundTheSum | src/paper_live/recommendation_pipeline.py:238-246 | the weights of any ranking sum to at most the rounded cap per selected row, so to at most 1 when that many caps do |
| TargetWeights.AlikeSum | src/paper_live/recommendation_pipeline.py:238-246 | what n equal rows weigh together |
| TargetWeights.SixEqualWeightsExceedOne | src/paper_live/recommendation_pipeline.py:238-246 | six equal weights sum to 1.000002 |
| Features.Group | src/paper_live/features.py:27-41 | the available rows of each series, in order of first occurrence |
| Features.Build | src/paper_live/features.py:26-76 | the features of every available row, or an error when a close is missing |
| FeatureTerms.BuiltExactly | src/paper_live/features.py:26-76 | the build fails if and only if an available row has no close; otherwise there is one feature for each available row, with return, momentum, volatility window and volume ratio as the closes and volumes of its series say |
| FeatureTerms.FeatureAtMeans | src/paper_live/features.py:43-67 | before times one plus the return is the close, likewise for momentum; the volume ratio times the volume reported in the window is the volume times the number of reports; and when each is absent |
| Features.FeatureSeesOnlyPast | src/paper_live/features.py:46-67 | the features of a row depend only on the rows up to it |
| Features.LaterRowsChangeNothing | src/paper_live/features.py:43-67 | rows of later trade dates never change the features of earlier ones |
| DailyPipeline.Validate | src/paper_live/recommendation_pipeline.py:46-66 | exactly the rows with an aware timestamp not after the decision, and counts of the two reasons for rejection |
| DailyTerms.ValidatedExactly | src/paper_live/recommendation_pipeline.py:46-66 | a row is eligible if and only if it has a timestamp with a time zone not after the decision |
| DailyPipeline.LatestCandidates | src/paper_live/recommendation_pipeline.py:123-135 | the loop computes the candidates as defined, sorted |
| DailyPipeline.LatestIsLatest | src/paper_live/recommendation_pipeline.py:123-135 | one candidate per series, each one of the rows, and no counted row is later than its candidate |
| DailyTerms.CandidatesExactly | src/paper_live/recommendation_pipeline.py:123-135 | the candidates are the latest row of each series, the first of several, one for each series, in order of market, symbol and date |
| DailyPipeline.HistoryCounts | src/paper_live/recommendation_pipeline.py:138-147 | for every series the number of counted rows |
| DailyPipeline.FilterCandidates | src/paper_live/recommendation_pipeline.py:149-205 | every candidate is either kept or audited with the first check it fails |
| DailyTerms.FilteredExactly | src/paper_live/recommendation_pipeline.py:149-205 | the filter keeps, in order, the candidates that pass every threshold, and tells of each other one the first check it fails |
| DailyTerms.SpacedSymbolHasNoHistory | src/paper_live/recommendation_pipeline.py:143-156 | a candidate whose symbol has white space around it is always rejected for its history |
| DailyPipeline.BuildFromDaily | src/paper_live/recommendation_pipeline.py:279-309 | the result of the whole pipeline equals the composition of its stages, or the error that stops it, and the report counts the rows as they came |
| DailyTerms.FromDailyExactly | src/paper_live/recommendation_pipeline.py:279-309 | when the pipeline fails, and that otherwise there is one feature for each row in time |
| DailyTerms.PortfolioExactly | src/paper_live/recommendation_pipeline.py:279-309 | the rows returned are exactly the first latest of each series that pass every check, scored, explained and ordered as stated |
| NoLookahead.ChecksumHasNoInfluence | src/paper_live/recommendation_pipeline.py:281-305 | the checksum taken over all rows influences nothing but checksum fields |
| NoLookahead.FutureRowsDoNotMatter | src/paper_live/recommendation_pipeline.py:279-307 | two inputs with the same rows available by the decision give identical features, candidates, audit, ranking and portfolio apart from checksums |
| NoLookahead.ArrivalOrderDoesNotMatter | src/paper_live/recommendation_pipeline.py:279-307 | when keys do not repeat the order of arrival does not matter either |
| NoLookahead.RecommendationIsOptimal | src/paper_live/recommendation_pipeline.py:221-247 | what the pipeline marks as selected is an optimal admissible selection of its own ranking |
| Sorting.FilterSort | src/paper_live/recommendation_pipeline.py:280-282 | filtering commutes with stable sorting |
| Sorting.SortSorts | src/paper_live/recommendation.py:92 | the sort orders its input for every total preorder |
| DataLake.DriveStorage.ReadPartitioned | src/paper_live/data_lake.py:224-249 | the rows of all or the wanted partitions, sorted; an error exactly when a wanted date is invalid or a row read lies in the wrong partition |
| DataLake.DriveStorage.Normalize | src/paper_live/data_lake.py:262-267 | canonical partition keys, or an error exactly when a key is no supported date or two keys are one date |
| DataLake.DriveStorage.WritePartitioned | src/paper_live/data_lake.py:260-292 | what the dataset holds afterwards, also when a misplaced row stops the uploads midway; counts sum to the row count; other datasets unchanged |
| DataLake.UploadedShape | src/paper_live/data_lake.py:271-281 | when every row is well placed, exactly the named partitions are replaced by their sorted rows |
| DataLake.UploadedInOrder | src/paper_live/data_lake.py:271-281 | an uploaded partition has the rows written to it, by market, symbol and trade date as spelled |
| Sorting.StringLeMeans | src/paper_live/data_lake.py:268-272 | texts are compared in dictionary order |
| MarketDataset.DailyDatasetBuilder.Build | src/paper_live/market_dataset.py:150-182 | a dataset that held a table then holds the table after the build; a refused build changes nothing; manifest counts equal the table's size |
| MarketDataset.GroupByDate | src/paper_live/market_dataset.py:170-172 | one partition per spelled trade date with exactly its rows in order |
| MarketDataset.UploadedHolds | src/paper_live/data_lake.py:260-292 | after the uploads the partitions hold exactly the new table |
| MarketDataset.ReadEnumerates | src/paper_live/market_dataset.py:125-148 | whatever the listing order, reading gives each row of the table once |
| MarketDataset.LastRowWins | src/paper_live/market_dataset.py:155-167 | a key that some new row has ends up with the last such row |
| MarketDataset.OtherKeysKept | src/paper_live/market_dataset.py:153-157 | a key that no new row has keeps what it had |
| MarketDataset.BuildsOverlay | src/paper_live/market_dataset.py:150-182 | after any sequence of builds the table is the initial one overlaid by the rows of the accepted ones, and no key is ever erased |
| DatasetRows.BuildAllAndRead | src/paper_live/market_dataset.py:125-182 | after any sequence of builds, accepted or refused, the read-back has each accepted row that no later one of the same stripped market and symbol and the same date replaces, and each stored row that none replaces, once and in order |
| DatasetRows.SameDayIsSameKey | src/paper_live/market_dataset.py:122-123 | two rows share a key if and only if market, symbol and trade date agree, white space and the case of the market aside |
| DatasetRows.OverlayEntries | src/paper_live/market_dataset.py:153-157 | a row is in the table after a build if and only if it was built and not replaced, or stored and not replaced |
| DatasetRows.AcceptedExactly | src/paper_live/market_dataset.py:158-182 | a build is accepted if and only if each new row has a readable timestamp and a supported date, and no two rows, stored or new, spell one date in two ways |
| MarketDataset.GroupedDates | src/paper_live/data_lake.py:262-267 | the writer accepts the partitions if and only if the table spells each date in one way |
| MarketDataset.CanonicalBuildsAccepted | src/paper_live/market_dataset.py:158-167 | with canonical dates a build is accepted if and only if its rows are usable |
| MarketDataset.SecondSpellingRefused | src/paper_live/data_lake.py:262-267 | a build that spells a stored date differently is refused and changes nothing |
| MarketDataset.ListingOrderDoesNotMatter | src/paper_live/data_lake.py:231-249 | two listing orders of the same partitions read as the same sorted sequence |
| Reconciliation.Merge | src/paper_live/ingestion_reconcile.py:47-78 | the merged rows sorted by unique key; added plus duplicates equals recovery rows; an error exactly when a recovery timestamp does not parse |
| Reconciliation.MergeKeepsAndAdds | src/paper_live/ingestion_reconcile.py:50-69 | every first canonical row stays, exactly the missing keys are added, each with an earliest available recovery row |
| Reconciliation.EarliestIsAdded | src/paper_live/ingestion_reconcile.py:59-69 | on sorted rows the row taken for a missing key is available no later than any other of its key |
| Reconciliation.FirstRowStays | src/paper_live/ingestion_reconcile.py:51-54 | the first row of a missing key is the one that stays |
| Reconciliation.MergeIsIdempotent | src/paper_live/ingestion_reconcile.py:47-78 | merging the same recovery rows into the result changes nothing |
| Reconciliation.RecoveryOrderDoesNotMatter | src/paper_live/ingestion_reconcile.py:59-69 | without two recovery rows of equal key and timestamp their order does not matter |
| Reconciliation.TieTakesTheFirst | src/paper_live/ingestion_reconcile.py:59-69 | of the earliest rows of a missing key the one that is moved to the front is taken |
| Reconciliation.OrderCondition | src/paper_live/ingestion_reconcile.py:59-69 | every arrival order reconciles alike if and only if, for every key the canonical rows lack, its earliest recovery rows are all the same |
| Reconciliation.TieWithoutEffect | src/paper_live/ingestion_reconcile.py:59-69 | ties of keys that are present, or that are not the earliest, decide nothing |
| Recovery.Combine | src/paper_live/ingestion_retry.py:92-97 | the loop keeps the latest available row of each key, or raises on a timestamp it has to compare and cannot read |
| Recovery.NewestIsLatest | src/paper_live/ingestion_retry.py:92-97 | an entry is the stored row if all fetched ones are older, and else the last of the latest fetched ones |
| Recovery.PublishingTwice | src/paper_live/ingestion_retry.py:90-98 | publishing the same rows again changes nothing |
| Recovery.Publish | src/paper_live/ingestion_retry.py:90-99 | the recovery dataset then holds the latest row of every key, or is unchanged when the step raises; other datasets unchanged |
| Recovery.RunAndPublish | src/paper_live/ingestion_retry.py:68-100 | the pass and the publication of what it fetched: queue, rows and recovery dataset afterwards, and exactly when it raises |
| Recovery.Reconcile | src/paper_live/ingestion_retry.py:102-107 | the dataset then holds its table overlaid by the merged one, or is unchanged when merge or build refuse |
| Recovery.ReconciledTables | src/paper_live/ingestion_retry.py:109-118 | on rows read back from two datasets the merge is map union in which canonical rows win |
| Recovery.ReconcileFromDrive | src/paper_live/ingestion_retry.py:109-118 | the canonical dataset then holds its rows and, for every key it lacked, the recovery row; the number added is the number of keys it lacked |
| DriveRecovery.NewestAppend | src/paper_live/ingestion_retry.py:90-98 | publishing two lots of rows one after the other is publishing both at once |
| DriveRecovery.DriveAddsLatest | src/paper_live/ingestion_retry.py:90-118 | on the drive path, whatever the recovery dataset held before, a missing key gets the latest available of all rows stored or fetched for it |
| DriveRecovery.DriveAddsEarliestExactly | src/paper_live/ingestion_retry.py:90-118 | that row is an earliest one if and only if all rows stored or fetched for the key are available at the same time |
| DriveRecovery.DriveAgainstMerge | src/paper_live/ingestion_reconcile.py:47-78 | merging the same rows directly and the drive path give rows of one timestamp under the same condition, and of different ones otherwise |
| DriveRecovery.DriveTakesTheLater | src/paper_live/ingestion_retry.py:90-118 | two rows of one key: merged directly the earlier arrives, on the drive path the later |
| DriveRecovery.RunAll | src/paper_live/ingestion_retry.py:68-100 | any number of passes with their publications: queue, recovery dataset and the pass that fails, if one does |
| DriveRecovery.RecoverAndReconcile | src/paper_live/ingestion_retry.py:68-118 | passes, publications and the final reconciliation in sequence: each missing key of the canonical dataset gets a latest one of all rows stored or fetched for it |
| Retry.NormalizedSymbols | src/paper_live/market_ingestion.py:66 | the symbols the collector works through |
| Retry.SymbolsMeans | src/paper_live/market_ingestion.py:66 | they are exactly the non-blank stripped symbols, each once, ascending |
| Base.StripMeans | src/paper_live/market_ingestion.py:66 | stripping takes the white space off both ends, and all of it |
| Retry.FetchSymbol | src/paper_live/market_ingestion.py:72-89 | stops at the first success, or after the last try with that try's exception |
| Retry.CollectSymbols | src/paper_live/market_ingestion.py:70-92 | the whole report and the exact number of fetches, for any provider |
| Retry.Collect | src/paper_live/market_ingestion.py:57-92 | refuses a bad range, market or source without fetching, and else reports on the normalised symbols |
| Retry.FailedWhenAllRaised | src/paper_live/market_ingestion.py:70-90 | a symbol is reported as failed if and only if every try raised |
| Retry.CompleteWhenAllSucceed | src/paper_live/market_ingestion.py:27-29 | a report is complete if and only if something was asked for and every symbol succeeded |
| Retry.FetchesBounded | src/paper_live/market_ingestion.py:70-90 | at least one and at most `tries` fetches per symbol |
| RetryTerms.CollectedExactly | src/paper_live/market_ingestion.py:70-92 | the rows collected are those of the first answer about each symbol, and a failure tells the last exception and the tries spent |
| Retry.FailureQueue.Add | src/paper_live/ingestion_run.py:59-63 | an item replaces one of its range unless it was tried less often |
| Retry.FailureQueue.Select | src/paper_live/ingestion_run.py:69-74 | exactly the wanted items, each once, in order |
| Retry.IngestionRetryService.Run | src/paper_live/ingestion_retry.py:68-88 | queue, counts and rows after a pass for any provider: remaining is queue size less resolved, items not due are kept as they are, rows are those of the resolved items |
| RetryTerms.PassExactly | src/paper_live/ingestion_retry.py:68-88 | after a pass an item is gone, has one attempt more or is unchanged, and which; the rows are those of the answers |
| RetryTerms.ListedInOrder | src/paper_live/ingestion_run.py:69-74 | items are listed by market, symbol, start and end |
| Retry.PassUsesAttempts | src/paper_live/ingestion_retry.py:74-88 | a pass lowers the attempts left over retryable items by at least the number of items it attempts |
| Retry.AttemptsBounded | src/paper_live/ingestion_retry.py:68-88 | all passes together attempt no more than the attempts left at the start |
| Retry.SomePassIsIdle | src/paper_live/ingestion_retry.py:68-88 | of any run of passes longer than the attempts left some pass attempts nothing |
| Retry.FixedPoint | src/paper_live/ingestion_retry.py:74-88 | a pass leaves the queue as it is if and only if it attempts nothing, that is when no retryable item is below the limit |
| Retry.StuckAtTheLimit | src/paper_live/ingestion_retry.py:75-77 | over any passes the retryable items at the limit are exactly those that came in so, unchanged |
| Retry.RetryableInTheEnd | src/paper_live/ingestion_retry.py:74-88 | when nothing is left to try, something is still retryable if and only if it came in at the limit |

## Left out

- Precision of Decimal contexts and rounding errors of floats: amounts are exact reals.
- The live path: broker adapters, approvals, secrets, environment promotion and skill checks; the mode is a parameter of each call.
- HTTP, the Drive client, sheets, notifiers and locks; a provider is an arbitrary answer per call and an upload replaces the file.
- JSON, SHA-256 and the text of error messages: records are stored as they are, and a checksum is what it is taken over.
- Comparing an aware with a naive timestamp, which raises in the source: `Calendar.stamp` maps every readable timestamp to one time line.
- White space and case beyond ASCII in `strip` and `upper`.
- Fields given as text that is no number, and non-finite numbers; such a field is absent in the model, except a target weight, which is refused.
- Recommendation.Rank: the weights are one for each of the seven default factors, and the model version and date columns are left out, because no other stage reads them.
- Sharpe ratio, and the formula of volatility: it is any function of its window of closes.
- Run manifests, audit trail, stage persistence and reflection.
- TradingPipeline.Pipeline.Run: what the agents decide and the id made up for the order are parameters, and the reflection that is stored is left out, because nothing in the account or the ledger depends on it.
- PaperBatch.PaperExecutionOrchestrator.Settle: whether the submission is found in the audit trail is a flag, because the trail is not part of this model.
- PaperBatch.PaperExecutionOrchestrator.Execute: the rows persisted for fills, P&L and reflection are left out, and whether submissions are on record is one flag for the batch.
- DataLake.DriveStorage.WritePartitioned: the aggregate index and manifest fields other than partition keys and counts are left out, because they are derived from the rows written.
- The facade assesses an order once when it revalidates a row and once more with the same inputs when it submits; the model does it once.
- Waiting between fetches, and exceptions of the provider factory.
- Persisting inside `collect`: it is the dataset build modelled by MarketDataset.
- Dates of a failed range are day numbers, and its error type and message are one text.
- Bookkeeping of filter statistics in `last_filter_stats`; the audit rows carry the same reasons.
- DailyPipeline.BuildFromDaily: does not model that an exception while writing a snapshot interrupts the pipeline, because the stores it writes to are not part of this model.
- Recovery.Publish: takes the fetched rows as a parameter; Recovery.RunAndPublish joins it to the pass that fetches them.
- Agents, graph orchestration, filings, vision, sentiment, securities master, corporate actions and command-line tools: none would add a harder property.
