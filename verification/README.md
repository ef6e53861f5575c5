# Atlas: verified models of the stateful core

Atlas is a trading platform. This project models the parts of it that keep
state over many calls or do recursive arithmetic, and proves what they promise
for every input and every run.

- **Paper-trading ledger** (`Ledger`, `LedgerLifecycle`, `LedgerHistory`,
  `LedgerConservation`, `LedgerTilt`, `LedgerSweep`, `LedgerOutcomes`,
  `LedgerSummary`, `PaperTrading`). `Ledger` gives every
  operation of the engine and its position store as a function on account
  values; `PaperTrading` holds the classes that update their fields in place
  and are proved to compute exactly those functions. The other modules prove
  the lifecycle invariant, that nothing settled is ever rewritten, solvency,
  conservation of cash and shares, completeness of a sweep, and
  (`LedgerOutcomes`) what every operation comes to, order by order and position
  by position.
- **Backtest and Monte Carlo paths** (`SignalMatcher`, `WalkForward`,
  `Drawdown`, `MonteCarlo`): optimality of the one-pass matcher, no look-ahead
  and exact tiling of walk-forward windows, the reflection law of the clamped
  equity curve, the closed form of the parametric walk, and the relation of
  the two drawdown computations on all paths.
- **Throttling** (`Throttling`, `RateLimiter`, `NotificationHub`, `HubOverlap`,
  `SignalNotifier`): window bounds over every history of admitted events, for
  whole calls and for sends that overlap.
- **Quotes** (`QuoteAdapter`): the batch as a prioritised merge, and the cache
  as the latest accepted live quote.
- **Calendar** (`Dates`, `TradingCalendar`): the Gregorian calendar, termination
  of the searches, and `next`/`prev` as mutual inverses.
- **Health, detectors, forecast** (`HealthChecker`, `SmcDetectors`, `Deduction`).

Conventions. Floats and decimals are `real`, display rounding is dropped. A
call is one step; what an external service answers, and every clock reading,
is an argument of the step, and a fetch that raises is a missing answer
(`None`, or a missing map key). Runs are sequences of calls; state-keeping
classes carry a ghost log or a ghost view that ties the object to the run, so
that the lemmas about runs apply to the objects.

Where the code differs from what its names or comments suggest, the code is
followed, and the difference is stated as a lemma:

- A manual SELL closes no position: a market sale upsets the two balances at
  once, a limit sale in the sweep that fills it (`WaitingSaleBreaksShares`).
  `ConservedExactlyWhen` and `SharesConservedExactlyWhen` say for every run when
  the balances hold, by an amount for each command that is computed from the
  account before it.
- An exit fills at the second quote fetched and closes its position at the
  first; `ExitBalancesExactly` says that cash balances exactly when they agree.
- A limit order turned away for lack of cash is still in the list a sweep
  returns (`SweepReturns`).
- `simulate` measures drawdown before the clamp, so it passes 1 on ruined
  paths (`DrawdownAboveOneIffRuined`), where it can differ from the backtest's
  figure (`DrawdownsDifferInRuin`; exactly when, `DrawdownsAgreeExactlyWhen`).
- `broadcast` records a send without asking the limiter (`BroadcastIsNotGated`);
  the limit holds exactly when each broadcast came while a send would not have
  been refused (`WithinLimitExactlyWhenAsked`). Sends that overlap pass it by at
  most one less than their number (`OverlapBound`, `OverlapBoundIsTight`).
- A second batch source that answered a code it was not asked for would
  overwrite the quote of an earlier one (`UnaskedAnswerOverwrites`); in the
  chains `connect` builds none does (`ShippedChainMerges`).
- A batch whose sources answer only codes nobody asked for returns an empty
  list instead of raising (`UnaskedOnlyIsNoError`).
- `reset` forgets what was admitted, so each reset lets another limit's worth
  pass in the same window (`ResetsReachBound`).
- The reported `total_pnl` is minus the charges of the sales (`SummaryOfRun`).
- A signal without a code is looked up under one cooldown key and recorded
  under another (`UncodedSignalsDoNotCoolDown`).
- `remaining` promises too little for a window of no length (`RemainingIsExact`).
- The limiter reads its clock before it takes its lock; a late entry with an
  early reading can pass a full window (`LateReadingPassesFullWindow`). The
  bounds are proved for readings in step order, and for readings that lag by at
  most delta on windows shorter by delta (`LaggingNeverMoreThanMax`), where no
  longer window would do (`LagBoundIsSharp`).
- The screener says it compares with the close N bars back and compares with
  the one N - 1 bars back, which is the right one for tomorrow's average
  (`UpExactlyWhenWouldRise`).

## Model

| member | source | states |
|---|---|---|
| `LedgerLifecycle.StepKeepsLifecycle` | atlas/application/paper_trading.py:85-182 | every operation keeps the lifecycle invariant: each order id handed out is in the book or the fill list, once; fills are FILLED, respect their limit and match the trade log one to one in order; each position id is open or closed, once |
| `LedgerLifecycle.RunKeepsLifecycle` | atlas/application/paper_trading.py:106-331 | that invariant holds in every account any run can reach, manual sales included |
| `LedgerLifecycle.CompleteKeeps` | atlas/application/paper_trading.py:258-280 | moving a waiting order to the fills with its trade record keeps the invariant |
| `LedgerLifecycle.CloseKeeps` | atlas/domain/portfolio.py:99-115 | closing a position, known or not, keeps every position in exactly one store |
| `LedgerHistory.StepExtends` | atlas/application/paper_trading.py:106-182 | one operation only appends to fills, log and closed positions; an order that is no longer PENDING never changes; a PENDING one keeps its terms |
| `LedgerHistory.RunExtends` | atlas/application/paper_trading.py:106-331 | the same between any two points of any run |
| `LedgerHistory.RunMarketOrdersSettle` | atlas/application/paper_trading.py:139-143 | over every run only limit orders are ever left PENDING in the book |
| `LedgerHistory.RunSolvent` | atlas/application/paper_trading.py:234-256 | with non-negative prices, shares and resets and charges of at most the whole, available cash never goes negative |
| `LedgerConservation.RunLaws` | atlas/application/paper_trading.py:228-331 | over every run: cash, with every fill taken back, is the starting capital plus what resets injected; open and closed positions together are what the BUY fills bought, in cost and per code in shares |
| `LedgerConservation.LedgerConservation` | atlas/application/paper_trading.py:228-331 | with no manual SELL, no reset and steady quotes per sweep: cash = capital - open entry costs + realised gains - all commissions and taxes, and per code open shares = bought - sold, in every reachable state |
| `LedgerConservation.SharesConservation` | atlas/application/paper_trading.py:288-331 | the share law needs neither steady quotes nor an untouched capital |
| `LedgerConservation.RunSales` | atlas/application/paper_trading.py:313-329 | without manual sales every share sold is a share of a closed position, and no SELL ever waits in the book |
| `LedgerTilt.SweepTilts` | atlas/application/paper_trading.py:154-182 | a sweep moves sales ahead of exit values by exactly what its due limit sales sell plus, at each exit of a breached position, shares x (second quote - first quote); a stopped engine exits nothing |
| `LedgerTilt.SweepTiltsShares` | atlas/application/paper_trading.py:154-182 | per code a sweep moves shares sold ahead of shares closed by exactly those of its due limit sales, whatever the two fetches answer |
| `LedgerTilt.ConservedExactlyWhen` | atlas/application/paper_trading.py:106-331 | for every run, manual sales, moving quotes and resets included: the cash law holds exactly when the upsets of its commands add up to nothing, each upset computed from the account before the command and the quotes |
| `LedgerTilt.SharesConservedExactlyWhen` | atlas/application/paper_trading.py:106-331 | for every run and code: the share law holds exactly when the shares its market sales and due limit sales sell add up to nothing |
| `LedgerTilt.SharesConservedExactlyIfNeverUpset` | atlas/application/paper_trading.py:106-331 | for runs whose orders ask for no negative number of shares, the share law of a code holds exactly if no command ever upset it: once broken it stays broken |
| `LedgerTilt.CommandKeepsBalanceExactly` | atlas/application/paper_trading.py:106-182 | from a balanced reachable account, any command keeps the cash law exactly when its upset is nothing |
| `LedgerTilt.CommandKeepsSharesExactly` | atlas/application/paper_trading.py:106-182 | likewise for the share law of a code |
| `LedgerTilt.SteadySweepUpsets` | atlas/application/paper_trading.py:161-182 | at steady quotes a sweep's upset is what its due limit sales sell |
| `LedgerTilt.ExitBalancesExactly` | atlas/application/paper_trading.py:299-329 | the exit of a breached position keeps sales and exit values in step exactly when both fetches answer the same price (or no shares are held) |
| `LedgerTilt.WaitingSaleBreaksShares` | atlas/application/paper_trading.py:161-177 | a waiting limit sale leaves the share law intact when placed and breaks it in the sweep that fills it, unless it sells no shares |
| `LedgerSweep.SweepCompletes` | atlas/application/paper_trading.py:154-182 | on a started engine a sweep never raises and leaves no due order; a breached position open after the limit pass stays open exactly when the second fetch failed |
| `LedgerSweep.SweepSettles` | atlas/application/paper_trading.py:154-182 | at steady quotes nothing is left to do afterwards, positions opened by the sweep itself included |
| `LedgerSweep.SweepFixedPoint` | atlas/application/paper_trading.py:154-182 | a sweep changes and returns nothing exactly when nothing was left to do |
| `LedgerSweep.SweepIdempotent` | atlas/application/paper_trading.py:154-182 | a second sweep at the same quotes changes nothing |
| `LedgerSweep.SweepSpares` | atlas/application/paper_trading.py:161-175 | orders that are not due and positions that are not breached come out as they went in |
| `LedgerSweep.SweepWhenStopped` | atlas/application/paper_trading.py:118-119 | on a stopped engine limit orders are still swept; the sweep raises exactly if some open position is breached |
| `LedgerSweep.SweepReturns` | atlas/application/paper_trading.py:176-182 | every due order is in the returned list; each entry is among the fills or a BUY rejected for lack of cash |
| `LedgerOutcomes.MarketBuyOutcome` | atlas/application/paper_trading.py:221-280 | a quoted market BUY: with x*shares*(1+commission) within the cash it is FILLED at the quote, cash falls by exactly that, one position is added with its code, market, entry, shares, stop (or 95% of the price) and target, and its trade is recorded; otherwise it is REJECTED for insufficient capital and only the book changes |
| `LedgerOutcomes.MarketSellOutcome` | atlas/application/paper_trading.py:221-280 | a quoted market SELL is FILLED at the quote and cash grows by x*shares*(1-commission-tax); no position changes |
| `LedgerOutcomes.NoQuoteOutcome` | atlas/application/paper_trading.py:220-226 | a market order is rejected for want of a quote exactly when there is none, and then only the book changes |
| `LedgerOutcomes.LimitOrderWaits` | atlas/application/paper_trading.py:121-143 | a limit order is booked PENDING and nothing else happens |
| `LedgerOutcomes.CancelOutcome` | atlas/application/paper_trading.py:145-152 | a PENDING order ends CANCELLED at its place in the book and nothing else changes |
| `LedgerOutcomes.CancelSpares` | atlas/application/paper_trading.py:147-149 | an unknown id, or one no longer PENDING, changes nothing |
| `LedgerOutcomes.StartOutcome` | atlas/application/paper_trading.py:85-91 | a non-zero capital replaces capital and cash; otherwise only the flag is set |
| `LedgerOutcomes.LimitTurnOutcome` | atlas/application/paper_trading.py:161-177 | an order's turn in the limit pass: a met limit fills at the quote, or is rejected if it is a BUY the cash does not cover; any other turn changes nothing |
| `LedgerOutcomes.SweepLimitOutcome` | atlas/application/paper_trading.py:161-182 | what a whole sweep makes of a waiting order: FILLED at the quote, REJECTED for cash at its turn, or unchanged, by its limit, its side and the quote |
| `LedgerOutcomes.RunRespectsLimits` | atlas/application/paper_trading.py:172-176 | over every run no BUY is filled above its limit and no SELL below |
| `LedgerOutcomes.TriggerMeans` | atlas/application/paper_trading.py:308-311 | at or under a non-zero stop the reason is "stop_loss"; failing that, at or over a non-zero target, "take_profit"; else none |
| `LedgerOutcomes.ExitTurnOutcome` | atlas/application/paper_trading.py:313-329 | one exit: the position closes at the first quote under its reason, against a SELL of its shares filled at the second, whose proceeds reach the cash |
| `LedgerOutcomes.SweepExits` | atlas/application/paper_trading.py:296-331 | what a sweep makes of each position, by its stop, its target and the two quotes: closed as "stop_loss" or "take_profit" with its exit order returned, or still open, unchanged |
| `LedgerOutcomes.SweepExitsHeld` | atlas/application/paper_trading.py:154-182 | the same for every position open before the sweep |
| `LedgerOutcomes.SweepLeavesSafe` | atlas/application/paper_trading.py:154-182 | at steady quotes every quoted position left open is above its non-zero stop and below its non-zero target |
| `PaperTrading.PortfolioManager.AddPosition` | atlas/domain/portfolio.py:74-97 | appends the position under a fresh journal id and touches nothing else |
| `PaperTrading.PortfolioManager.ClosePosition` | atlas/domain/portfolio.py:99-115 | moves the position, with its exit, to the closed list; an unknown id changes nothing |
| `PaperTrading.PortfolioManager.GetOpenPositions` | atlas/domain/portfolio.py:214-232 | the loop lists the open positions of the given market, or all of them |
| `PaperTrading.ListedMeans` | atlas/domain/portfolio.py:218-232 | the list is the positions of the given market, or all, each once and in order, with none left out |
| `PaperTrading.PaperTradingEngine.Start` | atlas/application/paper_trading.py:85-97 | a given non-zero capital replaces capital and cash; the engine is started |
| `PaperTrading.PaperTradingEngine.Stop` | atlas/application/paper_trading.py:99-104 | only the started flag changes; the summary of the stopped account is returned |
| `PaperTrading.PaperTradingEngine.GetSummary` | atlas/application/paper_trading.py:196-209 | the summing loop reports the counts, cash, realised profit and return of the account |
| `LedgerSummary.SummaryOfRun` | atlas/application/paper_trading.py:196-209 | after every run `total_orders` counts each order ever placed once, fills and trades are as many, and `total_pnl` is minus the charges of the sales: no gain or loss of a position enters it |
| `LedgerSummary.SummaryFigures` | atlas/application/paper_trading.py:199-207 | running flag, capital and cash are the account's; the return is the profit in percent of a non-zero capital |
| `PaperTrading.PaperTradingEngine.PlaceOrder` | atlas/application/paper_trading.py:106-143 | errs exactly when not started, changing nothing; otherwise a fresh order object and the account of the specification |
| `PaperTrading.PaperTradingEngine.CancelOrder` | atlas/application/paper_trading.py:145-152 | succeeds exactly on a PENDING order of the book, and changes only its status |
| `PaperTrading.PaperTradingEngine.FillMarketOrder` | atlas/application/paper_trading.py:218-226 | fills at the fetched price, or rejects the order when the fetch raises |
| `PaperTrading.PaperTradingEngine.FillOrder` | atlas/application/paper_trading.py:228-280 | the in-place update computes the specified account and order; other orders stay in the book |
| `PaperTrading.PaperTradingEngine.CheckAndFillPending` | atlas/application/paper_trading.py:154-182 | computes the specified sweep, its returned list and whether it raises |
| `PaperTrading.PaperTradingEngine.FillPending` | atlas/application/paper_trading.py:159-177 | the limit loop over a snapshot of a book it changes computes the specified pass |
| `PaperTrading.PaperTradingEngine.CheckStopTake` | atlas/application/paper_trading.py:288-331 | the stop and target loop computes the specified pass |
| `PaperTrading.PaperTradingEngine.ExitPosition` | atlas/application/paper_trading.py:313-329 | places the exit order and closes the position only if it filled |
| `SignalMatcher.GreedyIsSelection` | atlas/application/backtest_engine.py:230-260 | the matcher's pairs are alternating, disjoint BUY-before-SELL pairs, and an open entry lies after them |
| `SignalMatcher.GreedyOptimal` | atlas/application/backtest_engine.py:230-260 | no selection of such pairs has more trades |
| `SignalMatcher.GreedyExitsEarliest` | atlas/application/backtest_engine.py:230-260 | the k-th exit is no later than that of any other selection |
| `SignalMatcher.GreedyGrows` | atlas/application/backtest_engine.py:230-260 | more signals only add trades after those already taken |
| `SignalMatcher.TradesInOrder` | atlas/application/backtest_engine.py:243-259 | on date-sorted signals hold days are not negative and trades follow one another |
| `SignalMatcher.TradesMean` | atlas/application/backtest_engine.py:231-260 | the k-th trade carries the prices, dates and exit reason of its two signals, its hold days, 1000 shares, its cost (1000 x 0.685% x the mean price), profit and percentage |
| `SignalMatcher.TradeTotals` | atlas/application/backtest_engine.py:241-243 | the profits add up to 1000 x (exits - entries) less the costs; a trade gains exactly if its exit is worth more than its entry and cost |
| `SignalMatcher.CostLowers` | atlas/application/backtest_engine.py:239-243 | including costs lowers each profit by exactly its cost and changes nothing else |
| `SignalMatcher.SignalsToTrades` | atlas/application/backtest_engine.py:217-262 | the one-pass loop yields those trades, as many as any selection |
| `WalkForward.ProductComplete` | atlas/application/backtest_engine.py:124-126 | the grid product lists every combination and nothing else, as many as the list lengths multiply to |
| `WalkForward.ProductOrder` | atlas/application/backtest_engine.py:126-126 | the product counts like an odometer, the last list fastest |
| `WalkForward.ZipMeans` | atlas/application/backtest_engine.py:130-130 | with distinct keys each is given the value at its own place |
| `WalkForward.SortSorts` | atlas/application/backtest_engine.py:139-139 | the sort is a permutation with falling Sharpe ratios |
| `WalkForward.SortHeadIsFirstBest` | atlas/application/backtest_engine.py:139-142 | its head is the first report with the largest Sharpe ratio |
| `WalkForward.ParamScan` | atlas/application/backtest_engine.py:113-142 | the loop over the product yields the sorted reports of all combinations |
| `WalkForward.RunInSample` | atlas/application/backtest_engine.py:168-179 | a scan with a grid, a plain run without one or when the scan is empty |
| `WalkForward.Analyse` | atlas/application/backtest_engine.py:144-206 | one window per index, each as specified; no windows at all is an error |
| `WalkForward.RunReadsUpTo` | atlas/application/backtest_engine.py:51-111 | a run's report depends on nothing after its end date |
| `WalkForward.FetchExact` | atlas/application/backtest_engine.py:79-79 | a run sees exactly the bars dated within its range, each once and in order |
| `WalkForward.TradesPerCode` | atlas/application/backtest_engine.py:78-93 | the trades of a run are those of its codes in order, codes with fewer than twenty bars passed over; one that raises fails the run |
| `WalkForward.RunFigures` | atlas/application/backtest_engine.py:95-109 | a report's return is its profits in percent of a million, its Sharpe ratio that of its profits; without trades both are zero |
| `WalkForward.NoLookAhead` | atlas/application/backtest_engine.py:160-185 | histories that agree up to a window's split give it the same in-sample report and best parameters |
| `WalkForward.BestParamsAreFirstMaximum` | atlas/application/backtest_engine.py:168-185 | the best parameters are the combination of the first maximum in product order |
| `WalkForward.InSampleFigures` | atlas/application/backtest_engine.py:167-179 | without a grid or combinations a plain run gives parameters and in-sample figures; otherwise the first report with the largest Sharpe ratio |
| `WalkForward.WindowFigures` | atlas/application/backtest_engine.py:181-203 | the out-of-sample figures are those of a run over the window's out-of-sample days with its best parameters; the degradation compares the two ratios |
| `WalkForward.OutSampleReadsItsBars` | atlas/application/backtest_engine.py:182-185 | histories that agree from the split to the window's end, and give it the same best parameters, give it the same out-of-sample figures |
| `WalkForward.WindowDays` | atlas/application/backtest_engine.py:161-165 | a window's four dates are those of the plan |
| `WalkForward.SplitMeans` | atlas/application/backtest_engine.py:165-165 | the split lies the whole days of the in-sample share after the start |
| `WalkForward.WindowsFollow` | atlas/application/backtest_engine.py:160-165 | each window starts where the one before it ends, and the last does not pass the end |
| `WalkForward.WindowsTile` | atlas/application/backtest_engine.py:156-165 | windows tile: each end is the next start, the split lies inside, the clamp never acts, fewer than `num_windows` days are left over |
| `Drawdown.TwoPassIsMaxFall` | atlas/application/backtest_engine.py:292-296 | on a curve that never goes below zero the two numpy passes find the largest relative fall between an earlier and a later point |
| `Drawdown.OnePassIsTwoPass` | atlas/strategy/monte_carlo.py:43-52 | on unruined paths the one-pass loop and the two passes agree, peak included |
| `Drawdown.DrawdownAgreement` | atlas/application/backtest_engine.py:292-296 | while running equity stays non-negative, both computations are the unique largest fall |
| `Drawdown.TwoPassAboveOneIffRuined` | atlas/application/backtest_engine.py:292-296 | the backtest's figure exceeds 1 exactly when some running sum is negative |
| `Drawdown.DrawdownsDifferOnlyInRuin` | atlas/strategy/monte_carlo.py:43-56 | on every path the two figures agree or both exceed 1 |
| `Drawdown.OnePassAtMostTwoPass` | atlas/strategy/monte_carlo.py:43-56 | on every path the Monte Carlo figure is at most the backtest's |
| `Drawdown.DrawdownsAgreeExactlyWhen` | atlas/strategy/monte_carlo.py:43-56 | on every path the two figures agree exactly when the backtest's largest fall came no later than the first negative running sum |
| `Drawdown.DrawdownsDifferInRuin` | atlas/strategy/monte_carlo.py:48-52 | a ruined path on which they are 3 and 4 |
| `MonteCarlo.ReflectionLaw` | atlas/strategy/monte_carlo.py:47-49 | the clamped curve is the running sum less the smaller of 0 and its lowest point since the first trade |
| `MonteCarlo.ReflectionFromStart` | atlas/strategy/monte_carlo.py:43-49 | with non-negative capital the minimum may include the start |
| `MonteCarlo.SolventPathIsRaw` | atlas/strategy/monte_carlo.py:48-49 | before ruin the clamp never acts |
| `MonteCarlo.DrawdownAboveOne` | atlas/strategy/monte_carlo.py:50-52 | for any capital: drawdown passes 1 exactly at a negative value under a positive peak |
| `MonteCarlo.DrawdownAboveOneIffRuined` | atlas/strategy/monte_carlo.py:48-52 | with positive capital: drawdown exceeds 1 exactly when some raw running sum is negative |
| `MonteCarlo.SimulatePath` | atlas/strategy/monte_carlo.py:41-56 | one path: the whole curve by the reflection law, and its drawdown |
| `MonteCarlo.NeverBroke` | atlas/strategy/monte_carlo.py:120-123 | with capital and risk below 1 the early exit is never taken, equity stays positive, drawdown below 1 |
| `MonteCarlo.WalkMultiplies` | atlas/strategy/monte_carlo.py:111-117 | each win and each loss multiplies equity by a constant |
| `MonteCarlo.ClosedForm` | atlas/strategy/monte_carlo.py:105-126 | final equity is capital x (1 + risk x payoff)^wins x (1 - risk)^losses |
| `MonteCarlo.ClosedFormInRates` | atlas/strategy/monte_carlo.py:111-115 | the same with 1 + risk x avg_win/avg_loss per win, or 1 + risk where there is no average loss, and 1 - risk per loss |
| `Drawdown.WalkDrawdownIsMaxFall` | atlas/strategy/monte_carlo.py:117-120 | the parametric path reports the largest relative fall of its own equity curve |
| `MonteCarlo.OrderIndependent` | atlas/strategy/monte_carlo.py:110-117 | reordering the outcomes leaves the final equity unchanged |
| `MonteCarlo.BreaksExactlyWhen` | atlas/strategy/monte_carlo.py:122-123 | the early exit is taken exactly when a loss occurs at risk 1 or more, and then nothing is left |
| `MonteCarlo.SimulateParamPath` | atlas/strategy/monte_carlo.py:105-126 | the loop with its early exit yields that equity and drawdown |
| `Throttling.WindowBound` | atlas/infrastructure/rate_limiter.py:55-63 | timestamps each admitted under the window condition never number more than the limit in any window |
| `Throttling.PruneIsKeep` | atlas/infrastructure/rate_limiter.py:55-57 | pruning the head of an ordered deque is filtering the whole list |
| `Throttling.TrackedWindow` | atlas/infrastructure/notification_hub.py:131-135 | what is kept is exactly the current window of the whole history |
| `Throttling.SparseBound` | atlas/infrastructure/rate_limiter.py:55-63 | the window bound for entries in any order, each admitted while fewer than the limit were later than its window's start |
| `RateLimiter.RunKeepsKey` | atlas/infrastructure/rate_limiter.py:39-78 | over every run the deque of a key is what was admitted since its last reset less expired entries, ordered and admitted under the limit |
| `RateLimiter.SinceResetNeverMoreThanMax` | atlas/infrastructure/rate_limiter.py:39-63 | no window-long interval holds more than `max_requests` requests of a key admitted since its last reset |
| `RateLimiter.NeverMoreThanMax` | atlas/infrastructure/rate_limiter.py:39-68 | over every run no window-long interval holds more admitted requests of a key, erased ones included, than `max_requests` x (1 + resets of the key); without a reset, than `max_requests` |
| `RateLimiter.ResetsReachBound` | atlas/infrastructure/rate_limiter.py:65-68 | that bound is reached for every limit and every number of resets, so a reset lets more than the limit pass in one window |
| `RateLimiter.AnswersAreExact` | atlas/infrastructure/rate_limiter.py:59-78 | a request is refused exactly when the window of requests admitted since the last reset is full, and `remaining` is what is left of it |
| `RateLimiter.RemainingIsExact` | atlas/infrastructure/rate_limiter.py:70-78 | `remaining` is the number of further checks admitted at that instant exactly when the window has positive length or nothing is ever admitted |
| `RateLimiter.LaggingNeverMoreThanMax` | atlas/infrastructure/rate_limiter.py:49-63 | where no reading lags an earlier one by more than delta, no interval shorter than the window by delta holds more than `max_requests` x (1 + resets of the key) |
| `RateLimiter.LagBoundIsSharp` | atlas/infrastructure/rate_limiter.py:49-63 | for every limit of two or more and every lag up to the window, any longer interval can hold one request more than the limit |
| `RateLimiter.LateReadingPassesFullWindow` | atlas/infrastructure/rate_limiter.py:49-52 | a run with a clock reading out of step order that puts three requests in a window for two |
| `RateLimiter.RateLimiter.Check` | atlas/infrastructure/rate_limiter.py:39-63 | the popping loop answers and leaves the deque as the run of calls says |
| `RateLimiter.RateLimiter.Remaining` | atlas/infrastructure/rate_limiter.py:70-78 | the counting loop answers what is left and removes nothing |
| `RateLimiter.RateLimiter.Clear` | atlas/infrastructure/rate_limiter.py:65-68 | empties the key and no other |
| `NotificationHub.RunKeepsHub` | atlas/infrastructure/notification_hub.py:52-138 | over every run the list is the recorded history less expired entries, and every send of the chain found room |
| `NotificationHub.RefusedExactlyWhenFull` | atlas/infrastructure/notification_hub.py:62-68 | a send is refused by the limiter exactly when the window before it is full |
| `NotificationHub.CallOutcome` | atlas/infrastructure/notification_hub.py:52-138 | one call: a send with room and a delivering channel is recorded at its own moment, any other send only drops the expired timestamps, a broadcast is always recorded |
| `NotificationHub.SendsBounded` | atlas/infrastructure/notification_hub.py:52-138 | no window holds more than the limit of chain sends, nor more records than the limit plus its broadcasts |
| `NotificationHub.SequentialSendsBounded` | atlas/infrastructure/notification_hub.py:52-103 | without broadcasts the bound is the limit itself |
| `NotificationHub.WithinLimitExactlyWhenAsked` | atlas/infrastructure/notification_hub.py:105-138 | over every run, no window holds more records than the limit exactly when each broadcast came while a send would not have been refused |
| `NotificationHub.BroadcastIsNotGated` | atlas/infrastructure/notification_hub.py:105-119 | for every limit, one broadcast more than it at one instant passes it |
| `NotificationHub.NotificationHub.Send` | atlas/infrastructure/notification_hub.py:52-103 | succeeds exactly if not limited and some channel delivers; channels after the first delivery are not asked |
| `NotificationHub.NotificationHub.Broadcast` | atlas/infrastructure/notification_hub.py:105-119 | answers by channel name whether its last attempt delivered, and records one send whatever the channels say |
| `NotificationHub.NotificationHub.AskChannels` | atlas/infrastructure/notification_hub.py:71-96 | channels are asked in order up to the first that delivers; all of them if none does |
| `HubOverlap.OverlapBound` | atlas/infrastructure/notification_hub.py:62-81 | with at most c sends under way at once, however they interleave with each other and with broadcasts, no window holds more than limit + c - 1 chain sends |
| `HubOverlap.OverlapBoundIsTight` | atlas/infrastructure/notification_hub.py:62-81 | that bound is reached for every limit and every c |
| `HubOverlap.SequentialIsWholeCalls` | atlas/infrastructure/notification_hub.py:52-119 | sends that do not overlap leave the hub exactly as the run of whole calls does |
| `SignalNotifier.RunThrottled` | atlas/application/signal_notifier.py:66-145 | over every run the counter is the count of the running minute, minutes are capped and spaced, and the cooldown cache dominates every send |
| `SignalNotifier.AtMostTwiceMax` | atlas/application/signal_notifier.py:88-92 | any 60 seconds hold at most twice `max_per_minute` successful sends |
| `SignalNotifier.TurnOutcome` | atlas/application/signal_notifier.py:50-145 | one signal: filtered if too mild, the wrong way, too soon under its key or past the cap; else sent, failed or escaped; which counters, cache entry, minute and record each moves |
| `SignalNotifier.TwiceMaxIsReached` | atlas/application/signal_notifier.py:88-92 | for every cap a run puts twice as many successful sends into one second |
| `SignalNotifier.CooldownHolds` | atlas/application/signal_notifier.py:79-86 | successful sends under one key, the later with a code, are a cooldown apart |
| `SignalNotifier.StatsBalance` | atlas/application/signal_notifier.py:55-63 | processed = sent + filtered + errors + escaped exceptions, and sent is the number of recorded sends |
| `SignalNotifier.StatsBalanceExactly` | atlas/application/signal_notifier.py:128-139 | processed = sent + filtered + errors exactly when no exception escaped the retry |
| `SignalNotifier.UncodedSignalsDoNotCoolDown` | atlas/application/signal_notifier.py:80-100 | a signal without a code sent twice at one instant |
| `SignalNotifier.RepeatAfterSend` | atlas/application/signal_notifier.py:141-145 | after a send a signal with a code is filtered until its cooldown ends; one without a code is filtered as before |
| `SignalNotifier.SignalNotifier.ProcessSignals` | atlas/application/signal_notifier.py:50-64 | takes the turns of the batch in order, counts the sends, and stops at an escaping exception |
| `SignalNotifier.SignalNotifier.TakeTurn` | atlas/application/signal_notifier.py:56-63 | one signal: the counters and the cache move as the run of turns says |
| `SignalNotifier.SignalNotifier.FinishTurn` | atlas/application/signal_notifier.py:58-63 | a send that is done, fails or escapes, and a filtered signal, each move exactly their counters, the cache and the minute count |
| `SignalNotifier.SignalNotifier.ShouldNotify` | atlas/application/signal_notifier.py:66-92 | the answer and the minute counter, which rolls over even where the answer is no |
| `QuoteAdapter.CacheKeyInjective` | atlas/infrastructure/quote_adapter.py:52-54 | entries share a key only if market and code agree |
| `QuoteAdapter.GatherAccounts` | atlas/infrastructure/quote_adapter.py:660-678 | `remaining` is always the requested codes less the answered ones, and results are kept under their own code, whatever the sources answer |
| `QuoteAdapter.BatchIsPrioritisedMerge` | atlas/infrastructure/quote_adapter.py:651-691 | whatever the sources answer, a requested code is answered exactly when a live source supplies it or the cache knows it; its quote is that of the first supplier, else the cache's, exactly when the asked sources' last word on it is the first supplier's |
| `QuoteAdapter.UnchallengedMerge` | atlas/infrastructure/quote_adapter.py:664-674 | per code: where no source asked after its first supplier answers it differently, the first supplier's quote stands and the cache fills in for codes without one |
| `QuoteAdapter.ShippedChainMerges` | atlas/infrastructure/quote_adapter.py:521-558 | with the chains `connect` builds, the exchange arbitrary and the last live source stamping the asked code, the merge is prioritised on every requested code |
| `QuoteAdapter.BatchKeepsLastAnswer` | atlas/infrastructure/quote_adapter.py:664-674 | whatever the live sources answer, a code has the last quote any source that was asked gave for it |
| `QuoteAdapter.UnaskedAnswerOverwrites` | atlas/infrastructure/quote_adapter.py:670-672 | a second source that answers a code it was not asked for would overwrite the first one's quote; none of the shipped chains holds such a source |
| `QuoteAdapter.OutputFollowsInput` | atlas/infrastructure/quote_adapter.py:690-691 | the output is the input list, duplicates and order kept, less unanswered codes |
| `QuoteAdapter.CacheHoldsLatest` | atlas/infrastructure/quote_adapter.py:392-402 | over every run the entry of a market and code is its latest accepted live quote; hits, connects and the other market leave it alone |
| `QuoteAdapter.FallsBackToLatest` | atlas/infrastructure/quote_adapter.py:575-614 | when no live source answers acceptably, the latest live quote comes back, equal but for the stale flag, unless its price is zero |
| `QuoteAdapter.SingleOutcome` | atlas/infrastructure/quote_adapter.py:575-614 | a connected single quote is the first live answer with a price; else the latest live quote on record with a price, marked stale; else the last close; else an error |
| `QuoteAdapter.BatchAnswer` | atlas/infrastructure/quote_adapter.py:651-691 | a connected batch over every run: an error exactly when nothing was requested, or nothing was supplied and no requested code is on record; otherwise the known codes of the input in order with duplicates, each with the first supplier's quote or its latest live one marked stale under the shipped chains |
| `QuoteAdapter.UnaskedOnlyIsNoError` | atlas/infrastructure/quote_adapter.py:680-691 | sources that answer only codes nobody asked for turn the error into an empty answer |
| `QuoteAdapter.ConnectedMeans` | atlas/infrastructure/quote_adapter.py:521-573 | a market is connected from its `connect` to the next `disconnect` |
| `QuoteAdapter.FirstAcceptedIsFirst` | atlas/infrastructure/quote_adapter.py:583-601 | the chain returns the first answer with a non-zero price |
| `QuoteAdapter.QuoteAdapter.Connect` | atlas/infrastructure/quote_adapter.py:521-558 | the market's chain is there, the cache untouched |
| `QuoteAdapter.QuoteAdapter.Disconnect` | atlas/infrastructure/quote_adapter.py:560-573 | no chain is left, the cache untouched |
| `QuoteAdapter.QuoteAdapter.GetQuote` | atlas/infrastructure/quote_adapter.py:575-614 | the loop over the chain answers as just said, errs when not connected, and writes through what it accepts |
| `QuoteAdapter.QuoteAdapter.GetQuotesBatch` | atlas/infrastructure/quote_adapter.py:651-691 | the loop over a shrinking `remaining` answers as just said, and errs when not connected |
| `QuoteAdapter.QuoteAdapter.MergeAnswer` | atlas/infrastructure/quote_adapter.py:670-674 | one live answer: every quote is taken, ticked off and written through |
| `QuoteAdapter.QuoteAdapter.MergeEntries` | atlas/infrastructure/quote_adapter.py:426-435 | cache hits come in any order with the same outcome |
| `Dates.SuccOrdinal` | atlas/domain/trading_calendar.py:65-65 | a day later is one ordinal more, across months, years and leap days |
| `Dates.BeforeIffOrdinal` | atlas/domain/trading_calendar.py:86-86 | comparing dates field by field is comparing ordinals, and an ordinal names one date |
| `Dates.WeekdayMeans` | atlas/domain/trading_calendar.py:50-50 | weekdays are counted from a known Saturday |
| `Dates.KnownOrdinals` | atlas/domain/trading_calendar.py:65-65 | the first day of the calendar and the epoch have their known ordinals |
| `TradingCalendar.FixedHolidaysApart` | atlas/domain/trading_calendar.py:21-28 | no two consecutive dates are both fixed holidays |
| `TradingCalendar.ClosedDays` | atlas/domain/trading_calendar.py:48-57 | a day does not trade exactly if it is a weekend, a loaded holiday, or one of four fixed days in Taiwan or three in the US |
| `TradingCalendar.TradingDayAfter` | atlas/domain/trading_calendar.py:59-66 | after every day some day trades, whatever finite set of holidays is loaded |
| `TradingCalendar.TradingDayBefore` | atlas/domain/trading_calendar.py:68-75 | likewise before every day |
| `TradingCalendar.PrevUndoesNext` | atlas/domain/trading_calendar.py:59-75 | `prev` of `next` is the day itself exactly on trading days |
| `TradingCalendar.NextUndoesPrev` | atlas/domain/trading_calendar.py:59-75 | `next` of `prev` is the day itself exactly on trading days |
| `TradingCalendar.TradingDaysExact` | atlas/domain/trading_calendar.py:77-90 | the list holds exactly the trading days of the range, strictly increasing |
| `TradingCalendar.RangesAdd` | atlas/domain/trading_calendar.py:92-99 | day lists, hence counts, of ranges that meet add up |
| `TradingCalendar.TradingCalendar.NextTradingDay` | atlas/domain/trading_calendar.py:59-66 | terminates with the least trading day after the given one |
| `TradingCalendar.TradingCalendar.PrevTradingDay` | atlas/domain/trading_calendar.py:68-75 | terminates with the greatest trading day before the given one |
| `TradingCalendar.TradingCalendar.TradingDaysBetween` | atlas/domain/trading_calendar.py:77-90 | the loop lists exactly the trading days, in order |
| `TradingCalendar.TradingCalendar.TradingDaysCount` | atlas/domain/trading_calendar.py:92-99 | the number of those days |
| `TradingCalendar.TradingCalendar.AddHolidays` | atlas/domain/trading_calendar.py:115-118 | exactly the given dates of that market stop trading |
| `HealthChecker.StatusIsHistory` | atlas/infrastructure/health_checker.py:89-107 | UNHEALTHY iff the last three results failed, HEALTHY iff none ever failed or the last three succeeded, DEGRADED otherwise; the counters are the trailing runs |
| `HealthChecker.StatusUnderInterleaving` | atlas/infrastructure/health_checker.py:73-107 | under any interleaving each component's status is that of its own results since registration |
| `HealthChecker.SystemHealthyExactly` | atlas/infrastructure/health_checker.py:163-167 | the system is healthy iff no component's last three results all failed |
| `HealthChecker.RoundUpdatesEach` | atlas/infrastructure/health_checker.py:146-147 | a round of checks updates each registered component by its own result, once, and no other |
| `HealthChecker.FinishOrderIrrelevant` | atlas/infrastructure/health_checker.py:146-153 | in whatever order the checks of a round finish, the board comes out the same |
| `HealthChecker.ComponentHealth.Record` | atlas/infrastructure/health_checker.py:89-99 | the branch-by-branch update of one result |
| `HealthChecker.ComponentHealth.MarkFailure` | atlas/infrastructure/health_checker.py:202-210 | the update of a failed result |
| `HealthChecker.HealthChecker.RegisterComponent` | atlas/infrastructure/health_checker.py:65-71 | a fresh healthy component, replacing one of the same name |
| `HealthChecker.HealthChecker.CheckComponent` | atlas/infrastructure/health_checker.py:73-107 | errs exactly on an unknown name; otherwise updates that component object and no other |
| `HealthChecker.HealthChecker.CheckAll` | atlas/infrastructure/health_checker.py:143-153 | records one result per registered component, in the order they came, and returns all components |
| `HealthChecker.HealthChecker.IsSystemHealthy` | atlas/infrastructure/health_checker.py:163-167 | answers by the histories of all components |
| `SmcDetectors.GapsStable` | atlas/strategy/smc_module.py:79-114 | an appended bar keeps every earlier gap's type, edges and index, never lowers its filled fraction, and opens at most one |
| `SmcDetectors.FullyFilledExactly` | atlas/strategy/smc_module.py:84-107 | the fraction lies in [0, 1] and is 1 exactly when some later bar reached the far edge |
| `SmcDetectors.FilledMeans` | atlas/strategy/smc_module.py:85-107 | a gap is filled as deep as the deepest later bar reached, cut to [0, 1], and not at all before there is one |
| `SmcDetectors.GapMeans` | atlas/strategy/smc_module.py:81-101 | a gap opens exactly where two bars with one between them share no price, and is the widest interval neither touched |
| `SmcDetectors.GapsExact` | atlas/strategy/smc_module.py:79-114 | the list holds every gap once, in bar order, and nothing else |
| `SmcDetectors.SweepsStable` | atlas/strategy/smc_module.py:132-153 | an appended bar only extends the sweep list |
| `SmcDetectors.SweepMeans` | atlas/strategy/smc_module.py:133-146 | a sweep goes beyond every bar of the window and closes back inside one of them, with its price and the window's extreme as level; bullish wins where both apply |
| `SmcDetectors.SweepsExact` | atlas/strategy/smc_module.py:132-153 | the list holds every sweep once, in bar order, and nothing else |
| `SmcDetectors.AllSweepsExact` | atlas/strategy/smc_module.py:132-153 | the detector's list is every sweep of the series but one at its last bar |
| `SmcDetectors.CrtsStable` | atlas/strategy/smc_module.py:169-188 | an appended bar only extends the breakout list |
| `SmcDetectors.CrtMeans` | atlas/strategy/smc_module.py:171-181 | a breakout is a bar within its mother bar's prices followed by a close outside them; bullish iff above |
| `SmcDetectors.CrtsExact` | atlas/strategy/smc_module.py:169-188 | the list holds every breakout once, in bar order, and nothing else |
| `SmcDetectors.AllCrtsExact` | atlas/strategy/smc_module.py:169-188 | the detector's list is every breakout confirmed by a later bar |
| `SmcDetectors.LastTen` | atlas/strategy/smc_module.py:116-116 | the last ten entries, or all if there are fewer |
| `SmcDetectors.DetectFairValueGaps` | atlas/strategy/smc_module.py:70-116 | the loop yields the last ten gaps |
| `SmcDetectors.DetectLiquiditySweep` | atlas/strategy/smc_module.py:120-155 | the loop yields the last ten sweeps |
| `SmcDetectors.DetectCrt` | atlas/strategy/smc_module.py:159-190 | the loop yields the last ten breakouts |
| `Deduction.OffsetIsScaledStep` | atlas/strategy/indicator_lib.py:109-112 | wherever both averages exist, the offset is the period times the step of the moving average |
| `Deduction.UpExactlyWhenWouldRise` | atlas/application/smart_screener.py:299-306 | the comparison counts "up" exactly when the average would rise if the next close repeated the last |
| `Deduction.ScoreDeduction` | atlas/application/smart_screener.py:284-316 | the score adds the weights of the averages that would rise; "all rising" iff all three would, "all falling" iff none would |

## Left out

- Paper engine: an engine without a portfolio or a quote source, timestamps, log text, rounding of the trade log, the text of a fetch error kept as the rejection reason (one constant here), and exceptions raised inside `add_position`.
- Calls that overlap at an await: except for the hub, each call is one step.
- Ids: order and journal ids are counters, so collisions of truncated uuids are not modelled.
- `PaperTrading.PortfolioManager.ClosePosition`: positions are values, so that closing rewrites the fields of a shared `_Position` object is not captured; `entry_date`, `exit_date` and the store's other operations are left out.
- Quotes within a sweep: the limit pass and the breach check read one fixed partial map, the exit orders a second one; a quote that moves inside either pass is not modelled.
- `PaperTrading.PaperTradingEngine.GetSummary`: the start date and the performance figures taken from the position store are left out.
- `LedgerConservation.LedgerConservation`: stated for runs without manual sales, resets or moving quotes; `LedgerTilt` has the condition for all runs.
- `SignalMatcher.SignalsToTrades`: signals carry a date, so the replacement of a missing timestamp by today's date is left out.
- Backtest: report metrics other than total return, Sharpe ratio (an arbitrary function of the trade results) and drawdown; failures of the data store (only failures of signal generation are modelled), run ids and the stored results; the strategy is an arbitrary function of the bars and parameters.
- `WalkForward.NoLookAhead`: a bar on the split day belongs to both samples of its window, as in the code.
- `Drawdown.DrawdownAgreement`: starts from a positive capital; numpy's nan at a zero peak is not modelled.
- Monte Carlo: the outer loop over paths, random sampling, percentiles, ruin probability and reported payoff.
- Rate limiter: one key keeps one limit and window.
- `NotificationHub.SequentialSendsBounded`: sends follow one another; `HubOverlap` has the bound for sends that overlap. Event subscriptions and channel adapters are left out.
- `SignalNotifier.AtMostTwiceMax`: the wall clock never goes back; message texts are left out, and a send the hub answers with False counts as a success, as in the code.
- Quotes: the Redis store and its expiry, source health status, how a last close is fetched, and text encodings of numbers and dates.
- Calendar: the ends of Python's date range, market hours and phases.
- Health: latency, timestamps, error texts, the periodic loop and a component replaced while its check is in flight.
- Detectors: order blocks, the combined analysis and its bias, the recovery percentage and rounding.
- `SmcDetectors.GapMeans`, `SmcDetectors.CrtMeans`: for bars whose low is not above their high; the other detector laws assume nothing about bars.
- Indicators: EMA and WMA averages, the Fibonacci table, RSI, MACD, bands and the other screener scores.
- HTTP fetching, parsing, databases, pages, channel adapters, machine learning, factor statistics, event bus and threshold tables.
