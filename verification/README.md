# Verified model of the trading engines

A Dafny model of the two services of the repository: the TypeScript data engine, which turns a tick
stream into candles and survives broker outages, and the Python analytics engine, which backtests,
sizes, places, monitors and protects positions. Ports to the outside (message bus, exchange,
repositories, clock) appear as environments that answer and fail in every possible way; the code
around them is proved over every run.

| file | models |
|---|---|
| MarketData, CandleBuilder | prices, volumes, timeframes, candles; the builder that folds each tick into four timeframes, its store and publisher |
| CandleBatch, CandleRollup, FailingRollup | the batch definition the builder refines; the agreement of the four timeframes, and what is left of it when publishes fail |
| PriceText | printing and parsing of decimal prices |
| TickBuffering, HealthMonitoring | publish-or-buffer, the bounded buffer, the flush; the outage monitor and its cutoff timer |
| Positions, ClosingRules, Monitoring | position decisions, the stop ratchet and the take profits over runs; what a step closes and how the stop follows; what a monitoring pass does |
| Extractor | paginated download with an append-only file and a checkpoint, crashes included |
| Backtest, TradeRules, NoLookAhead, MaxDrawdown | the backtest loop and its accounts; its trades on the candles' own fields; what its report may depend on; the one-pass drawdown |
| BracketOrder | entry, stop retries, take profit and emergency close |
| CircuitBreaker | the day's snapshot, the drawdown check, the trip, and their life cycle |
| SignalValidation, ExecutionPipeline | validator, gates, sizing, bracket, saved position |
| TradingRuns, Reconciliation | whole trading runs; the exchange's position against the repository's |
| Correlation, TripleBarrier | the Pearson kernel and its matrix; the labelling of candles |

Conventions. Floats and Decimals are reals; where the code quantizes (units, cents, partial closes) the
rounding is explicit, half to even. Times are whole numbers, in backtests candle indices. An exception is an
`Err`, a `Failed` or a `Raised`. A loop or an object that updates fields is a method or a class, proved
against a function or a predicate on values; the state machines and the laws about runs are lemmas on those.
A failing port is a function from the number of the call to its answer, so a statement about all such
functions is about all failure patterns.

## What the code does not do

The model follows the code. Where that departs from its comments, or from what one would expect, there is a
lemma with the exact condition:

- `TripCircuitBreakerError` is documented as raised only when all steps failed; the code raises when any did.
  A failed trip is repeated by the next check exactly when its halt step failed
  (`BreakerLifecycle.RetriedIffHaltFailed`); the comment at trip_circuit_breaker.py:122 describes that case only.
- A loss above the whole starting balance raises instead of tripping (`CircuitBreaker.VerdictByLoss`).
- The execution engine catches the stop-placement error itself and never closes the position it leaves
  (`ExecutionPipeline.FailedOrderLeavesPositionIff`), although exchange_order_client.py:90 says callers must. Over a
  run such orders are what the exchange holds beyond the records
  (`Reconciliation.ExchangeExceedsRecordsByTheUnrecorded`).
- It records no entry ATR, so no position it opens ever breaks even or trails
  (`TradingRuns.NoPositionEverTrails`).
- An order confirmed as new raises after the position was saved (`ExecutionPipeline.NewOrderRaisesAfterSaving`).
- With no stop attempt allowed, an order with a stop returns normally without one
  (`BracketOrder.NoRetriesLeavesPositionUnprotected`); a lost confirmation leaves a stop too many
  (`BracketOrder.NormalReturnProtectsIff`).
- Only resuming from an in-progress checkpoint avoids storing candles twice: a second start without resume, and a
  resume after a download that gave up or was complete, read from the start into the same file
  (`Extractor.RestartStoresNothingTwiceIff`, with a run in `Extractor.ResumeAfterGivingUpDuplicates`). In any run a
  candle is stored once for every session that read it (`Extractor.StoredOncePerSession`).
- The last trade that `max_trades` allows is closed on its own entry candle at zero profit
  (`Backtest.LastAllowedTradeIsFlat`).
- After a stop move the first take profit can fire again (`TakeProfits.FirstTakeProfitFiresAgainIff`, with a run in
  `TakeProfits.FirstTakeProfitCanFireTwice`), and a partial close of everything is sent but not recorded
  (`TakeProfits.PartialCloseIsRecordedIffSomethingRemains`).
- Unless the provider supplies a positive ATR, the first trailing stop is one and a half entry ATRs away but the
  offset stored with it is one, so that the next pass tightens the stop at an unchanged price - exactly then
  (`StopRatchet.TrailTightensAtTheSamePriceIff`).
- A publish that fails below a coarser timeframe can leave that one's candle different from the finer ones published
  (`FailingRollup.UndisturbedEntryRollsUp` says when it cannot, with a run in `FailingRollup.LostMinuteBreaksRollup`).
- Candle highs and lows compare minor units only (`MarketData.MinorOrderIsPriceOrderIffSameDecimals`).
- A negative price prints as text that parsing refuses (`PriceText.RoundTripIffNonnegative`).
- The correlation coefficient depends on the order of the series when zero prices shorten their returns unequally, so
  a copied matrix entry can differ from a fresh one (`Correlation.PearsonIsSymmetricIff`,
  `Correlation.CopiesAreDirectIff`).
- Ticks can reach the bus out of order: two ingests whose answers cross are enough
  (`IngestProtocol.OrderIsKeptIff`, with a run in `IngestProtocol.AnswersOutOfOrderSwapTicks`).
- For a balance that falls below zero the one-pass drawdown exceeds a hundred percent and can miss the maximum over
  all pairs (`MaxDrawdown.WithinHundredPercentIff`, `MaxDrawdown.OnePassIsMaximumIff`, with a curve in
  `MaxDrawdown.NegativeBalanceHidesTheDeepestFall`).
- A symbol outside a nonempty correlation matrix is judged by the diagonal and, with a cap of at most one, never
  allowed (`RiskGates.UnknownSymbolIsTooCorrelatedIff`).

## Model

| member | source | states |
|---|---|---|
| `MarketData.WindowsNest` | apps/data-engine/src/domain/value-objects/timeframe.ts:29-48 | a window of a finer timeframe lies inside one window of every coarser one |
| `MarketData.AlignIsUnique` | apps/data-engine/src/domain/entities/candle.ts:110-113 | the window start is the only multiple of the interval whose window holds the timestamp |
| `MarketData.VolumeAddIsExact` | apps/data-engine/src/domain/value-objects/volume.ts:16-34 | addition over different scales loses nothing |
| `MarketData.ScalingDownTruncates` | apps/data-engine/src/domain/value-objects/volume.ts:16-34 | scaling down drops digits toward zero |
| `MarketData.SameAmountIffCrossProductsAgree` | apps/data-engine/src/domain/value-objects/volume.ts:23-34 | two volumes are equal exactly when they denote the same amount |
| `MarketData.MinorOrderIsPriceOrderIffSameDecimals` | apps/data-engine/src/domain/entities/candle.ts:78-80 | the comparison candles use ranks prices correctly exactly when scales agree |
| `CandleBuilder.InMemoryCandleStore.Get` | apps/data-engine/src/infrastructure/messaging/in-memory-candle-store.ts:14-16 | returns the state stored for symbol and timeframe, or none |
| `CandleBuilder.InMemoryCandleStore.Set` | apps/data-engine/src/infrastructure/messaging/in-memory-candle-store.ts:18-20 | overwrites exactly that key |
| `CandleBuilder.KeyIsInjective` | apps/data-engine/src/infrastructure/messaging/in-memory-candle-store.ts:7-9 | string keys of valid symbols never collide |
| `CandleBuilder.BuildCandlesUseCase.Execute` | apps/data-engine/src/application/use-cases/build-candles.usecase.ts:22-31 | folds a tick into all four timeframes and reports what it published; fails exactly when a publish does |
| `CandleBuilder.BuildCandlesUseCase.ProcessOne` | apps/data-engine/src/application/use-cases/build-candles.usecase.ts:33-67 | one timeframe: rollover, first candle or merge, the store updated before the publish |
| `CandleBuilder.RunProjects` | apps/data-engine/src/application/use-cases/build-candles.usecase.ts:22-67 | every symbol and timeframe evolves as if it were alone |
| `CandleBuilder.FailedPublishSkipsCoarserTimeframes` | apps/data-engine/src/application/use-cases/build-candles.usecase.ts:22-51 | a publish that throws leaves the coarser timeframes without the tick and its own candle unpublished |
| `CandleBuilder.RunWithProjects` | apps/data-engine/src/application/use-cases/build-candles.usecase.ts:22-67 | in every run, whichever publishes fail, each symbol and timeframe is where the ticks that reached it take it, and the log holds what it completed on ticks whose publish succeeded |
| `CandleBatch.NextTickSummary` | apps/data-engine/src/domain/entities/candle.ts:78-88 | merging a tick extends the OHLCV summary of a group by that tick |
| `CandleBatch.FirstTickSummary` | apps/data-engine/src/domain/entities/candle.ts:30-45 | a candle from one tick is the summary of that tick |
| `CandleBatch.SummaryIsUnique` | apps/data-engine/src/domain/entities/candle.ts:78-92 | group and window determine the candle |
| `CandleBatch.SummaryIsWellFormed` | apps/data-engine/src/domain/entities/candle.ts:78-88 | low <= open, close <= high in every candle |
| `CandleBatch.TrackIsBatch` | apps/data-engine/src/application/use-cases/build-candles.usecase.ts:33-67 | for ticks in any order: one candle per nonempty group, in window order, complete but the last, `previous` the last published |
| `CandleBatch.TimelyTicksAreChargedToTheirWindow` | apps/data-engine/src/domain/entities/candle.ts:110-113 | with nondecreasing timestamps the groups are the plain windows |
| `CandleBatch.StreamingIsBatch` | apps/data-engine/src/application/use-cases/build-candles.usecase.ts:22-67 | over any stream the builder's store and log are exactly the batch OHLCV of each symbol's ticks |
| `CandleBatch.FailingRunsAreBatchOfWhatReached` | apps/data-engine/src/application/use-cases/build-candles.usecase.ts:33-67 | with failing publishes current candle and `previous` are the batch of the ticks that reached the timeframe |
| `CandleBatch.VolumeIsConserved` | apps/data-engine/src/application/use-cases/build-candles.usecase.ts:42-64 | published plus current volume is the sum of all tick quantities, late ticks included |
| `CandleBatch.OnlyTheFirstTickPublishesNothingOnRollover` | apps/data-engine/src/application/use-cases/build-candles.usecase.ts:42-57 | every rollover after the first tick publishes the candle it replaces |
| `CandleRollup.MergeMeaning` | apps/data-engine/src/domain/entities/candle.ts:78-88 | a merge has the first open, last close, highest high, lowest low and summed volume of its parts |
| `CandleRollup.RollupStep` | apps/data-engine/src/application/use-cases/build-candles.usecase.ts:33-67 | one tick keeps two timeframes in agreement, in every combination of rollovers |
| `CandleRollup.TracksRollUp` | apps/data-engine/src/application/use-cases/build-candles.usecase.ts:22-67 | in any tick order a coarse candle is the merge of the finer ones in its window |
| `CandleRollup.RunRollsUp` | apps/data-engine/src/application/use-cases/build-candles.usecase.ts:22-67 | every published 5m, 15m and 1h candle is the merge of finer candles all published before it |
| `FailingRollup.UndisturbedEntryRollsUp` | apps/data-engine/src/application/use-cases/build-candles.usecase.ts:22-67 | in a run in which publishes fail, a published coarse candle is the merge of the finer ones published before it, if no failure has kept a tick from the coarse timeframe alone since the finer one reached its window |
| `FailingRollup.LostMinuteBreaksRollup` | apps/data-engine/src/application/use-cases/build-candles.usecase.ts:22-51 | otherwise it need not be: one lost 1m publish leaves a 5m candle that no published 1m candles make up |
| `PriceText.AcceptsExactlyDecimalText` | apps/data-engine/src/domain/value-objects/price.ts:37-40 | accepted are exactly digits, or digits, a dot and digits, between blanks, for up to eighteen decimals |
| `PriceText.TrimStripsBlanks` | apps/data-engine/src/domain/value-objects/price.ts:37-40 | trimming takes all blanks off both ends and nothing else |
| `PriceText.ParseTruncates` | apps/data-engine/src/domain/value-objects/price.ts:41-44 | parsing gives the floor of the text's value times 10^decimals |
| `PriceText.RoundTripIffNonnegative` | apps/data-engine/src/domain/value-objects/price.ts:30-52 | print then parse is the identity exactly for nonnegative prices |
| `PriceText.NegativeIsRefused` | apps/data-engine/src/domain/value-objects/price.ts:47-52 | the text of a negative price is refused |
| `PriceText.SignedNumeralReads` | apps/data-engine/src/domain/value-objects/price.ts:47-52 | both printed parts are digits, after a minus sign for a negative one |
| `TickBuffering.InMemoryTickBuffer.Push` | apps/data-engine/src/infrastructure/messaging/in-memory-tick-buffer.ts:35-40 | appends and evicts the oldest beyond capacity |
| `TickBuffering.InMemoryTickBuffer.Drain` | apps/data-engine/src/infrastructure/messaging/in-memory-tick-buffer.ts:50-53 | returns everything, oldest first, and empties the buffer |
| `TickBuffering.IngestTickUseCase.Execute` | apps/data-engine/src/application/use-cases/ingest-tick.usecase.ts:13-25 | a tick goes to the bus or, refused, to the buffer, never both |
| `TickBuffering.FlushBufferUseCase.Execute` | apps/data-engine/src/application/use-cases/flush-buffer.usecase.ts:19-42 | publishes the prefix up to the first refusal, leaves the exact rest in order, drained = published + reBuffered |
| `IngestProtocol.EveryTickIsAccountedFor` | apps/data-engine/src/application/use-cases/flush-buffer.usecase.ts:19-42 | over every interleaving at the awaits, arrivals equal bus plus buffer plus evicted plus in flight, and the buffer keeps its bound |
| `IngestProtocol.EachTickIsInOnePlace` | apps/data-engine/src/application/use-cases/ingest-tick.usecase.ts:13-25 | a tick that arrived once is in exactly one place |
| `IngestProtocol.NothingIsLostWithinCapacity` | apps/data-engine/src/application/ports/tick-buffer.port.ts:6-10 | nothing is evicted in a run that never has more unpublished ticks than the capacity |
| `IngestProtocol.UninterruptedFlush` | apps/data-engine/src/application/use-cases/flush-buffer.usecase.ts:19-42 | a flush whose steps nothing interleaves does what one call of the use case does |
| `IngestProtocol.BusKeepsOrder` | apps/data-engine/src/application/use-cases/ingest-tick.usecase.ts:13-25 | for distinct arrivals the bus keeps their order in every run in which no tick is published while an earlier one is buffered or in flight |
| `IngestProtocol.OrderIsKeptIff` | apps/data-engine/src/application/use-cases/flush-buffer.usecase.ts:31-35 | once everything has been published the order was kept exactly when no tick ever overtook a waiting one |
| `HealthMonitoring.HealthMonitorUseCase.Tick` | apps/data-engine/src/application/use-cases/health-monitor.usecase.ts:46-86 | one probe: what it flushes, arms and clears |
| `HealthMonitoring.HealthMonitorUseCase.OnTimer` | apps/data-engine/src/application/use-cases/health-monitor.usecase.ts:76-84 | a due timer closes the exchange once |
| `HealthMonitoring.OneFlushPerRecovery` | apps/data-engine/src/application/use-cases/health-monitor.usecase.ts:48-68 | flushes equal recoveries in every run |
| `HealthMonitoring.ClosesOnlyAfterTheCutoff` | apps/data-engine/src/application/use-cases/health-monitor.usecase.ts:71-85 | a close happens during an outage, at least cutoffMs after its first probe |
| `HealthMonitoring.DueTimerAlwaysCloses` | apps/data-engine/src/application/use-cases/health-monitor.usecase.ts:55-58 | a timer closes exactly when pending and due, so a cleared one never acts |
| `HealthMonitoring.ClosesAtMostOncePerOutage` | apps/data-engine/src/application/use-cases/health-monitor.usecase.ts:76-84 | between two closes the broker was healthy |
| `HealthMonitoring.CutoffClosesTheExchange` | apps/data-engine/src/application/use-cases/health-monitor.usecase.ts:71-85 | the outage's own timer closes the exchange exactly from cutoffMs after the first probe on, once per outage |
| `HealthMonitoring.EveryOutageHasItsOwnTimer` | apps/data-engine/src/application/use-cases/health-monitor.usecase.ts:46-86 | no two outages share a timer |
| `StopRatchet.RiskMultipleMeaning` | apps/analytics-engine/app/domain/entities/position_manager.py:155-165 | the R multiple reaches r exactly when the gain reaches r entry ATRs |
| `StopRatchet.BreakEvenExactly` | apps/analytics-engine/app/domain/entities/position_manager.py:75-124 | break even fires exactly at one entry ATR of gain with no close or take profit before it |
| `StopRatchet.TrailStartsAboveEntry` | apps/analytics-engine/app/domain/entities/position_manager.py:126-136 | within the ATR bound the first trailing stop is on the winning side of entry |
| `StopRatchet.StepRatchets` | apps/analytics-engine/app/application/use_cases/monitor_positions.py:99-260 | one monitored step keeps a safe position safe, tightens its stop, never grows it |
| `StopRatchet.StopAfterBreakEvenNeverLoses` | apps/analytics-engine/app/domain/entities/position_manager.py:115-124 | after break even closing at the stop loses nothing |
| `StopRatchet.TrailStartsExactly` | apps/analytics-engine/app/domain/entities/position_manager.py:126-136 | when the trail starts, without division, and how far from the price its first stop is |
| `StopRatchet.TrailNeverLoosensIffAtrWithinBound` | apps/analytics-engine/app/domain/entities/position_manager.py:126-182 | for both sides and any take profits: the first trailing stop is never on the losing side exactly when the ATR is at most four thirds of the entry ATR, or the trail cannot start |
| `StopRatchet.TrailTightensAtTheSamePriceIff` | apps/analytics-engine/app/application/use_cases/monitor_positions.py:228-260 | after the trail has started, the next pass at the same price moves the stop exactly when no positive ATR is supplied: the offset then stored is smaller than the one used |
| `TakeProfits.FirstTakeProfitFiresExactly` | apps/analytics-engine/app/domain/entities/position_manager.py:81-96 | the first take profit closes a part exactly for a position with status OPEN that is at its target, not at its stop, and closes less than everything there |
| `TakeProfits.StepReopensIff` | apps/analytics-engine/app/application/use_cases/monitor_positions.py:166-260 | a saved step leaves the status OPEN exactly when it moved the stop |
| `TakeProfits.ReopenedIff` | apps/analytics-engine/app/application/use_cases/monitor_positions.py:166-260 | over every run after a partial close the status is OPEN exactly when the last saved step moved the stop |
| `TakeProfits.FirstTakeProfitFiresAgainIff` | apps/analytics-engine/app/application/use_cases/monitor_positions.py:228-260 | over every run after a partial close the first take profit fires again exactly when the last saved step moved the stop and the price is at the target and not at the stop |
| `TakeProfits.PartialCloseIsRecordedIffSomethingRemains` | apps/analytics-engine/app/application/use_cases/monitor_positions.py:166-202 | a partial close is saved exactly when it leaves units, else it is sent and raises |
| `TakeProfits.HalfOfAnythingButDustRemains` | apps/analytics-engine/app/application/use_cases/monitor_positions.py:168-181 | only dust is swallowed by the rounding |
| `ClosingRules.StopClosesThePosition` | apps/analytics-engine/app/domain/entities/position_manager.py:74-79 | at or beyond its stop an open position is closed as a whole, status SL_HIT, with the price difference times the units as profit or loss; nothing else is ever saved there |
| `ClosingRules.TargetClosesThePosition` | apps/analytics-engine/app/domain/entities/position_manager.py:81-117 | the first target with its whole share, or the third when neither of the others counts, closes all of it, status TP_HIT |
| `ClosingRules.TargetClosesItsShare` | apps/analytics-engine/app/domain/entities/position_manager.py:81-110 | the first target closes its share while the status is OPEN, the second one its own otherwise, up to the rounding; the rest is saved, or the sent order fails to be recorded when there is none |
| `ClosingRules.StatusTellsWhy` | apps/analytics-engine/app/application/use_cases/monitor_positions.py:113-147 | SL_HIT is saved exactly at the stop, TP_HIT exactly at a target that closes all |
| `ClosingRules.GainMovesStopToEntry` | apps/analytics-engine/app/domain/entities/position_manager.py:119-128 | between stop and targets one entry ATR of gain puts the stop at entry |
| `ClosingRules.GainStartsTrail` | apps/analytics-engine/app/domain/entities/position_manager.py:130-140 | two entry ATRs of gain then start the trail one and a half ATRs behind the price |
| `ClosingRules.TrailFollowsThePrice` | apps/analytics-engine/app/domain/entities/position_manager.py:142-158 | a running trail moves the stop to its distance behind the price exactly when that is tighter |
| `ClosingRules.StopMovesSendNothing` | apps/analytics-engine/app/application/use_cases/monitor_positions.py:228-260 | where no close is due the exchange is not asked |
| `ClosingRules.HeldIff` | apps/analytics-engine/app/domain/entities/position_manager.py:74-160 | nothing is done exactly when no close, no first stop move and no tightening is due |
| `StopRatchet.WithoutEntryAtrTheStopNeverMoves` | apps/analytics-engine/app/domain/entities/position_manager.py:155-175 | without an entry ATR a position neither breaks even nor trails |
| `Monitoring.PositionRepository.Save` | apps/analytics-engine/app/infrastructure/execution/in_memory_position_repo.py:17-18 | overwrites the position in place, or appends a new id |
| `Monitoring.PositionRepository.ListOpen` | apps/analytics-engine/app/infrastructure/execution/in_memory_position_repo.py:23-24 | the open positions in insertion order |
| `Monitoring.MonitorPositionsUseCase.Run` | apps/analytics-engine/app/application/use_cases/monitor_positions.py:76-283 | a whole pass: what it saves, counts and raises; without an error no position is left open that was quoted at or beyond its stop |
| `Monitoring.MonitorPositionsUseCase.ProcessOne` | apps/analytics-engine/app/application/use_cases/monitor_positions.py:89-274 | one position: decision, order, rebuilt position, save, counter; closed as a whole at its stop |
| `Monitoring.EachIsProcessed` | apps/analytics-engine/app/application/use_cases/monitor_positions.py:89-274 | as long as nothing has failed, every position so far is stored as its own step leaves it |
| `Monitoring.PassHonoursStops` | apps/analytics-engine/app/application/use_cases/monitor_positions.py:76-283 | after a pass without an error every position quoted at or beyond its stop is closed as a whole at the quoted price |
| `Monitoring.RunHonoursStops` | apps/analytics-engine/app/application/use_cases/monitor_positions.py:76-283 | and so it is for the last pass of any number of them |
| `Monitoring.EveryPositionIsCountedOnce` | apps/analytics-engine/app/application/use_cases/monitor_positions.py:76-283 | on normal return the six counters add up to the open positions |
| `Monitoring.CountersTellWhatWasDone` | apps/analytics-engine/app/application/use_cases/monitor_positions.py:76-283 | each counter is the number of positions to which that was done, as the saved positions show |
| `Monitoring.PassRatchets` | apps/analytics-engine/app/application/use_cases/monitor_positions.py:89-260 | a pass keeps every stored position safe and ratcheted, failures included |
| `Monitoring.RunsRatchet` | apps/analytics-engine/app/application/use_cases/monitor_positions.py:76-283 | over any number of passes stops only tighten and units never grow, under the ATR bound |
| `Monitoring.NoAtrIsWithinBound` | apps/analytics-engine/app/application/use_cases/monitor_positions.py:92-97 | without an ATR provider, as composed, the bound always holds |
| `Monitoring.FreshPositionIsSafe` | apps/analytics-engine/app/domain/value_objects/live_position.py:70-94 | a new position with its stop on the losing side is safe |
| `Monitoring.PassOpensNothing` | apps/analytics-engine/app/application/use_cases/monitor_positions.py:113-260 | a pass never reopens a position |
| `Monitoring.RunsWithoutEntryAtrNeverMoveAStop` | apps/analytics-engine/app/application/use_cases/monitor_positions.py:76-283 | over whole runs such positions keep the stop they were opened with |
| `Extractor.Downloader.FetchWithRetry` | apps/analytics-engine/app/infrastructure/data/extractor.py:232-255 | one retry, then failure; a batch is the answer to the last request made |
| `Extractor.Downloader.Download` | apps/analytics-engine/app/infrastructure/data/extractor.py:166-338 | appends exactly the valid candles from the starting point to where it got, once each and in order, and says in the checkpoint whether that was the end; it stops short only when its last request, from where it got, brought nothing or failed twice; with an exchange that recovers and answers no valid candle before the end is left out |
| `Extractor.ReliableCoversAll` | apps/analytics-engine/app/infrastructure/data/extractor.py:231-306 | if failures never come twice in a row and an answer is empty only when there is nothing more, every valid candle from the start to the end is in the file |
| `Extractor.RowIsSkippedIff` | apps/analytics-engine/app/infrastructure/data/schema.py:37-79 | a row is skipped exactly for a missing field, a timestamp or price that is not positive, a negative volume, or a high below the low |
| `Extractor.Convert` | apps/analytics-engine/app/infrastructure/data/extractor.py:261-279 | keeps the valid rows and the last one's timestamp |
| `Extractor.BatchIsSelection` | apps/analytics-engine/app/infrastructure/data/extractor.py:233-291 | a batch contributes exactly the valid candles between its start and the next start |
| `Extractor.NoCandleIsMissing` | apps/analytics-engine/app/infrastructure/data/extractor.py:231-306 | over every run with crashes and restarts no valid candle before the checkpoint is missing |
| `Extractor.RunKeepsAccounts` | apps/analytics-engine/app/infrastructure/data/extractor.py:285-306 | the file is the committed candles plus the batches whose checkpoint was interrupted |
| `Extractor.DuplicatesAreInterruptedBatches` | apps/analytics-engine/app/infrastructure/data/extractor.py:285-306 | how often a candle is in the file: once, plus once per interrupted checkpoint of its batch |
| `Extractor.CrashFreeFileIsStrictlyIncreasing` | apps/analytics-engine/app/infrastructure/data/extractor.py:231-306 | without crashes the file is the valid candles in strictly increasing order |
| `Extractor.FileIsWhatSessionsRead` | apps/analytics-engine/app/infrastructure/data/extractor.py:166-338 | in every run the file is the valid candles of each session's range, one session after the other |
| `Extractor.StoredOncePerSession` | apps/analytics-engine/app/infrastructure/data/extractor.py:166-338 | in every run a valid candle is in the file once for every session whose range held it, and nothing else is |
| `Extractor.InterruptedBatchIsReadAgain` | apps/analytics-engine/app/infrastructure/data/extractor.py:285-306 | a batch appended before a crash and not yet covered by the checkpoint is appended again on resume |
| `Extractor.EmptyBatchIsPassedOver` | apps/analytics-engine/app/infrastructure/data/extractor.py:281-284 | a batch without a valid row stores nothing and writes no checkpoint |
| `Extractor.SessionIsADownload` | apps/analytics-engine/app/infrastructure/data/extractor.py:166-338 | an uninterrupted session of the step machine ends as one call of Download does |
| `Extractor.SessionStopsForAReason` | apps/analytics-engine/app/infrastructure/data/extractor.py:231-259 | an uninterrupted session that stops short of the end has given up or met an empty answer where it stopped |
| `Extractor.ExtensionStoresOnceIff` | apps/analytics-engine/app/infrastructure/data/extractor.py:113-124 | a file that reaches to one point and is extended from an earlier one holds a candle twice exactly when there is one in between |
| `Extractor.RestartStoresNothingTwiceIff` | apps/analytics-engine/app/infrastructure/data/extractor.py:168-193 | after any run without an interrupted checkpoint, a further session that reads as far stores no candle twice exactly when it resumes from an in-progress checkpoint or nothing was stored |
| `Backtest.CalcAtr` | apps/analytics-engine/app/domain/entities/backtest_engine.py:183-202 | the mean true range of the window |
| `Backtest.AtrWithinPriceRange` | apps/analytics-engine/app/domain/entities/backtest_engine.py:183-202 | it is nonnegative and never exceeds the price range of the window |
| `Backtest.NextEntry` | apps/analytics-engine/app/domain/entities/backtest_engine.py:112-118 | the first candle with an entry signal, or the end |
| `Backtest.FirstExit` | apps/analytics-engine/app/domain/entities/backtest_engine.py:86-99 | the first candle that stops or reverses a position, or the end |
| `Backtest.Run` | apps/analytics-engine/app/domain/entities/backtest_engine.py:49-170 | the trades are the well-kept list, failing exactly when there is none; equity point i is the initial balance plus the P&L closed before candle i |
| `Backtest.LedgerIffWellKept` | apps/analytics-engine/app/domain/entities/backtest_engine.py:76-168 | the described list of trades is unique: in order, each closed at the first candle that ends it, no entry signal missed while flat |
| `NoLookAhead.ReportsAgreeBefore` | apps/analytics-engine/app/domain/entities/backtest_engine.py:76-168 | trades closed before candle k and the equity curve up to it depend on the candles and signals before k only |
| `Backtest.PositionsNeverOverlap` | apps/analytics-engine/app/domain/entities/backtest_engine.py:86-145 | each position is closed once, before the next is entered |
| `Backtest.LastAllowedTradeIsFlat` | apps/analytics-engine/app/domain/entities/backtest_engine.py:142-155 | at most max_trades trades, and the last one allowed makes exactly nothing |
| `Backtest.GainsIffPriceMovesItsWay` | apps/analytics-engine/app/domain/entities/backtest_engine.py:220-236 | sign, symmetry and rounding of a trade's P&L |
| `Backtest.StopStartsOnLosingSide` | apps/analytics-engine/app/domain/entities/backtest_engine.py:120-129 | the stop is positive and at least half a percent on the losing side |
| `Backtest.NotionalFollowsRisk` | apps/analytics-engine/app/domain/entities/backtest_engine.py:122-125 | a position is worth risk_pct / 1% of the balance, at most twice it, up to rounding |
| `TradeRules.TradesOnFields` | apps/analytics-engine/app/domain/entities/backtest_engine.py:76-168 | every trade on the fields of candles and signals: entered on a signal of half confidence at a positive close, held while no low (or high) reaches the stop and no signal asks for the other side, ended by the stop exactly when the exit candle comes later and touches it, booked to the cent |
| `TradeRules.NoSignalIsMissed` | apps/analytics-engine/app/domain/entities/backtest_engine.py:112-118 | a candle with a price and a signal, outside all trades, comes only after the last trade allowed |
| `TradeRules.ExitsOnFields` | apps/analytics-engine/app/domain/entities/backtest_engine.py:86-99 | what ends a position at a candle, and the reason |
| `TradeRules.TrueRangeIsWidth` | apps/analytics-engine/app/domain/entities/backtest_engine.py:190-197 | the true range is the width of the prices since the previous close |
| `TradeRules.AtrSlides` | apps/analytics-engine/app/domain/entities/backtest_engine.py:183-202 | the mean of all ranges so far, then of the last fourteen: one comes in, the one fourteen candles back goes out |
| `TradeRules.StopPriceIsAtDistance` | apps/analytics-engine/app/domain/entities/backtest_engine.py:120-129 | one and a half ATRs from entry or half a percent of it, whichever is further |
| `MaxDrawdown.ComputeMaxDrawdown` | apps/analytics-engine/app/infrastructure/backtest/metrics_calculator.py:110-124 | for every curve the one pass finds the deepest fall from a peak so far; for nonnegative curves that is the maximum over all pairs, and at most 100 |
| `MaxDrawdown.OnePassIsMaximumIff` | apps/analytics-engine/app/infrastructure/backtest/metrics_calculator.py:110-124 | the figure is the maximum over all pairs exactly for curves that do not go below zero after a positive point, and for those on which one of the deepest falls below zero starts from a peak |
| `MaxDrawdown.WithinHundredPercentIff` | apps/analytics-engine/app/infrastructure/backtest/metrics_calculator.py:110-124 | the figure is at most 100 exactly when the curve never goes below zero after a positive point |
| `MaxDrawdown.MaxDrawdownIsUnique` | apps/analytics-engine/app/infrastructure/backtest/metrics_calculator.py:110-124 | the definition determines the value |
| `MaxDrawdown.NoDrawdownIffNeverFalls` | apps/analytics-engine/app/infrastructure/backtest/metrics_calculator.py:110-124 | for every curve, zero exactly when it never falls after a positive point |
| `BracketOrder.CcxtOrderClient.PlaceStop` | apps/analytics-engine/app/infrastructure/exchange/ccxt_order_client.py:160-196 | the retry loop stops at the first confirmation, or fails after exactly max_sl_retries failures |
| `BracketOrder.CcxtOrderClient.PlaceCompositeOrder` | apps/analytics-engine/app/infrastructure/exchange/ccxt_order_client.py:141-217 | the calls made and the result, as functions of the exchange's answers |
| `BracketOrder.CompositeIsComposed` | apps/analytics-engine/app/infrastructure/exchange/ccxt_order_client.py:141-217 | those calls are an entry, failures and then at most one confirmed stop, and one try at the take profit, by how the placement ends |
| `BracketOrder.CcxtOrderClient.PlaceEmergencyMarket` | apps/analytics-engine/app/infrastructure/exchange/ccxt_order_client.py:219-233 | one market order, no retry |
| `BracketOrder.HoldingsAdd` | apps/analytics-engine/app/infrastructure/exchange/ccxt_order_client.py:141-233 | position and live stops add up over consecutive calls |
| `BracketOrder.PlaceOrderUseCase.Execute` | apps/analytics-engine/app/application/use_cases/place_order.py:45-86 | calls and result as functions of the answers; a nonpositive amount raises before any call |
| `BracketOrder.PlacingOutcome` | apps/analytics-engine/app/application/use_cases/place_order.py:61-86 | for every answer pattern: entry once and first, stops of full size within the limit, and what position and stops are left in each outcome |
| `BracketOrder.SucceedsIff` | apps/analytics-engine/app/application/use_cases/place_order.py:61-86 | the use case succeeds exactly when the entry is confirmed and, if a stop is wanted, an attempt at it or the emergency order is |
| `BracketOrder.NormalReturnProtectsIff` | apps/analytics-engine/app/application/use_cases/place_order.py:61-86 | a normal return leaves one stop for the whole position or nothing at all, exactly when an attempt is allowed and the confirmation of none was lost |
| `BracketOrder.NoRetriesLeavesPositionUnprotected` | apps/analytics-engine/app/infrastructure/exchange/ccxt_order_client.py:164-196 | with no attempt allowed the use case succeeds exactly when the entry is confirmed, and the whole position then stands without a stop |
| `BracketOrder.ErrorMeansNoEntryOrUnprotectedEntry` | apps/analytics-engine/app/application/use_cases/place_order.py:63-84 | for answers that lose no confirmation, an error leaves no stop, and the position exactly when the entry was confirmed |
| `CircuitBreaker.DrawdownSnapshot.DrawdownPct` | apps/analytics-engine/app/domain/value_objects/drawdown_snapshot.py:43-50 | lies in [0, 1] |
| `CircuitBreaker.VerdictByLoss` | apps/analytics-engine/app/domain/entities/circuit_breaker.py:79-92 | each verdict by the day's loss, both directions; a loss beyond the balance is refused |
| `CircuitBreaker.SeverityIsMonotone` | apps/analytics-engine/app/domain/entities/circuit_breaker.py:79-92 | further losses never make the verdict milder |
| `CircuitBreaker.InMemoryTradeJournal.Add` | apps/analytics-engine/app/infrastructure/journal/in_memory_trade_journal.py:23-24 | appends one record |
| `CircuitBreaker.InMemoryTradeJournal.RealizedPnlSince` | apps/analytics-engine/app/infrastructure/journal/in_memory_trade_journal.py:26-31 | the loop computes the sum of the records closed at or after a time |
| `CircuitBreaker.PnlSinceSums` | apps/analytics-engine/app/infrastructure/journal/in_memory_trade_journal.py:26-31 | of earlier records followed by later ones it is the plain sum of the later ones |
| `CircuitBreaker.LossesOnlySubtract` | apps/analytics-engine/app/infrastructure/journal/in_memory_trade_journal.py:26-31 | appended losses never raise the sum |
| `CircuitBreaker.NoStepComesEarly` | apps/analytics-engine/app/domain/value_objects/trip_action.py:32-52 | what the order check admits: cancelling first, no halt before its place |
| `CircuitBreaker.InMemorySnapshotRepo.Save` | apps/analytics-engine/app/infrastructure/journal/in_memory_snapshot_repo.py:18-19 | overwrites the slot |
| `CircuitBreaker.InMemorySnapshotRepo.Clear` | apps/analytics-engine/app/infrastructure/journal/in_memory_snapshot_repo.py:24-25 | empties the slot |
| `CircuitBreaker.TripCircuitBreakerUseCase.Execute` | apps/analytics-engine/app/application/use_cases/trip_circuit_breaker.py:91-147 | every step attempted once in order whatever fails; success exactly when all worked; mode and snapshot by the steps that worked |
| `CircuitBreaker.CanonicalTripEffects` | apps/analytics-engine/app/application/use_cases/trip_circuit_breaker.py:91-147 | the canonical trip passive exactly if its third call worked, snapshot gone exactly if its fourth did |
| `CircuitBreaker.OpenDayUseCase.Execute` | apps/analytics-engine/app/application/use_cases/open_day.py:44-67 | opens over an existing day only when forced; any failure leaves the stored day alone |
| `CircuitBreaker.DayOpensIff` | apps/analytics-engine/app/application/use_cases/open_day.py:30-67 | opens exactly with a positive balance that can be saved, where none is stored or it is forced; which error otherwise |
| `CircuitBreaker.CheckDrawdownUseCase.Execute` | apps/analytics-engine/app/application/use_cases/check_drawdown.py:89-138 | the verdict over snapshot and journal, and a trip run exactly on TRIP |
| `CircuitBreaker.VerdictIsOnTheReport` | apps/analytics-engine/app/application/use_cases/check_drawdown.py:102-138 | the reported balance is the opening one plus the reported P&L, and the verdict is the breaker's on it |
| `BreakerLifecycle.TrippedIsCanonicalTrip` | apps/analytics-engine/app/application/use_cases/trip_circuit_breaker.py:91-147 | the step of the life cycle is what the canonical trip does |
| `BreakerLifecycle.OneTripPerOpenedDay` | apps/analytics-engine/app/application/use_cases/check_drawdown.py:89-138 | between two completed check-driven trips a day was opened |
| `BreakerLifecycle.NoTripBeforeTheFirstOpen` | apps/analytics-engine/app/application/use_cases/check_drawdown.py:93-100 | before the first completed trip a day was opened |
| `BreakerLifecycle.NoMoreTripsThanDays` | apps/analytics-engine/app/application/use_cases/check_drawdown.py:89-138 | never more completed check-driven trips than days opened, and fewer while a day is stored |
| `BreakerLifecycle.NoVerdictUntilTheNextOpen` | apps/analytics-engine/app/application/use_cases/check_drawdown.py:93-100 | once the snapshot is dropped no check yields a verdict until a day is opened, whatever attempts to open one fail |
| `BreakerLifecycle.PassiveIffATripSetIt` | apps/analytics-engine/app/application/use_cases/trip_circuit_breaker.py:110-113 | after any run the mode is passive exactly when some trip's third step has worked, whatever came of its other steps and whatever followed |
| `BreakerLifecycle.RetriedIffHaltFailed` | apps/analytics-engine/app/application/use_cases/trip_circuit_breaker.py:114-129 | a tripped day trips again on the next check exactly when the halt step failed |
| `BreakerLifecycle.TripsIffTheDayLost` | apps/analytics-engine/app/application/use_cases/check_drawdown.py:89-138 | in every run with a clock that does not go back, a check trips exactly when ports answer, the state is not halted, the day is still stored, and what was booked since it opened sums to a loss between the threshold and all of it |
| `BreakerLifecycle.StoredDayIsTheLastOpened` | apps/analytics-engine/app/application/use_cases/check_drawdown.py:93-100 | a stored day is the one last opened |
| `SignalValidation.SignalValidator.Validate` | apps/analytics-engine/app/domain/entities/signal_validator.py:77-110 | the rejection, and what is remembered of an acceptance |
| `SignalValidation.AcceptedIffAcceptable` | apps/analytics-engine/app/domain/entities/signal_validator.py:77-110 | after any run acceptance depends exactly on age, confidence, a new id, and a cooldown since every acceptance of the symbol |
| `SignalValidation.AcceptancesAreDistinctAndSpaced` | apps/analytics-engine/app/domain/entities/signal_validator.py:97-109 | accepted ids are distinct and acceptances of a symbol a cooldown apart |
| `RiskGates.RiskApprovedIff` | apps/analytics-engine/app/domain/entities/risk_engine.py:101-180 | approval exactly when drawdown, losses, count and both exposures are below their limits, for every balance |
| `RiskGates.OnePositionMore` | apps/analytics-engine/app/domain/entities/risk_engine.py:57-80 | an open position adds its value at entry to its symbol and the total, to no other symbol, and counts as one; a closed one adds nothing |
| `RiskGates.PortfolioAllowsIff` | apps/analytics-engine/app/domain/entities/portfolio_manager.py:57-175 | in amounts: allowed exactly when the balance is near enough its peak, stakes are below the caps, there is room, and no other symbol is too close |
| `RiskGates.UnknownSymbolIsTooCorrelatedIff` | apps/analytics-engine/app/domain/entities/portfolio_manager.py:156-169 | a symbol missing from a unit-diagonal matrix meets the correlation cap exactly when the matrix is nonempty and the cap at most one, and is then rejected |
| `ExecutionPipeline.BracketsIff` | apps/analytics-engine/app/application/use_cases/execution_engine.py:219-232 | stop and target bracket the entry strictly exactly when it is above 0.01 |
| `ExecutionPipeline.PlannedOrderIsBracketedAndBounded` | apps/analytics-engine/app/application/use_cases/execution_engine.py:192-241 | the order that passes every gate brackets the entry, and its loss at the stop and its value stay within the budget, each exactly under the stated condition |
| `ExecutionPipeline.LossAtStopIff` | apps/analytics-engine/app/application/use_cases/execution_engine.py:202-230 | the loss at the stop stays within the risk budget exactly for purchases and for sales with a distance of at least 0.01 |
| `ExecutionPipeline.NotionalBound` | apps/analytics-engine/app/application/use_cases/execution_engine.py:202-204 | position value at most the budget over half a percent, reached exactly when the ATR does not set the distance |
| `ExecutionPipeline.TradeReachesCapIff` | apps/analytics-engine/app/application/use_cases/execution_engine.py:151-204 | when a single trade is as large as a cap that was checked before it |
| `ExecutionPipeline.ExecutionEngine.Execute` | apps/analytics-engine/app/application/use_cases/execution_engine.py:121-285 | a rejection before the order changes nothing; otherwise the planned order goes out, and result and repository follow from the exchange's answers, the repository by the function that whole runs step with |
| `ExecutionPipeline.ExecutionEngine.PlanOrder` | apps/analytics-engine/app/application/use_cases/execution_engine.py:130-241 | gates in order, then size and bracket |
| `ExecutionPipeline.PlansIff` | apps/analytics-engine/app/application/use_cases/execution_engine.py:130-212 | an order goes out exactly when not halted, with market data, both gates open in amounts, a positive price and something to risk |
| `ExecutionPipeline.PlannedOrderLies` | apps/analytics-engine/app/application/use_cases/execution_engine.py:202-241 | it risks exactly its share over the stop distance, and stop and target lie at their distances, with the floors where those bind |
| `ExecutionPipeline.OpenedIsSafeIff` | apps/analytics-engine/app/application/use_cases/execution_engine.py:253-262 | a saved position starts safe for the ratchet exactly when the fill is not beyond the stop |
| `ExecutionPipeline.FailedOrderLeavesPositionIff` | apps/analytics-engine/app/application/use_cases/execution_engine.py:242-251 | an order-failed rejection leaves the position, untracked and without a known stop, exactly when the exchange took the entry |
| `ExecutionPipeline.NewOrderRaisesAfterSaving` | apps/analytics-engine/app/application/use_cases/execution_engine.py:253-276 | which confirmations raise although the position is saved, and which positions are saved at all |
| `TradingRuns.OpenPositionsStayWithinLimit` | apps/analytics-engine/app/domain/entities/risk_engine.py:136-145 | executions and monitoring passes in any order never exceed the limits on open positions |
| `TradingRuns.NoPositionEverTrails` | apps/analytics-engine/app/application/use_cases/execution_engine.py:253-262 | in every run of engine and monitor no position breaks even or trails |
| `TradingRuns.MonitoringNeverMovesAStop` | apps/analytics-engine/app/application/use_cases/monitor_positions.py:228-260 | so a pass after any run leaves every stop where the engine put it |
| `TradingRuns.FilledOrderBlocksItsSymbolAfterAnyRun` | apps/analytics-engine/app/domain/entities/risk_engine.py:150-165 | after any run: once an order has filled as sent at a price, every further signal for its symbol is refused while the balance has not grown, if the risk share of the price is at least the cap times the stop distance |
| `Reconciliation.ExchangeExceedsRecordsByTheUnrecorded` | apps/analytics-engine/app/application/use_cases/execution_engine.py:241-263 | after any run of executions the exchange's net position is the repository's open units plus exactly the orders taken and not saved and the amounts confirmed short |
| `Reconciliation.AgreeIffAllRecorded` | apps/analytics-engine/app/application/use_cases/execution_engine.py:241-263 | with signals on one side the two agree exactly when every order taken was saved with all its units |
| `Reconciliation.NetOfComposite` | apps/analytics-engine/app/infrastructure/exchange/ccxt_order_client.py:141-217 | a bracket order changes the net position by its amount unless the entry is refused, whatever becomes of stops and take profit |
| `Correlation.ComputeReturns` | apps/analytics-engine/app/domain/entities/correlation_engine.py:71-83 | the loop computes the returns, skipping zero prices |
| `Correlation.VariationSign` | apps/analytics-engine/app/domain/entities/correlation_engine.py:54-56 | each denominator is nonnegative and zero exactly for constant returns |
| `Correlation.CauchySchwarz` | apps/analytics-engine/app/domain/entities/correlation_engine.py:47-61 | numerator squared at most the product of the denominators, with equality exactly for affine series |
| `Correlation.ReturnsCount` | apps/analytics-engine/app/domain/entities/correlation_engine.py:76-83 | each zero price before the last one removes one return |
| `Correlation.PearsonIsSymmetric` | apps/analytics-engine/app/domain/entities/correlation_engine.py:24-69 | symmetric for series with equally many zero prices before the last one, errors included |
| `Correlation.PearsonIsSymmetricIff` | apps/analytics-engine/app/domain/entities/correlation_engine.py:24-83 | for given numbers of zero prices the coefficient is symmetric for all series exactly when they are equal, or leave fewer than two returns on both sides or none on one |
| `Correlation.CoefficientIsBounded` | apps/analytics-engine/app/domain/entities/correlation_engine.py:65-69 | in [-1, 1] whatever the square root returns |
| `Correlation.CoefficientIsTheRatio` | apps/analytics-engine/app/domain/entities/correlation_engine.py:47-69 | covariation over the root of the two variations, to the fourth decimal, for series of one length whose returns vary |
| `Correlation.QuantizeIsNearest` | apps/analytics-engine/app/domain/entities/correlation_engine.py:66-69 | the nearest fourth decimal, a half away from zero |
| `Correlation.ClampOnlyAbsorbsRounding` | apps/analytics-engine/app/domain/entities/correlation_engine.py:61-69 | with an exact root nothing is clamped |
| `Correlation.SelfCorrelationIsOneIffReturnsVary` | apps/analytics-engine/app/domain/entities/correlation_engine.py:97-101 | the hard-wired diagonal agrees with the coefficient exactly when the returns vary; too short a series is refused |
| `Correlation.ReturnsIgnoreTheUnit` | apps/analytics-engine/app/domain/entities/correlation_engine.py:71-83 | scaling all prices changes no return |
| `Correlation.CorrelationMatrix` | apps/analytics-engine/app/domain/entities/correlation_engine.py:85-110 | the matrix filled row by row, mirrored entries copied |
| `Correlation.MatrixRow` | apps/analytics-engine/app/domain/entities/correlation_engine.py:97-108 | one row: unit, copied or fresh entries |
| `Correlation.MatrixIsSymmetric` | apps/analytics-engine/app/domain/entities/correlation_engine.py:85-110 | symmetric with unit diagonal |
| `Correlation.CachedEntriesAreDirect` | apps/analytics-engine/app/domain/entities/correlation_engine.py:102-108 | every entry, copied or not, equals a fresh computation for pairs with equally many zero prices before the last one |
| `Correlation.CopiesAreDirectIff` | apps/analytics-engine/app/domain/entities/correlation_engine.py:71-108 | for given numbers of zero prices every copied entry equals a fresh computation, whatever the prices, exactly when the numbers are equal or leave too few returns |
| `TripleBarrier.LabelRow` | apps/analytics-engine/app/infrastructure/training/data_preprocessor.py:281-296 | the barrier touched first within the holding period, the top one on ties |
| `TripleBarrier.CreateTargets` | apps/analytics-engine/app/infrastructure/training/data_preprocessor.py:272-299 | every row one-hot and right, the last max_holding rows HOLD |
| `TripleBarrier.LabelIsUnique` | apps/analytics-engine/app/infrastructure/training/data_preprocessor.py:256-263 | the definition determines the label |
| `TripleBarrier.RowOnPrices` | apps/analytics-engine/app/infrastructure/training/data_preprocessor.py:256-299 | each row on the prices: one column set, and which, by the first bar that leaves the barriers |
| `TripleBarrier.HoldIsMonotone` | apps/analytics-engine/app/infrastructure/training/data_preprocessor.py:281-296 | HOLD at one multiplier stays HOLD at any larger one |
| `TripleBarrier.FirstTouchExists` | apps/analytics-engine/app/infrastructure/training/data_preprocessor.py:285-293 | if a barrier is touched in the period, some bar touches first |
| `TripleBarrier.MirrorSwapsLabels` | apps/analytics-engine/app/infrastructure/training/data_preprocessor.py:285-293 | mirroring the prices swaps the labels, ties staying BUY |

## Left out

- Ports and frameworks: Redis, CCXT, HTTP, Parquet, FastAPI and NestJS, Keras, PyTorch, loggers, notifiers, telemetry.
- The Parquet rewrite that an append performs is taken as atomic, as is the replacement of the checkpoint.
- RecoverCandleUseCase and its republication of the current candle; FilePositionRepository, which drops trailing fields.
- Concurrent ticks in the candle builder: the bus awaits each handler before it hands over the next tick.
- Fractional tick timestamps; timestamps are whole milliseconds.
- Reading the clock several times within one validation or check: the model reads it once.
- Order fills: an accepted market order is taken to be executed in full for the net position; the amount filled that the exchange reports is kept only in the result and the saved position.
- UndisturbedEntryRollsUp: gives a sufficient condition only, because later ticks at equal prices and in equal quantities can make up for a lost publish.
- The monitor closes at the exchange by symbol, not by amount: the reconciliation of a run covers the engine's executions only.
- A stop that is triggered, and anything else that happens at the exchange after a bracket order is placed.
- cancel_all_orders and close_all_positions inside a trip are single calls that work or fail; their loops over symbols are not modelled.
- The percentage and the duration of a backtest trade, the free-text reasons, report ids, and the details list of a monitoring pass.
- Sharpe ratio and volatility, build_features, normalize, create_windows, walk-forward windows: library numerics.
- The floating-point square root of the correlation coefficient: it is an arbitrary function here and an exact one only where a lemma says so.
- The deprecated execute_trading_signal, the ensemble prediction pipeline and the dashboards: easy or not algorithmic.
