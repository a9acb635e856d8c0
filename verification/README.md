# Verified model of the research and backfill scripts

A Dafny model of the stateful and decision-making scripts of the trading engine, with proofs of what
those scripts promise: the resumable archive backfills, the intraday signal pipeline and its trade
simulators, the breakout entry-variant study, the fill-model calibration, the news dedupe and the
52-week-high prefilter. Check everything with `dafny verify dfyconfig.toml`; nothing here is executed.

Prices are exact reals (`Option` where the program tests for a finite number), dates are proleptic
ordinals, minutes count from the 09:15 open. Loops are methods proved against a specification function;
the checkpoint table, the backfill reports, the calibration accumulator, the promotion block and the
news table are classes. What each main operation computes is stated a second time about the bars, rows,
dates or requests themselves, without its own functions, and the two are proved equivalent. Every proof by
induction is written out; no lemma leans on automatic induction.

| files | what they model |
|---|---|
| `Checkpoints`, `Bhavcopy`, `BhavcopyRuns`, `BhavcopyReport` | the bars leg: checkpoint table, one date, the whole leg with its seven-holiday stop; its closed form, idempotence, interrupted runs, the report |
| `Windows`, `CorpActions`, `Filings` | window lists, the resumable walk over them, the corporate-actions leg, the filings walk with its change of route on 2026-05-03 |
| `Tape`, `FiveMinute`, `FiveMinuteTape`, `CandleSignals`, `SignalMeaning`, `CandleExits`, `CandleTrades`, `CandleFills` | one-minute tapes, running VWAP and five-minute buckets, the five rules and their first trigger, both exits, trades from tape to fill |
| `HeldBars`, `FadeExits`, `FadeTrades`, `FadeFills`, `TdcExits`, `TdcFills` | the bars a position is held over, the short and the VWAP-loss exit, and fade levels read through the decision bar |
| `BreakoutFills`, `BreakoutCohorts`, `BreakoutTrades`, `BreakoutDecision`, `BreakoutReport`, `BreakoutOutcome`, `PurgedFolds` | admission, resting-limit fills, matched cohorts, the decision rule and its tightening, the stamping of the reporting rule, purged folds |
| `SymbolSpread`, `StrideSampling`, `WeightedMedian`, `CalibrationTotals`, `Calibration`, `CalibrationDays`, `CalibrationRuns` | symbol selection, strided sampling, the frequency-table median, and the retry loop with its scratch accumulators |
| `NewsDedupe` | the duplicate delete and its guarded transaction |
| `FreshCross`, `CrossSignals`, `CrossReport` | the rolling-max prefilter against the windowed scan |
| `Common`, `Arithmetic`, `Sorting` | shared vocabulary |

## Claims that hold only in part

The model follows the code. The first five are claims of its documentation, the last two what a reader would
expect of it; for each a lemma says exactly when the claim holds.

- `scripts/backtest_hi52.py:542-547` calls the handed window an exact equivalence to the full prefix. The
  previous session's window is one row short, so a fresh cross can be hidden (`CrossSignals.WindowHidesACross`).
  Where the session clears the band, the two differ exactly when the previous close is below the band of the one
  dropped row's high but not below that of the highest high still held (`CrossSignals.WindowIsPrefixIff`).
- `scripts/backtest_fade.py:19-21` says the high-trigger cells can only make a fade look worse. With any
  stop there is a tape on which the later buy-back is dearer (`FadeExits.HighTriggerNeverBetterIff`).
- `scripts/calibrate_fill_model.py:541-542` says the stride keeps the whole run under `--max-samples`. With
  per-day budget b (at least one, `scripts/calibrate_fill_model.py:668`) a day of k symbols tops out at exactly
  b + k - 1 samples (`StrideSampling.DayCapIff`), so a run stays under for every split of its ticks exactly when
  those maxima over the days read add up to no more (`CalibrationRuns.MaxSamplesIff`). One symbol a day is neither
  enough nor needed: two one-tick days under `--max-samples 1` give two samples
  (`CalibrationRuns.OneSymbolDecidesNothing`).
- `scripts/backtest_brk20.py:1021-1024` says purging at the horizon covers the overlap exactly. It does as long as
  no trade reaches further than the horizon on the market calendar (`PurgedFolds.PurgedFoldsNeverLeak`), and is
  tight: one trade of a symbol that skips sessions leaks, the others held exactly the horizon
  (`PurgedFolds.PurgeIsTight`).
- `scripts/backtest_brk20.py:956-970` speaks of a viable geometry and of a positive median net as one thing. The
  verdict reads the unrounded median gross, the gate a median net rounded to four decimals; they part exactly on
  medians in (0, 0.00005] (`BreakoutDecision.GatesPartIff`).
- `scripts/backtest_candles.py:942-982`: the [-1, R] payoff range of the fixed exit holds on given minutes
  exactly when some bar follows the entry bar up to squareoff (`CandleExits.E1BoundIff`).
- `scripts/backfill_bhavcopy.py:222-249`: a leg killed between dates and started again ends like an
  uninterrupted one exactly when it was not killed inside the streak that leg would stop at
  (`BhavcopyRuns.ResumeAgrees`).

## Model

| member | source | states |
|---|---|---|
| Checkpoints.Table.CpDone | scripts/backfill_bhavcopy.py:152-156 | a unit is done when its row exists and its date is not NULL or empty |
| Checkpoints.Table.CpSet | scripts/backfill_bhavcopy.py:159-165 | upserts one unit's row and touches no other |
| Checkpoints.Table.CpClear | scripts/backfill_bhavcopy.py:168-171 | deletes exactly the listed units' rows |
| Bhavcopy.HolidayMeansAbsent | scripts/backfill_bhavcopy.py:129-138 | a date is a holiday exactly when neither format exists, and a usable file in either format is found when the other is absent |
| Bhavcopy.OutcomeIff | scripts/backfill_bhavcopy.py:129-219 | a date is ingested exactly when the file that counts (legacy first before 2024-07-08, UDiFF from then on, the other only where it is absent) held rows and was stored, a holiday when there is none, and failed otherwise |
| Bhavcopy.Backfill.IngestDate | scripts/backfill_bhavcopy.py:180-219 | one date's outcome, its checkpoint row and its counters |
| Bhavcopy.Backfill.RunBhavcopyLeg | scripts/backfill_bhavcopy.py:222-249 | the date loop with its rolling streak ends in the table and report of the specification run |
| BhavcopyRuns.RunIsFinal | scripts/backfill_bhavcopy.py:222-249 | key by key what any run leaves, and that it stops exactly at the first date ending seven fresh holidays in a row |
| BhavcopyRuns.DoneIsKept | scripts/backfill_bhavcopy.py:230-244 | no unit done before the run is lost, even when the leg stops, and no other feed is touched |
| BhavcopyRuns.NoStreakIsLeft | scripts/backfill_bhavcopy.py:237-247 | a run never leaves seven consecutive dates it newly marked as holidays |
| BhavcopyRuns.RunIsIdempotent | scripts/backfill_bhavcopy.py:222-249 | a second run over the range changes nothing and stops at the same date |
| BhavcopyRuns.FreshAfter | scripts/backfill_bhavcopy.py:237-247 | after a run the only holidays still to do in its range are those it took back |
| BhavcopyRuns.ResumeAgrees | scripts/backfill_bhavcopy.py:222-249 | a killed and resumed leg ends like an uninterrupted one exactly when it was not killed inside the stopping streak |
| BhavcopyReport.RunReport | scripts/backfill_bhavcopy.py:180-249 | attempted = ingested + holiday + failed; attempted + skipped = dates visited; ingested and holiday count the dates not done before that end marked through themselves and as holidays; the failure list is exactly, in order and without repetition, the visited dates left undone |
| Windows.BuildWindows | scripts/backfill_bhavcopy.py:141-149 | the while loop builds the specified window list |
| Windows.WindowsTile | scripts/backfill_bhavcopy.py:141-149 | the windows follow one another from the first to the last date without gap or overlap |
| Windows.TilingCovers | scripts/backfill_bhavcopy.py:141-149 | every date of the range lies in exactly one window |
| Windows.WindowAt | scripts/backfill_bhavcopy.py:141-149 | the i-th window starts i spans in, and only the last may be shorter |
| Windows.WindowCount | scripts/backfill_bhavcopy.py:141-149 | there are ceil(days / span) windows |
| Windows.WalkSettles | scripts/backfill_bhavcopy.py:257-283 | a walk counts every window once, as skipped exactly those done before, completes exactly the open windows that succeed, lists as failed exactly those still open and keeps all other rows |
| Windows.WalkTwice | scripts/backfill_bhavcopy.py:257-283 | a second walk skips what the first completed and only retries its failures |
| CorpActions.CorpActionsLeg.Run | scripts/backfill_bhavcopy.py:257-283 | the corporate-actions loop is the specified walk; zero rows count as failure |
| CorpActions.LegConserves | scripts/backfill_bhavcopy.py:257-283 | windows + skipped + failed is the window count, and a second leg completes nothing new |
| CorpActions.LegRow | scripts/backfill_bhavcopy.py:257-283 | a window's row is new exactly when it was not done and its fetch held rows and was stored |
| Filings.FilingsSeed.FetchWindow | scripts/backfill_filings.py:178-216 | which requests a window makes, in order and up to the first bad reply, and when it succeeds |
| Filings.FilingsSeed.SeedNseWindowed | scripts/backfill_filings.py:171-222 | the filings loop is the specified walk, keyed by the era-dependent feed; with nothing done and every reply good it asks for every window's requests, in order |
| Filings.ListingTiles | scripts/backfill_filings.py:184-194 | over the requests of a leg, those to the V2.0 listing tile exactly the V2.0 days of the range |
| Filings.OldRouteTiles | scripts/backfill_filings.py:180-183 | those to the old route tile every earlier day and overrun the change by less than a window |
| Filings.LegRow | scripts/backfill_filings.py:171-222 | a window's row is new exactly when it was not done and every reply it needs was good: for V2.0 days a listing of which no XBRL failed |
| Filings.PitLegSettles | scripts/backfill_filings.py:171-222 | a window reaching the V2.0 era is done only by its own feed; an old-route row for the same span never stands in |
| FiveMinute.VwapIsRunning | scripts/backtest_candles.py:509-516 | each bar's VWAP is taken over exactly the relation's bars up to it |
| FiveMinute.FiveBarIs | scripts/backtest_candles.py:536-548 | a five-minute bar's high and low are its bucket's extremes, its open the earliest bar's, its close and last minute the latest bar's |
| FiveMinute.BucketListed | scripts/backtest_candles.py:548 | every bucket with enough one-minute bars is listed |
| FiveMinute.BucketSize | scripts/backtest_candles.py:536-548 | a bucket holds distinct minutes of its own span, so it never has more bars than minutes |
| FiveMinute.BucketsBefore | scripts/backtest_candles.py:482-549 | buckets before a bucket boundary, with their VWAP, do not depend on later bars |
| FiveMinuteTape.FiveBarsAre | scripts/backtest_candles.py:536-548 | the five-minute bars are, in order, exactly the buckets holding enough bars of the tape, each with their number and what they traded |
| FiveMinuteTape.FiveVwapIs | scripts/backtest_candles.py:509-545 | a bar's VWAP is turnover over volume from the open through the last of its minutes by which anything traded, and absent exactly when nothing had |
| CandleSignals.FeaturesAreCausal | scripts/backtest_candles.py:743-766 | every feature of a bar depends on the bars up to and including it |
| CandleSignals.FirstTriggerIs | scripts/backtest_candles.py:767-789 | the reported trigger is a candidate bar on which the rule fires, and no earlier bar is |
| CandleSignals.CutKeepsWindowBars | scripts/backtest_candles.py:464-478 | the cut relation loses or changes no valid bucket that closes inside the signal window |
| CandleSignals.CutTapeSameSignal | scripts/backtest_candles.py:723-790 | the pass over the cut relation finds exactly the signal the whole day would give, for every tape, rule, window, bucket size and floor |
| CandleSignals.RegisteredCut | scripts/backtest_candles.py:464-478 | the registered window cuts at minute 284 |
| SignalMeaning.TriggersIff | scripts/backtest_candles.py:241-310 | a bar triggers a rule exactly when it lies in the window with enough traded bars before it and shows the rule's pattern over the bars by position |
| SignalMeaning.SignalIff | scripts/backtest_candles.py:723-790 | a signal is reported exactly when it is the first bar to do so, with its volume over the median volume of the bars before it |
| SignalMeaning.NoSignalIff | scripts/backtest_candles.py:723-790 | none is reported exactly when no bar does |
| Tape.EntryIndexIsFirst | scripts/backtest_candles.py:934-939 | the entry bar is the first bar at exactly the entry minute, and is missing only when no bar is there |
| HeldBars.HoldsIff | scripts/backtest_candles.py:1000-1011 | the bars found by position are the entry bar, of positive open, and the last bar at or before squareoff |
| CandleExits.SimulateE1 | scripts/backtest_candles.py:942-982 | the scanning loop computes the specified stop, target or squareoff fill |
| CandleExits.E1Payoff | scripts/backtest_candles.py:961-982 | a stop loses exactly one unit of risk, a target makes exactly R, a squareoff lies strictly between |
| CandleExits.E1FirstTouch | scripts/backtest_candles.py:975-981 | the exit is the first later bar touching either level, the stop winning ties |
| CandleExits.E1BoundIff | scripts/backtest_candles.py:961-982 | the [-1, R] range holds for every price path on given minutes exactly when a bar follows entry up to squareoff |
| CandleExits.E1NonAnticipating | scripts/backtest_candles.py:942-982 | the fixed exit reads nothing after its exit bar |
| CandleExits.SimulateE2 | scripts/backtest_candles.py:985-1020 | the trail loop computes the specified next-open or squareoff fill |
| CandleExits.E2Exit | scripts/backtest_candles.py:1003-1020 | entry at the entry minute's open; the trail fills at the first bar after the first later bar that closed below its predecessor's low; untriggered, or entered on the squareoff bar itself, it squares off |
| CandleExits.E2NonAnticipating | scripts/backtest_candles.py:985-1020 | the trail reads nothing after its exit bar, of a next-open fill's bar only the open, and no trail bar that is not over before the exit |
| CandleFills.E1Iff | scripts/backtest_candles.py:942-982 | the fixed exit gives a fill exactly when the stop is below the entry bar's open and the fill is at the first later bar to reach a level, the stop first, or at the squareoff close |
| CandleFills.E2Iff | scripts/backtest_candles.py:985-1020 | the trail gives a fill exactly when it is at the open of the first bar after the first trail bar to break, or at the squareoff close |
| CandleTrades.EntryOpensNextBucket | scripts/backtest_candles.py:866-905 | a trade that fills enters on the first minute of the bucket after its signal bar |
| CandleTrades.TradeE1NoLookAhead | scripts/backtest_candles.py:723-982 | signal, entry, stop, exit and reason of a fixed-exit trade are settled by the bars through its exit |
| CandleTrades.TradeE2NoLookAhead | scripts/backtest_candles.py:821-1020 | the same for a trail trade, whose trail bars come from the whole session |
| CandleTrades.TrailFillIsInLaterBucket | scripts/backtest_candles.py:1003-1020 | a trail fill lies after the last minute, and in a strictly later five-minute bucket, of the very bar that triggered it: the first after the signal to close below its predecessor's low |
| CandleFills.PostSignalIs | scripts/backtest_candles.py:866-905 | the post-signal relation holds the tape's bars from the window's start to squareoff |
| CandleFills.DayTrailIs | scripts/backtest_candles.py:842-850 | the trail is the session's five-minute bars, each with the low of the one before |
| CandleFills.TradeE1Iff | scripts/backtest_candles.py:723-982 | a fixed-exit trade exists exactly on a signal whose next minute has a bar, entered at that bar's open, its stop the signal bar's low (R5: its VWAP) |
| CandleFills.TradeE2Iff | scripts/backtest_candles.py:723-1020 | and a trail trade likewise, with the session's trail |
| FadeExits.SimulateShort | scripts/backtest_fade.py:693-757 | the short scan computes the specified exit or drops the trade |
| FadeExits.CloseStopIsDominated | scripts/backtest_fade.py:746-757 | under the close trigger a stop at or above the failure level changes nothing and is never the reason |
| FadeExits.CloseStopDeadIff | scripts/backtest_fade.py:719-722 | for positive levels the close-triggered stop is unreachable on every well-formed tape exactly when it is not below the failure level |
| FadeExits.HighTriggerIsEarlier | scripts/backtest_fade.py:746-751 | the high-triggered exit is never later, and is the same exit unless it is an intrabar stop at or above the stop price |
| FadeExits.HighTriggerNeverBetterIff | scripts/backtest_fade.py:19-21 | the high trigger buys back no cheaper on every well-formed tape exactly when there is no stop |
| FadeExits.ShortNonAnticipating | scripts/backtest_fade.py:693-757 | the short reads nothing after its exit, and of a next-open fill's bar only the open |
| FadeExits.ShortExit | scripts/backtest_fade.py:746-757 | the first ending bar, its reason and its price: an intrabar stop at max(stop, open), else the open right after the first close above a level, else the squareoff close |
| FadeFills.ShortIff | scripts/backtest_fade.py:693-757 | a short is booked exactly when it sells at the entry bar's open and buys back, for a positive price, inside the first bar to touch the stop, at the open after the first to close above a level, or at the squareoff close |
| FadeTrades.HighInIs | scripts/backtest_fade.py:465-471 | each level is the highest high of the bars in its range, NULL when there is none |
| FadeFills.LevelsIff | scripts/backtest_fade.py:960-975 | the failure level is the opening range's high, the decision bar's own or none, the stop the session's high through the decision bar or none |
| FadeTrades.StopAboveFailureLevels | scripts/backtest_fade.py:465-475 | the session high through the decision bar is at least either failure level |
| FadeTrades.FadeStopNeverBinds | scripts/backtest_fade.py:968-980 | on no session does a close-triggered fade stop change the trade |
| FadeTrades.RegisteredStopsAreDead | scripts/backtest_fade.py:960-980 | so the stops of the registered rules could be left out |
| FadeTrades.StopOnHighExitsNoLater | scripts/backtest_fade.py:960-980 | moving a rule's stop to the bar highs never makes a session's trade exit later |
| FadeTrades.FadeTradeNoLookAhead | scripts/backtest_fade.py:425-477 | levels, entry, exit and reason of a fade trade are settled by the bars through its exit |
| FadeFills.FadeTradeIff | scripts/backtest_fade.py:950-980 | a fade trade exists exactly on a session with an opening range and a decision bar, sold at the open of the bar one minute later under those levels |
| TdcExits.SimulateExit | scripts/backtest_tdc.py:831-869 | the VWAP-loss scan computes the specified exit |
| TdcExits.LongExit | scripts/backtest_tdc.py:863-869 | the exit is the open after the first close below the threshold, and otherwise the squareoff close |
| TdcExits.LongNonAnticipating | scripts/backtest_tdc.py:831-869 | the long reads nothing after its exit, and of a next-open fill's bar only the open |
| TdcFills.LongIff | scripts/backtest_tdc.py:831-869 | a long is booked exactly when it buys at the entry bar's open and sells at the open after the first close below the decision VWAP less the stop percentage, or at the squareoff close |
| BreakoutFills.BarsUsable | scripts/backtest_brk20.py:628-642 | admission is that every session of the span exists with finite positive prices |
| BreakoutFills.FillFor | scripts/backtest_brk20.py:645-659 | the resting-limit loop computes the specified fill |
| BreakoutFills.FillIsMeasurable | scripts/backtest_brk20.py:628-672 | every variant's fill of an admitted signal is in bounds at a positive price with every exit session usable |
| BreakoutFills.LimitFillIsFirstTouch | scripts/backtest_brk20.py:655-659 | a limit fills on the first session reaching the level, between that session's low and min(open, level), and stays unfilled exactly when none does |
| BreakoutTrades.FillIff | scripts/backtest_brk20.py:645-659 | V1 fills at the next session's open; a limit on the first of its 3 or 5 sessions to trade at the level, at the level or an open below it; and nothing else fills |
| BreakoutFills.ShortLimitFillIsLongLimitFill | scripts/backtest_brk20.py:645-659 | every three-session fill is the five-session fill at the same bar and price |
| BreakoutFills.Measure | scripts/backtest_brk20.py:662-693 | the horizon loop books the specified gross and net returns |
| BreakoutFills.FilledIsMeasured | scripts/backtest_brk20.py:662-693 | an admitted fill is measured at every horizon, net being gross less one round trip |
| BreakoutTrades.TradeIff | scripts/backtest_brk20.py:662-693 | a booked trade is exactly the variant's fill with, after 5, 10 and 20 sessions, the percent gain from the fill price to the close, and the cost less |
| BreakoutCohorts.AdmitSignals | scripts/backtest_brk20.py:1208-1230 | the scan admits exactly the usable signals, in order |
| BreakoutCohorts.PopulationAscends | scripts/backtest_brk20.py:1208-1230 | each symbol and signal date is offered at most once, and every offer is measurable |
| BreakoutTrades.PopulationIff | scripts/backtest_brk20.py:628-642 | a signal is admitted exactly when the 25 sessions after it exist with positive prices |
| BreakoutCohorts.RunVariants | scripts/backtest_brk20.py:1240-1248 | every variant is offered every signal, and its unfilled count is what it did not fill |
| BreakoutTrades.BookedIff | scripts/backtest_brk20.py:1240-1248 | the trades of a variant are exactly those, one for each admitted signal it fills |
| BreakoutTrades.BookedAscend | scripts/backtest_brk20.py:1208-1248 | in the order of symbol and signal date |
| BreakoutCohorts.CohortsMatch | scripts/backtest_brk20.py:834-893 | V1 splits exactly into the filled and unfilled cohorts; the filled legs are, in order, the limit's own signals |
| BreakoutDecision.CpcvBlock.ApplyReportingRule | scripts/backtest_brk20.py:956-992 | the reported label needs both gates, and the gates disagree exactly when one alone passes |
| Sorting.MedianIsMiddle | scripts/backtest_brk20.py:700-712 | the median is the middle value, or the mean of the two middle ones, of the values in ascending order |
| BreakoutDecision.Round4Near | scripts/backtest_brk20.py:710-711 | four-decimal rounding moves a median by at most half a unit, and leaves it positive exactly above 0.00005 |
| BreakoutDecision.Round4Is | scripts/backtest_brk20.py:710-711 | the rounded median is the nearest multiple of 0.0001, and of two equally near the even one |
| BreakoutDecision.GeometryIsNetSign | scripts/backtest_brk20.py:933-953 | the geometry is viable exactly when the unrounded median net is positive |
| BreakoutDecision.GatesPartIff | scripts/backtest_brk20.py:933-970 | the verdict and the sign of the published median net part exactly on medians in (0, 0.00005], the verdict alone being viable |
| BreakoutDecision.BookedGatesPartIff | scripts/backtest_brk20.py:1240-1248 | and so they do for the trades any variant books, at every horizon |
| BreakoutReport.StampAll | scripts/backtest_brk20.py:1394-1398 | the reporting rule is stamped onto every variant's block at every horizon from its own trades |
| BreakoutReport.StampedIsReported | scripts/backtest_brk20.py:1394-1398 | the stamped blocks give the decision rule rows to which the reporting rule has been applied |
| BreakoutOutcome.VariantReads | scripts/backtest_brk20.py:1394-1398 | a variant's three blocks carry the rounded median net, verdict and flags of what its trades earn after 5, 10 and 20 sessions |
| BreakoutOutcome.NetMedianIs | scripts/backtest_brk20.py:1099-1128 | the variants are compared by the median of what their trades earn net after ten sessions |
| BreakoutReport.WinnerIff | scripts/backtest_brk20.py:1099-1128 | in terms of the trades, the registered winner is the gated variant with strictly the highest median net, and the tightened one is the same if its unrounded median exceeds 0.00005 |
| BreakoutOutcome.NeitherIff | scripts/backtest_brk20.py:1115-1128 | the registered outcome is neither exactly when no gated variant has trades, the tightened one when none has a median net above 0.00005 |
| BreakoutReport.ReportDecisions | scripts/backtest_brk20.py:1394-1422 | both outcomes of a study from the stamped blocks: the tightened one is the registered one or neither, and the winners are those the trades name |
| BreakoutReport.RunStudy | scripts/backtest_brk20.py:1208-1422 | from the scanned signals to both outcomes: each variant's blocks are stamped from the trades the fill loop booked for it, booked and unfilled add up to the admitted signals, no winner is renamed |
| BreakoutDecision.DecisionOutcome | scripts/backtest_brk20.py:1099-1128 | the ranking loop, the tie rule and the promotable list |
| BreakoutDecision.DecisionMeaning | scripts/backtest_brk20.py:1115-1128 | a winner is the one gated variant with strictly the highest median; neither means none passed the gate |
| BreakoutDecision.TightenedRankingIsPrefix | scripts/backtest_brk20.py:1394-1416 | the tightened ranking is the registered one cut where medians stop being positive |
| BreakoutDecision.TighteningNeverRenames | scripts/backtest_brk20.py:1412-1422 | the tightened outcome is the registered one or neither, and becomes neither exactly when the top median net is not positive |
| PurgedFolds.PurgedKfoldSplits | scripts/backtest_brk20.py:996-1015 | the fold loop builds the specified folds |
| PurgedFolds.BlocksTile | scripts/backtest_brk20.py:1006-1009 | test blocks follow one another over all observations and differ in size by at most one |
| PurgedFolds.BlockOf | scripts/backtest_brk20.py:1006-1009 | every observation lies in exactly one test block |
| PurgedFolds.FoldsIff | scripts/backtest_brk20.py:1004-1015 | the folds are, in order, exactly the blocks that leave something to train on, each with all observations clear of it |
| PurgedFolds.TrainIffWindowsApart | scripts/backtest_brk20.py:1010-1014 | an observation trains exactly when its window of purge length meets no test observation's |
| PurgedFolds.PurgedFoldsNeverLeak | scripts/backtest_brk20.py:1018-1050 | with purge and embargo at the horizon no train trade's window meets a test trade's, if no trade reaches further than the horizon |
| PurgedFolds.PurgeIsTight | scripts/backtest_brk20.py:1018-1050 | with a fill every session, folds purged at h are leak-free exactly for trades held up to h, even when all but one are held exactly h |
| SymbolSpread.SelectionIsExact | scripts/calibrate_fill_model.py:344-365 | a longer list is cut to exactly the limit, distinct, with both ends; the closing dedup removes nothing; without a positive limit, or within it, the list is kept |
| SymbolSpread.PicksAscend | scripts/calibrate_fill_model.py:359-365 | the rounded indices strictly ascend under round-half-to-even |
| SymbolSpread.SelectedAt | scripts/calibrate_fill_model.py:359-365 | the i-th symbol kept is the one at the position nearest to i (m - 1) / (limit - 1), of two equally near the even one |
| StrideSampling.SampledIff | scripts/calibrate_fill_model.py:568 | a row is sampled exactly when its number less one is a multiple of the stride |
| StrideSampling.StrideIsLeast | scripts/calibrate_fill_model.py:548 | the stride is the least one that keeps the day's ticks, taken as one symbol's, within the budget |
| StrideSampling.SamplesOfSymbol | scripts/calibrate_fill_model.py:541-568 | a symbol of m ticks gives ceil(m / stride) samples, its first tick among them |
| StrideSampling.SamplesByStride | scripts/calibrate_fill_model.py:548-568 | the exact bound on a day's samples for any split of ticks, and at least one per symbol |
| StrideSampling.DayBudget | scripts/calibrate_fill_model.py:541-568 | a day of k symbols samples at most budget + k - 1 ticks, for any split of its ticks |
| StrideSampling.WorstAttains | scripts/calibrate_fill_model.py:541-568 | and one busy symbol beside single ticks attains that |
| StrideSampling.DayCapIff | scripts/calibrate_fill_model.py:541-568 | a cap bounds every split of a day's ticks exactly when budget + k - 1 does not exceed it |
| StrideSampling.BareBudgetIff | scripts/calibrate_fill_model.py:548 | a day's own budget bounds every split exactly when one symbol trades that day |
| WeightedMedian.ComputeMedian | scripts/calibrate_fill_model.py:629-638 | the running-sum loop returns the lower median of the counted values |
| WeightedMedian.TallyCounts | scripts/calibrate_fill_model.py:629-638 | counting values one at a time keeps the sorted items of their table |
| Calibration.UpdateCounter | scripts/calibrate_fill_model.py:291-297 | `Counter.update` adds counts value by value |
| Calibration.MergeTables | scripts/calibrate_fill_model.py:291-294 | merging tables adds every symbol's counts |
| Calibration.MergeBlocks | scripts/calibrate_fill_model.py:295-296 | merging appends every bucket's blocks |
| Calibration.Accumulator.Merge | scripts/calibrate_fill_model.py:282-306 | the run's accumulator becomes the sum of the two |
| Calibration.Accumulator.ProcessDay | scripts/calibrate_fill_model.py:443-624 | a pass succeeds when no query it reaches raises, and then holds exactly that session's totals; otherwise it ends with that query's exception |
| Calibration.RetryDay | scripts/calibrate_fill_model.py:683-713 | a day contributes its first successful pass, or after three failures a skip with the third exception's text cut to 200 characters |
| Calibration.Calibrate | scripts/calibrate_fill_model.py:668-714 | the run's accumulator is the specified total over the candidate days |
| CalibrationTotals.SamplesSplit | scripts/calibrate_fill_model.py:573-622 | every sampled tick lacks a fill, lacks a sigma, or is in exactly one bucket's block |
| CalibrationDays.DropsAre | scripts/calibrate_fill_model.py:599-613 | the drop counts count the samples without a fill, and the filled ones without a positive sigma |
| CalibrationDays.BlockIs | scripts/calibrate_fill_model.py:615-620 | a bucket's block is the z of its filled samples with a positive sigma, in order |
| CalibrationTotals.TabulateCounts | scripts/calibrate_fill_model.py:486-505 | a session's tables count what its rows count |
| CalibrationTotals.TabulateHoursCounts | scripts/calibrate_fill_model.py:478-481 | and so does its hour histogram |
| CalibrationRuns.EachDayEndsOnce | scripts/calibrate_fill_model.py:673-714 | every candidate day ends exactly once, read or skipped |
| CalibrationRuns.HowADayEnds | scripts/calibrate_fill_model.py:673-714 | a day is read exactly when its first successful pass saw ticks, and a skip carries its reason, for a day that never went through the last exception's text |
| CalibrationDays.EndingIs | scripts/calibrate_fill_model.py:673-713 | a day is passed over exactly when the switch is on and the session loose; else the first clean one of three passes decides it, and with none the third exception's text, cut to 200 characters |
| CalibrationRuns.FailuresLeaveNoTrace | scripts/calibrate_fill_model.py:282-306 | however many passes failed, whatever they had read and wherever they stopped, the totals depend only on each day's first pass to go through or, where none did, on the kept text of the last exception |
| CalibrationRuns.TicksAreSums | scripts/calibrate_fill_model.py:302-306 | session ticks, L1 ticks, samples and both drop counts are sums over days of one successful pass |
| CalibrationRuns.SpreadsAreSums | scripts/calibrate_fill_model.py:291-292 | each symbol's spread table is the sum over days of one successful pass |
| CalibrationRuns.PricesAreSums | scripts/calibrate_fill_model.py:293-294 | and so is each symbol's price table |
| CalibrationRuns.HoursAreSums | scripts/calibrate_fill_model.py:297 | and the hour histogram |
| CalibrationRuns.SymbolsAreSeen | scripts/calibrate_fill_model.py:298 | the run's symbols are exactly those some day's successful pass saw |
| CalibrationRuns.CoverageIsRead | scripts/calibrate_fill_model.py:301 | there is one coverage row for each day read, in order, with its successful pass's counts |
| CalibrationRuns.ZIsRead | scripts/calibrate_fill_model.py:295-296 | a bucket's z is that of the successful passes one day after another, nothing lost or repeated |
| CalibrationRuns.SpreadOrderFree | scripts/calibrate_fill_model.py:780-785 | the published table does not depend on the order of the days |
| CalibrationRuns.PublishedSpread | scripts/calibrate_fill_model.py:780-785 | the published half-spread is the lower median over all read days together |
| CalibrationRuns.SamplesAreConserved | scripts/calibrate_fill_model.py:599-622 | over a whole run sampled = no fill + no sigma + the buckets' z |
| CalibrationRuns.SampledIsBounded | scripts/calibrate_fill_model.py:668-714 | a run samples at most, for each day read, the per-day budget and one for every symbol but one |
| CalibrationRuns.PerDayBudgetIsMost | scripts/calibrate_fill_model.py:668 | the per-day budget is the most samples a day can have within the maximum over the candidate days, and one where that is none |
| CalibrationRuns.MaxSamplesIff | scripts/calibrate_fill_model.py:541-542 | --max-samples bounds a run for every split of its ticks exactly when those per-day maxima add up to no more |
| CalibrationRuns.OneSymbolDecidesNothing | scripts/calibrate_fill_model.py:541-542 | one symbol a day is neither enough for --max-samples to hold nor needed |
| NewsDedupe.KeptIff | scripts/dedupe_news.py:28-35 | a row is kept exactly when no row of its url and cluster was ingested earlier, or at the same time with a lower id, and it is clustered unless no copy of the url is |
| NewsDedupe.NothingIsLost | scripts/dedupe_news.py:38-55 | every url and every cluster with members survives |
| NewsDedupe.OnePerPair | scripts/dedupe_news.py:28-35 | one row is left per url and cluster, and an unclustered row is the only one of its url |
| NewsDedupe.SecondRunIsNoOp | scripts/dedupe_news.py:8-9 | a second run deletes nothing |
| NewsDedupe.GuardsAreExact | scripts/dedupe_news.py:47-50 | for any delete, the two checks pass exactly when no url and no cluster would disappear |
| NewsDedupe.NewsStore.DeleteChecked | scripts/dedupe_news.py:44-55 | the transaction commits the delete when both checks pass and otherwise restores the table |
| NewsDedupe.NewsStore.Dedupe | scripts/dedupe_news.py:38-55 | the script always commits, keeps exactly the surviving rows, and leaves nothing to delete |
| FreshCross.MaxHighIs | scripts/backtest_hi52.py:509-512 | the trailing max bounds its window's highs and is one of them |
| FreshCross.PrefilterCrossIndices | scripts/backtest_hi52.py:515-536 | the loop returns the specified candidate indices |
| FreshCross.CandidateIff | scripts/backtest_hi52.py:515-536 | an index is returned exactly when its proximity clears the band and the previous one does not |
| FreshCross.FreshCrossIsCandidate | scripts/backtest_hi52.py:509-548 | every index whose handed window is a fresh cross is a candidate |
| CrossReport.FreshIff | src/engine/strategy/scanners/hi52.py:309-331 | the handed window is a fresh cross exactly when it is long enough, its close clears the band of its highest high and the close before missed that of the highest high before |
| CrossReport.OfferedIff | scripts/backtest_hi52.py:515-536 | the prefilter offers a session exactly when its close clears the band of the lookback's highest high and the close before did not |
| CrossSignals.UnadjustedIff | scripts/backtest_hi52.py:551-561 | the bisection finds an ex-date in the 400 days before today exactly when there is one |
| CrossSignals.DiscreteSignals | scripts/backtest_hi52.py:564-604 | the loop reports the signals and vetoes of the offered indices |
| CrossReport.ReportIs | scripts/backtest_hi52.py:564-604 | prefiltered or exhaustive, exactly the sessions that score on the decision day without a rescaling ex-date in the 400 days before it are reported, in order, and those with one are counted as vetoed |
| CrossSignals.PrefilterDropsNothing | scripts/backtest_hi52.py:985-994 | prefiltered and exhaustive runs give the same signals and vetoes, so the verification never raises |
| CrossSignals.WindowIsPrefixIff | scripts/backtest_hi52.py:539-548 | the handed window and the full prefix agree except exactly where the session clears the band and the previous close is below pmin times the dropped row's own high, though not below pmin times the highest high still held |
| CrossSignals.WindowHidesACross | scripts/backtest_hi52.py:542-547 | for all parameters, a history of lookback + 1 sessions on which the window hides a fresh cross that the full prefix shows |

## Left out

- Network, pacing, DuckDB and SQLite themselves, file locks, clocks and elapsed times: a fetch is an outcome, a
  query is its result or a raise, a table is its contents.
- Row counters of the backfills (written, cross-checked, mismatched, events): sums of what each fetch reports.
- Binary floating point and NaN beyond "value absent"; of the roundings only the four-decimal median net is modelled.
- The body of `scan_daily` after the fresh-cross test (volume, ex-dates, v2 filters): any function of the
  window and the day.
- Multi-symbol frames, eligibility joins and symbol exclusions of the candles and fade queries: one
  symbol-day at a time, at most one bar per minute, ordered by minute.
- `rank_and_cap`, `rvol_medians`, `select_day`, `select_rule`, `v2_admits`, `brk20.signals_for`, margin
  terciles: filters and sorts whose statements would repeat their code.
- `cpcv_splits`, `promotion_decision`, `CostModel`, `BhavcopyJob._persist`, `parse_*`: not in these scripts;
  only their outcomes appear.
- Holiday streaks across runs: a skipped date resets the streak, so the bound is per run.
- Calibration's k policy, sigma, the ASOF join and the spread ladder: each sampled row arrives with its
  fill, sigma and z.
- Python's own `sorted`, `bisect_left` and `Counter` are taken by their documented results; the sorted items of
  a table are an input of the median, and `WeightedMedian.Tally` shows how one is kept.
- Reports, argument parsing, the dashboard and statistics that are only displayed.
- Calibration.Accumulator.ProcessDay: promises nothing about the fields after a failed pass, because the source
  leaves a half-written scratch accumulator that is never merged.
- CandleExits.E1Payoff: needs a bar after entry up to squareoff; `CandleExits.E1BoundIff` shows that this is exact.
- CrossSignals.PrefilterDropsNothing: needs a non-negative band or non-negative closes, which traded prices and
  the registered band always satisfy.
- CrossReport.ReportIs: needs ascending ex-dates, which the loader sorts, and the same when prefiltered.
- CrossSignals.WindowIsPrefixIff: needs the same, and a lookback of at least the required sessions, as registered.
