# Verification

A model of a news-driven trading and backtesting service: the resumable backtest, the registry protocol around it, the
price bars it exits and fills on, the equity score, and the ingestion jobs. `dafny verify dfyconfig.toml` checks it.

Where the code changes things step by step the model is imperative: classes with fields (`SubrequestBudget`,
`Registry`, `PositionStore`, `PendingTable`, `Namespace` and `Wrapper`, `BackfillJob`), and methods with loops proved
against specification functions. The laws are lemmas about those functions.

## The parts

**Resumable backtest** (`Budget`, `Pipeline`, `SignalWalk`, `WalkStore`, `WalkOrder`, `WalkForward`, `BacktestRun`,
`RunChain`, `RunOrder`). A unit is one news item's staged run or one day's exit check. The walk may stop between
stages, before an item or before a day's exit check. The result: any chain of parts, with any positive budgets and any
outages, does what one uninterrupted run over its news does, with exact counters, ends within 1001 times the parts
cap, and stalls out exactly when one spot saw too many outages. The store a walk leaves is the fold of the units it
reported. While news keeps arriving from part to part no item runs twice in the run and none that was there from the
start is skipped.

**Pause, resume, cancel** (`RunRegistry`, `RunProtocol`, `BacktestWorker`). Each SQL statement, queue operation and
send is one step. Over every interleaving a live run has exactly one token: a queued message, a part in flight, a
stored cursor, or an envelope in a resume request's hand. One delivery of the queue handler is shown to be a path of
those steps.

**Bars, exits, fills** (`BarWindow`, `BarSplit`, `ExitWalk`, `ExitLaws`, `TrailingStops`, `HoldTime`, `BarFill`,
`EntryFill`, `ExitCheck`, `ExitSchedule`, `ExitExamples`, `ExitCutoff`). A window is a slice of one chronological,
non-overlapping sequence. Cursor, extremes and best price handed from check to check lose nothing, so checks on any
schedule leave a position as one late check would, exactly when the closing's time cannot show. A waiting entry is
decided on every bar, cut-off reads or not.

**Equity score** (`Returns`, `Equity`, `EquityLaws`, `EquityValues`, `PriceGrid`, `Scoring`, `RunScore`).
Conservation, costs charged once, the exact value and contribution of open and realized positions, causality,
truncation, pooling, drawdown, and the score phase from bars and positions to the comparison. Arithmetic is over
reals.

**Ingestion and cooldowns** (`CooldownMap`, `QueueChunks`, `DateWindows`, `NewsBackfill`, `IntradayBackfill`).

## What the code does differently from what one would expect

Each is a lemma with an input, and beside it the condition under which the code does meet the property.

- A run paused before its first part is delivered is stuck: paused, with nothing to resume from
  (`RunProtocol.PausingBeforePartOneDrops`, `RunProtocol.DroppedStaysStuck`; iff,
  `RunProtocol.LostIffAckedWhilePaused`).
- A run cancelled and purged before its first part is delivered is started by it all the same
  (`RunProtocol.PurgingBeforePartOneRestarts`; iff, `RunProtocol.ComesBackIffPurgedThenInserted`).
- A resume overtaken between its read and its claim carries on from an old cursor
  (`RunProtocol.OvertakenResumeIsStale`; iff, `RunProtocol.ContentKeptUnlessStale`).
- The default test length yields no window for a span that is not a whole number of days
  (`WalkForward.DefaultLengthFitsWholeDaysOnly`, input and condition in one).
- News between midnight and an inner window boundary is never read (`WalkForward.NewsIsCoveredIffCutAtMidnight`, input
  and condition in one).
- Off the five-minute grid a check and the next one can lose or change bars: a bar across midnight makes its day
  switch from daily to intraday (`BarSplit.StraddlingBarChangesItsDay`) or hides the day after it
  (`BarSplit.DayUnderTheCursorIsNeverRead`), and of two overlapping bars the second is never read
  (`BarSplit.OverlappingBarIsNeverRead`); iff, `BarSplit.SplitsIff`. A daily read cut at its cap silently skips days
  (`BarSplit.CutDailyReadSkipsADay`; iff, `BarSplit.CutReadSplitsIff`).
- At the due instant a price walk cut at the row cap lets the time exit win over a stop in the bars not read
  (`ExitCutoff.CutReadMissesTheStop`; iff, `ExitCutoff.CutCheckAgreesIff`).
- A time exit without a bar to fill at closes at the time of the check that gave up
  (`ExitExamples.LateClosingTellsTheCheck`), and so does one whose walk stopped at a suspected split
  (`ExitExamples.SplitClosingTellsTheCheck`); iff, `ExitSchedule.SchedulesAgreeIff`.
- A short's non-positive low is used inside a window but never stored, so the ratchet differs across checks
  (`ExitExamples.LowBelowZeroIsForgotten`; iff, `ExitSchedule.BestPriceIsHandedOnIff`).
- A waiting entry whose fill bar opens before the deadline and closes after it is filled or expired depending on the
  tick (`EntryFill.StraddlingFillDependsOnTheTick`; iff, `EntryFill.ScheduleShowsIff`).
- A date on which a ticker has no bar, nor one within the allowed gap before, is priced by its next bar, up to the gap
  ahead (`PriceGrid.PricedByALaterBar`; iff, `PriceGrid.LaterPriceIff`).
- A done but incomplete day that has left the re-open look-back stays incomplete (`IntradayBackfill.HalfDayIsLeft`;
  iff, `IntradayBackfill.ReopenedIff`).

## Model

| member | source | states |
|---|---|---|
| `Budget.SubrequestBudget.constructor` | src/backtest/subrequestBudget.js:78-104 | A new budget has spent nothing, refused nothing, completed no unit, and holds the default unit estimates. |
| `Budget.SubrequestBudget.Create` | src/backtest/subrequestBudget.js:79-84 | A budget exists exactly when both limits are positive. |
| `Budget.SubrequestBudget.ChargeExternal` | src/backtest/subrequestBudget.js:131-139 | One fetch: refused when halted, or when enforced and over either limit; a refusal halts and spends nothing, an accepted one counts on both limits. |
| `Budget.SubrequestBudget.ChargeInternal` | src/backtest/subrequestBudget.js:142-153 | One D1 or KV operation: refused only when enforced and over the total limit, even after a halt it may pass inside an unenforced region; each kind lands in its own counters. |
| `Budget.SubrequestBudget.RecordUnit` | src/backtest/subrequestBudget.js:208-214 | A finished unit raises the unit count and the kind's observed cost to the maximum seen. |
| `Budget.SubrequestBudget.CanStart` | src/backtest/subrequestBudget.js:217-223 | Says yes exactly when nothing was refused and either no unit is done or the estimate fits what is left of both limits. |
| `Budget.SubrequestBudget.ChargeAll` | src/backtest/subrequestBudget.js:131-153 | A list of operations stops at the first refusal, and succeeds exactly when each is accepted in turn. |
| `Budget.Accounting` | src/backtest/subrequestBudget.js:131-153 | Over every sequence of calls the total is external plus D1 plus KV, and KV covers its reads and writes. |
| `Budget.OverrunIsUnenforced` | src/backtest/subrequestBudget.js:131-191 | Over every sequence of calls each limit is exceeded by at most the charges accepted inside unenforced regions. |
| `Budget.LimitsHold` | src/backtest/subrequestBudget.js:131-191 | A run that enters no unenforced region never goes past either limit. |
| `Budget.HaltedForever` | src/backtest/subrequestBudget.js:120-139 | After the first refusal no external charge ever succeeds again, inside an unenforced region or not. |
| `Budget.EstimatedUnitIsNeverRefused` | src/backtest/subrequestBudget.js:217-223 | Once a unit is done, a unit that the start check allowed and that costs no more than the estimate is never refused. |
| `Budget.RefusalToStartImpliesProgress` | src/backtest/subrequestBudget.js:217-223 | The start check says no only after a completed unit or a refusal, over every history of calls. |
| `Pipeline.InterruptedItemResumes` | src/graph/checkpointer.js:26-35 | Cut an item's run between any two stages: running it again from the stored checkpoint ends in the store the uncut run would have produced. |
| `Pipeline.CutMeans` | src/graph/checkpointer.js:26-35 | What a cut leaves: nothing before the first checkpoint, then one more checkpoint, and so on to the whole run; unusable output ends it. |
| `Pipeline.CompletedIsFinal` | src/graph/pipeline.js:95-106 | An item whose last stage is checkpointed is not run again: running it changes nothing. |
| `Pipeline.PipelineMeans` | src/graph/pipeline.js:95-420 | The pipeline stage by stage from the item's own checkpoint: which stage comes next, what a good answer saves and where it goes on, that unusable output leaves the store and a fatal answer crashes, and what the last stages commit. |
| `Pipeline.PipelineKeepsOthers` | src/graph/checkpointer.js:26-35 | A run writes no item's checkpoint but its own, completes it when it completes, and leaves the book alone when its output was unusable. |
| `Pipeline.RunPipelineForTicker` | src/graph/pipeline.js:69-189 | The staged run of one item under a budget: finished, skipped or failed exactly as the pipeline says; stopped by the budget or a vendor outage it leaves a store from which the same result is still ahead, a budget stop means the budget has halted, and the budget was charged exactly the item's bill, stopped by it exactly when one of its charges was refused: every stage charged before that one is checkpointed, and a later run is charged only from the refused stage on. An outage stops it before the very stage the store stands at. |
| `Pipeline.FreshBill` | src/graph/pipeline.js:95-136 | A fresh item is charged the read of its checkpoint, the first stage, and, unless that stage ends the run, what it is charged once analyzed. |
| `Pipeline.AnalyzedBill` | src/graph/pipeline.js:138-171 | An analyzed item is charged one write when it has no impact, and for the debate and what follows when it has. |
| `Pipeline.LastBills` | src/graph/pipeline.js:173-420 | A debated item is charged for the trade and, if that succeeds, the commit; a traded one for the commit; a committed one for the read alone. |
| `Pipeline.TradeAndCommit` | src/graph/pipeline.js:173-420 | The last stages, from wherever they resume: the same guarantees as for the whole run. |
| `Pipeline.DebateAndOn` | src/graph/pipeline.js:138-420 | What follows the analysis: the record of an item without impact, or the debate and the last stages, with the same guarantees as for the whole run. |
| `SignalWalk.GetNewsItemsInRange` | src/storage/inputs_view.js:243-299 | Keyset paging, for every page size, returns exactly the items published in the range, oldest first and those of one instant by id. |
| `SignalWalk.EachDay` | src/backtest/onSignalRunner.js:85-95 | The list of days from the start's to the end's, both included. |
| `SignalWalk.WalkItem` | src/backtest/onSignalRunner.js:374-393 | One item under the budget: run by the pipeline for its own ticker and window and reported, skipped and counted on unusable output within the cap, or left for a later part with nothing lost and no other checkpoint, nor the book, changed. It is held before it starts exactly when it does not fit the budget, halted midway exactly when one of its charges is refused, and a finished one is recorded as one item at what it cost. |
| `SignalWalk.WalkItems` | src/backtest/onSignalRunner.js:373-394 | A ticker-day's items from the cursor: done in order, or held at an item with the rest still ahead and the cursor advanced; the store is what the reported items make of it, that item's own checkpoint aside. |
| `SignalWalk.WalkDayNews` | src/backtest/onSignalRunner.js:352-403 | A day's tickers in order from the cursor, each closed by its step; every ticker reached is charged for its news pages, and the units the budget counts are exactly those reported. |
| `SignalWalk.SpendUnenforced` | src/backtest/onSignalRunner.js:352-373 | Charges inside an unenforced region are all counted and none is refused, and the region is left again. |
| `SignalWalk.WalkExits` | src/backtest/onSignalRunner.js:405-433 | A day's exit check runs whole or not at all: it is never cut by the budget, which is only asked before it: it is not started exactly when it does not fit, and one that ran is recorded as one exit unit at what it cost. It leaves the book the check returned, and the grace tail stops exactly when nothing is open or pending on a day after the test's end that is not the last. |
| `SignalWalk.WalkDay` | src/backtest/onSignalRunner.js:345-434 | One day from the cursor: completed, held with a cursor on that day, or ended early in the grace tail. |
| `SignalWalk.WalkOnSignalWindow` | src/backtest/onSignalRunner.js:330-442 | The pausable walk refines the uninterrupted one: completed, its store, units and skipped grace days are the uninterrupted walk's; paused, what lies ahead of the cursor is exactly the rest of it, the cursor has advanced, and a budget pause implies a completed unit or a refusal; the resume day is missing only for a cursor of another window. Completed or paused, the store is the fold of the newly reported units over the window and the news, up to the checkpoint of the one item a pause is held at; the budget has counted exactly the newly reported units. |
| `SignalWalk.WalkDaysAreListed` | src/backtest/onSignalRunner.js:334-338 | A cursor's day is one of the walk exactly when it is in its list of days, at the index the walk resumes from. |
| `SignalWalk.WalkEndMeans` | src/backtest/onSignalRunner.js:107-126 | The last window is walked to the end of its grace days but not past now, any other one to a day before its test ends. |
| `SignalWalk.GraceMeans` | src/agents/risk_mgmt/exit.js:84-87 | The default grace is the fewest whole weeks whose weekdays cover the hold limit. |
| `WalkStore.ReplayMeans` | src/backtest/onSignalRunner.js:374-393 | What reported units leave in the store: every reported item, at its own ticker and window, is finished except for as many as were skipped; no other item's checkpoint is written and no finished one changes. |
| `WalkStore.WalkFinishes` | src/backtest/onSignalRunner.js:374-393 | A walk that skipped nothing has finished every item it reported. |
| `WalkStore.HeldMeans` | src/backtest/onSignalRunner.js:374-393 | A held walk has changed, beside the items it reported, at most the checkpoint of the item it is held at. |
| `WalkOrder.UnitsFromMembers` | src/backtest/onSignalRunner.js:330-442 | From any place the units still ahead are exactly those not passed: items by day, ticker and key, one step per ticker-day, one exit check per day. |
| `WalkOrder.UnitsFromSorted` | src/backtest/onSignalRunner.js:330-442 | The units run in strict order: day, ticker, (published, id), the ticker's step after its items, the exit check last. |
| `WalkOrder.StepsAhead` | src/backtest/onSignalRunner.js:135-139 | The ticker-day steps ahead of a place are tickers times days left less the tickers done today. |
| `WalkOrder.PausedPartIsLeg` | src/backtest/onSignalRunner.js:330-442 | What the walk guarantees of a paused part is a leg of a chain of parts. |
| `WalkOrder.CompletedPartIsLeg` | src/backtest/onSignalRunner.js:330-442 | What the walk guarantees of a completed part is a leg of a chain of parts. |
| `WalkOrder.ChainKeeps` | src/backtest/onSignalRunner.js:330-442 | Across any chain of parts, each reading a news table at least as large, the units done are in order without a repeat, all behind the cursor, and hold every originally present unit behind it. |
| `WalkOrder.GraceDaysHaveNoNews` | src/backtest/onSignalRunner.js:151-165 | A day at or after the window's end reads no news. |
| `WalkOrder.EveryItemRunsOnce` | src/backtest/onSignalRunner.js:330-442 | A window finished by any chain of parts while news arrives ran every item its first part could have read, and no unit twice. |
| `RunOrder.WindowsKeep` | src/backtest/runBacktest.js:297-362 | Through any number of windows, each walked by any chain of parts over growing news, the units done are in order, are units of the windows so far, and hold every item the first part had for them. |
| `RunOrder.RunRunsEveryItemOnce` | src/backtest/runBacktest.js:297-362 | Over a whole run, news arriving all along: no unit runs twice in any windows, every item of every slot the first part could have read ran, and whatever ran was a unit of some window. |
| `RunOrder.LegKeepsRun` | src/backtest/runBacktest.js:297-362 | One part inside one window, reading a table at least as large as any before: the run's units stay in order without a repeat, all behind it, and hold every item of the first table behind it. |
| `RunOrder.WindowEndKeeps` | src/backtest/runBacktest.js:362-383 | A window walked to its end, skipped grace days included, keeps it as the next window's start. |
| `WalkForward.WalkForwardWindows` | src/backtest/pointInTime.js:31-49 | The generator's windows are trained and tested back to back for the days given, rolled by the test length, all ending within the span, and the next one would not. |
| `WalkForward.GeneratorYieldsWindows` | src/backtest/pointInTime.js:31-49 | Those properties pin the list of windows down uniquely. |
| `WalkForward.DefaultLengthFitsWholeDaysOnly` | src/backtest/runBacktest.js:130-134 | The default test length gives its one window exactly when the span is a whole number of days, and no window otherwise. |
| `WalkForward.WalksTileTheDays` | src/backtest/onSignalRunner.js:107-139 | The windows' walks visit every calendar day once, in order, so each gets one exit check. |
| `WalkForward.SlotIsDayItems` | src/backtest/onSignalRunner.js:151-165 | What one window reads for one ticker-day is exactly the items published in that slot. |
| `WalkForward.AtMostOneSlot` | src/backtest/onSignalRunner.js:151-165 | A timestamp falls in at most one (window, day) slot. |
| `WalkForward.SlotUnlessBeforeBoundary` | src/backtest/onSignalRunner.js:107-165 | A timestamp of the span is read by some slot exactly when it does not lie between midnight and an inner window boundary of its day. |
| `WalkForward.NewsIsCoveredIffCutAtMidnight` | src/backtest/onSignalRunner.js:107-165 | Every timestamp of the span is read exactly when every inner boundary is at midnight. |
| `BacktestRun.PlanIsConsecutive` | src/backtest/runBacktest.js:217-239 | The planned windows follow one another, and only the last has a grace tail. |
| `BacktestRun.PlanMeans` | src/backtest/runBacktest.js:130-239 | The planned windows in numbers: tests of the length asked for, or of the span rounded up to days, back to back after the first training stretch, each walked to a day before its end and the last to the end of its grace or to now. |
| `BacktestRun.YieldPart` | src/backtest/runBacktest.js:272-295 | A part hands on its cursor with the exact step count, fails exactly at the parts cap or after 1000 idle parts in a row, and is idle exactly when it did no unit, no fetch and no step. |
| `BacktestRun.PausedSteps` | src/backtest/runBacktest.js:299-362 | At a pause the step counter has moved by exactly the ticker-days between the two cursors. |
| `BacktestRun.CompletedSteps` | src/backtest/runBacktest.js:366-383 | At a window's end, skipped grace days included, the counter has moved by exactly the ticker-days that were left. |
| `BacktestRun.PausePart` | src/backtest/runBacktest.js:318-362 | A vendor pause raises the stall count at its spot, a budget pause or a daily-quota one carries it on; the run fails as stalled exactly when the count passes the limit; the next part waits the longer of the two pauses asked for after an outage, and else not at all. |
| `BacktestRun.WalkPhase` | src/backtest/runBacktest.js:297-383 | The window loop of one part: all windows walked as the uninterrupted run would and the counter at its total, or a cursor from which the uninterrupted run is the same as before. |
| `BacktestRun.ScorePhase` | src/backtest/runBacktest.js:386-393 | The score phase's start: scored in this part exactly when there is no budget or what is left of it reaches for the scoring; else handed on with the windows all done, no stall record and the step counter at its total. |
| `BacktestRun.RunManualBacktest` | src/backtest/runBacktest.js:108-469 | One part of a run, from its start or a cursor: refused inputs, or a result, or a cursor whose remaining run equals the remaining run from where it began, with exact counters and the pinned clock, and the units done so far in order, once each, no item skipped; a walk pauses at or after where it came in, at an item of the news when the vendor was out, and stalls out exactly over the limit. |
| `RunChain.PartsLeftDrops` | src/backtest/runBacktest.js:272-295 | Every continued part lowers (parts left under the cap, idle parts left), which stays positive. |
| `RunChain.RunAllParts` | src/backtest/runBacktest.js:108-469 | A chain of parts with fresh budgets, each reading the news table of its time, ends within 1001 times the parts cap; completed, every item the first part could have read ran, nothing ran twice, all in order, and the counter stands at the total; over an unchanging table its store and units are the uninterrupted run's, and it fails for an item or an exit check only when that run does; at the cap or for idleness it fails only after that many parts. Its pauses only move forward, and it stalls out exactly when some spot has seen more non-daily outages than the limit. |
| `RunChain.PartIsRecorded` | src/backtest/runBacktest.js:318-362 | One part more: its pause keeps the list in order, and the stall record it hands on is the one the list of pauses gives. |
| `RunChain.StallCountsItsOutages` | src/backtest/runBacktest.js:326-362 | However budget pauses come in between, over pauses in walk order a stall record counts exactly the non-daily outage pauses at its spot. |
| `RunRegistry.Registry.Insert` | src/storage/sim_registry.js:35-44 | Adds a running row, nothing else set, unless the run has one. |
| `RunRegistry.Registry.MarkComplete` | src/storage/sim_registry.js:47-52 | Completes any existing row, whatever its status: the result and the time are set, the cursor and the error cleared. |
| `RunRegistry.Registry.MarkFailed` | src/storage/sim_registry.js:55-60 | Fails any existing row, whatever its status: the error and the time are set and the cursor cleared. |
| `RunRegistry.Registry.Cancel` | src/storage/sim_registry.js:74-80 | A running or paused row becomes cancelled with the error and the time given and without a cursor; any other row stays. |
| `RunRegistry.Registry.Pause` | src/storage/sim_registry.js:96-110 | Pauses a running or paused row; a paused row keeps its reason, time and resume-after, and a given cursor replaces the stored one. |
| `RunRegistry.Registry.Claim` | src/storage/sim_registry.js:130-138 | The claim of a resume succeeds exactly on a paused row with a cursor, and clears it. |
| `RunRegistry.Registry.Resume` | src/storage/sim_registry.js:125-139 | With nothing in between, a resume answers not found, not paused, still pausing, or claims the stored cursor. |
| `RunRegistry.Registry.DeleteFailedOrCancelled` | src/storage/sim_registry.js:178-184 | Deletes exactly a failed or cancelled row. |
| `RunRegistry.ReparkRestores` | src/index.js:749-755 | Re-parking what a claim returned restores the paused row, its pause time aside. |
| `RunProtocol.StepKeeps` | src/storage/sim_registry.js:74-139 | Every statement of the worker, the routes and a resume in progress keeps the invariant: at most one token, exactly one while the run is live and nothing was dropped. |
| `RunProtocol.OneToken` | src/backtest-worker.js:170-245 | Over every interleaving from the start a live run has exactly one token, or none once a cursor-less first message was acked while paused. |
| `RunProtocol.LostIffAckedWhilePaused` | src/backtest-worker.js:190-215 | A live run has lost its token exactly when, somewhere in its trace, the worker read a cursor-less message's run as paused and then, only operator and resume steps in between, acked that message. |
| `RunProtocol.NothingDropsAfterAContinuation` | src/backtest-worker.js:190-215 | From the first continuation on a live run always has exactly one token. |
| `RunProtocol.DroppedStaysStuck` | src/backtest-worker.js:210-214 | A dropped run is never running again and no token returns, whatever the operator does. |
| `RunProtocol.PausingBeforePartOneDrops` | src/backtest-worker.js:206-215 | It happens: pausing before part 1 is delivered leaves a paused run with nothing to resume from. |
| `RunProtocol.ComesBackIffPurgedThenInserted` | src/backtest-worker.js:170-245 | Over every interleaving a run that is over is ever running or paused again exactly when its row is purged and the worker, on the first part's message, later inserts one anew. |
| `RunProtocol.PurgingBeforePartOneRestarts` | src/backtest-worker.js:170-245 | It happens: a run cancelled and purged before its first part is delivered is started by it all the same. |
| `RunProtocol.TerminalIsForever` | src/storage/sim_registry.js:47-110 | After a continuation a terminal row stays terminal until purged and is never re-inserted. |
| `RunProtocol.StatusWasWritten` | src/backtest-worker.js:135-384 | Over every interleaving a row reads cancelled only if the operator's cancel met it live, failed only if the worker failed it, complete only if the worker completed it, paused or running only if such a step met it, and nothing wrote another status since. |
| `RunProtocol.StatusStep` | src/storage/sim_registry.js:74-139 | In one step a row comes to read a status exactly when the step is one that writes it. |
| `RunProtocol.DeliveryTakesItsMessage` | src/backtest-worker.js:135-170 | Any waiting message may be delivered to an idle worker, which holds it from then on while it leaves the queue. |
| `RunProtocol.StatusDecides` | src/backtest-worker.js:170-215 | What the worker makes of the status it reads: it runs a running run's part, or a first part without a row, saves a paused run's, and drops a message of a run that is over, or a continuation of one that is gone. |
| `RunProtocol.DeliveryEnds` | src/backtest-worker.js:331-382 | A delivery ends by its ack, which only leaves the worker idle, or by a retry, which puts its message back. |
| `RunProtocol.NextPartIs` | src/backtest-worker.js:298-345 | The part after a delivered one is its number plus one, on the cursor it ended at: sent as a message, or parked in the row. |
| `RunProtocol.SettledRunsAreResumable` | src/storage/sim_registry.js:125-139 | When nothing moves a live run is paused, and can be resumed exactly when it was not dropped. |
| `RunProtocol.ContentKeptUnlessStale` | src/storage/sim_registry.js:125-139 | A step leaves the run with its newest continuation exactly when it is not the claim of a resume whose read was overtaken. |
| `RunProtocol.TokenIsNewest` | src/storage/sim_registry.js:125-139 | Over every run without such a claim the token is the newest continuation. |
| `RunProtocol.ReadThenClaimIsCurrent` | src/storage/sim_registry.js:125-139 | A resume with nothing between its read and its claim is never overtaken. |
| `RunProtocol.OvertakenResumeIsStale` | src/storage/sim_registry.js:125-139 | It happens: two resumes and one part in between make a run carry on from an old cursor. |
| `BacktestWorker.QuotaTrigger` | src/backtest-worker.js:85-98 | Names the first counter that reached its percentage of its share of the day and the reason that goes with it, or none when none did; with the percent check off only the writes are held, to their whole share. |
| `BacktestWorker.HandleDelivery` | src/backtest-worker.js:135-384 | One delivery drops a stale message, saves a paused run's cursor, parks over quota, or runs the part and ends, parks, sends or retries, as one envelope for the next part; whatever it answers is a path of the protocol's steps with the same acks, sends and row, and touches no other run. |
| `BacktestWorker.OpenDelivery` | src/backtest-worker.js:135-235 | What the handler does before the part: skip, save the cursor, park or insert the row, as a path of the protocol's steps. |
| `BacktestWorker.RunPart` | src/backtest-worker.js:249-384 | The part, and then the run parked, sent on, retried or ended, as a path of the protocol's steps. |
| `BarWindow.VisibilityRule` | src/shared/intraday_availability.js:16-70 | Rounded to whole seconds the two bounds are exact: a stored bar is read iff it opened at or after the anchor and had fully closed. |
| `BarWindow.BuildBarSequence` | src/shared/bar_window.js:79-116 | The merge loop: intraday rows, then daily rows of days without any and, after a cut-off read, not past its last day, in opening order. |
| `BarWindow.ReadWindow` | src/graph/exit_check.js:83-85 | Two capped reads and their merge. |
| `BarWindow.ReadsMean` | src/graph/exit_check.js:83-85 | The rows a window reads are those that opened at or after the anchor and had closed by now, in order. |
| `BarWindow.SequenceIsItsBars` | src/shared/bar_window.js:79-116 | The merge is strictly chronological and holds exactly the bars its rules keep. |
| `BarWindow.WindowMeans` | src/shared/bar_window.js:79-116 | A window holds, in order, the five minutes of each intraday row read and the whole day of each daily row read without an intraday row on it, none after the last one's day when that read was cut off; the rows read are those that opened at or after the anchor and had closed, each read up to its cap. |
| `BarWindow.BarsAreDisjoint` | src/shared/bar_window.js:60-116 | On the five-minute grid the bars of a table never overlap, so they are in order of closing too. |
| `BarWindow.WindowIsSlice` | src/shared/bar_window.js:60-116 | A window is exactly the table's bars that opened at or after the anchor and closed by then, or, when the intraday read was cut off, a non-empty first part of them. |
| `BarWindow.ShortWindowsKeepTheirDays` | src/storage/inputs_view.js:581-612 | A window of at most as many days as the daily cap never cuts its daily read. |
| `BarWindow.SplitAtCursor` | src/shared/bar_window.js:7-30 | Splitting a span at the close of any bar reached loses and repeats nothing. |
| `BarWindow.TwoChecksAreOne` | src/shared/bar_window.js:60-116 | A check, cut off or not, followed by one from its last bar's close sees what one late check sees. |
| `BarSplit.SplitsIff` | src/shared/bar_window.js:7-30 | Whatever the alignment of the bars, a check and one from its cursor see what one late check sees exactly when no intraday bar is open at the cursor, the cursor is not inside a day with a daily bar only, and no day taken from its daily bar gets an intraday bar later. |
| `BarSplit.GridSplitsClean` | src/shared/bar_window.js:24-30 | On the five-minute grid that always holds, at the close of any bar. |
| `BarSplit.StraddlingBarChangesItsDay` | src/shared/bar_window.js:24-30 | Off the grid it fails: a bar across midnight makes its day switch from daily to intraday between two checks. |
| `BarSplit.OverlappingBarIsNeverRead` | src/shared/bar_window.js:7-30 | Off the grid it fails: of two bars three minutes apart the second is read by no check that goes on from the first one's close. |
| `BarSplit.DayUnderTheCursorIsNeverRead` | src/shared/bar_window.js:24-30 | Off the grid it fails: a bar across midnight puts the cursor inside a day with a daily bar only, which no later check reads. |
| `BarSplit.CutReadSplitsIff` | src/shared/bar_window.js:60-116 | On the grid a check with both reads cut off anywhere, and one from its cursor, see what one late check sees exactly when every daily bar beyond the cap is of an intraday day or opens after the intraday bars read. |
| `BarSplit.CutDailyReadSkipsADay` | src/storage/inputs_view.js:581-612 | It fails for 91 daily bars and an intraday one: the window skips a day and offers the intraday bar behind it. |
| `ExitWalk.ResolveTrailingConfig` | src/agents/risk_mgmt/trailing.js:43-58 | Rules are in force exactly when break-even, or an activation with a distance, is positive; each carries the knob it was given, trailing only with both, removes the target only when trailing, and pays for both trades. |
| `TrailingStops.NeverLooserThanInitial` | src/agents/risk_mgmt/trailing.js:66-100 | The ratcheted stop is never looser than the initial one. |
| `TrailingStops.StopOnlyTightens` | src/agents/risk_mgmt/trailing.js:20-24 | As the best price improves the stop only tightens: always for a short, and for a long whose stop or gap is at most the whole price. |
| `TrailingStops.LoosensIff` | src/agents/risk_mgmt/trailing.js:66-100 | Some better price loosens the stop exactly for a long whose trailing gap exceeds the whole price, whose trail once active still beats the initial stop, and which is not broken even by then. |
| `TrailingStops.SetStopsOnlyTighten` | src/agents/risk_mgmt/risk.js:40-60 | No stop the risk layer sets, clamped or fallback, is ever loosened by a better price, whatever the trailing knobs. |
| `TrailingStops.WideGapLoosens` | src/agents/risk_mgmt/trailing.js:86-97 | A long with a stop of four times its price, which the risk layer never sets: a better peak loosens the stop. |
| `Returns.GrossMeans` | src/shared/returns.js:37-42 | A long gains what the price gains on the entry price, a short what it loses. |
| `Returns.CostsMean` | src/shared/returns.js:20-34 | Costs are hundredths of a percent of each trade, and a closed position's recorded return bears them twice. |
| `ExitWalk.WalkBarsForExit` | src/agents/risk_mgmt/exit_bars.js:132-241 | The bar loop computes the walk that the lemmas below are about, for every sequence, rule set and stored best price. |
| `ExitLaws.LevelsMean` | src/agents/risk_mgmt/exit_bars.js:86-95 | The stop lies where the gross return is exactly minus the stop percentage and the target where it is exactly the target percentage, for a long and for a short. |
| `ExitLaws.StopMeans` | src/agents/risk_mgmt/trailing.js:66-100 | The stop a bar is judged by gives up least of those offered at the best price so far: the initial one, break-even, which pays for both trades, once its trigger was gained, and the trail, its gap behind the best price, once activated; without rules it is the static stop. |
| `ExitLaws.TargetMeans` | src/agents/risk_mgmt/exit_bars.js:194-196 | The target stands unless the trail is the stop in force and the policy lets winners run. |
| `ExitLaws.SplitMeans` | src/shared/split_guard.js:33-44 | A jump is suspected exactly when the guard is on and the price lies within the tolerance of the entry times or divided by 2, 3, 4, 5 or 10. |
| `ExitLaws.BarMeans` | src/agents/risk_mgmt/exit_bars.js:149-239 | What one bar does: an invalid one only counts, one that looks split halts, one whose range reached the stop in force or the target exits, at the level or the open beyond it, the stop first except on a daily bar that opened nearer to the target under that policy; any other lets the walk go on. |
| `ExitLaws.StaticWalkMeans` | src/agents/risk_mgmt/exit_bars.js:10-31 | Without trailing the walk exits at the first bar whose range reaches minus the stop percentage or the target percentage; a stop is booked at exactly minus its percentage, or worse when the bar opened beyond it, a target at exactly its percentage, or better. |
| `ExitLaws.ExitRecords` | src/agents/risk_mgmt/exit_bars.js:39-49 | An exit records on its own side the worse, or better, of what came before, nothing and the fill, and on the other side the whole bar. |
| `ExitLaws.PeakMeans` | src/agents/risk_mgmt/trailing.js:102-107 | The best price an open walk has reached is the best of its start, the entry and the ends of its valid bars. |
| `ExitLaws.StartMeans` | src/agents/risk_mgmt/exit_bars.js:146-147 | A walk starts from the stored best price while rules are in force and that is a price, and else from none. |
| `ExitLaws.CountsMean` | src/agents/risk_mgmt/exit_bars.js:149-186 | What an open walk counted: all bars, the invalid ones, the close time of the last bar and the last valid close. |
| `ExitWalk.WalkConcat` | src/agents/risk_mgmt/exit_bars.js:132-241 | Walking on after bars without an exit is one walk over both. |
| `ExitWalk.ExitIsTradable` | src/agents/risk_mgmt/exit_bars.js:10-49 | An exit is at the first bar that gives one, judged by the stop the bars before it had ratcheted: at the level, or at the open exactly when the bar opened past it; within the bar, never better than the stop nor worse than the target, stop before target, stamped with the bar's close, and its excursion capped at the fill. |
| `ExitWalk.ExcursionsAreTheExtremes` | src/agents/risk_mgmt/exit_bars.js:39-49 | While no exit fires the excursions recorded are the true extremes of the valid bars walked: they bound every bar and some bar attains each. |
| `ExitLaws.ExcursionsMean` | src/agents/risk_mgmt/exit_bars.js:39-49 | They are the least and the greatest gross return at any end of a valid bar, whatever the direction. |
| `ExitWalk.FirstTouchExits` | src/agents/risk_mgmt/exit_bars.js:10-18 | Without trailing the walk exits at the first bar that touches a level before any suspected split, and stops before a split that comes first. |
| `HoldTime.TradingDaysBetween` | src/agents/risk_mgmt/exit.js:65-76 | Counts the hold days after the opening day, weekends skipped unless the ticker trades every day. |
| `HoldTime.HoldDaysMean` | src/agents/risk_mgmt/exit.js:65-76 | The hold days are the days after the opening day that are no Saturday or Sunday, or all of them for a ticker that trades every day. |
| `HoldTime.UsableLimits` | src/agents/risk_mgmt/exit.js:65-76 | Limits from 1 to 1000 days are usable. |
| `HoldTime.TimeExitDueAt` | src/agents/risk_mgmt/exit.js:97-108 | The search loop for the due midnight; none for an unusable limit. |
| `HoldTime.DueIsTheFirstInstant` | src/agents/risk_mgmt/exit.js:88-108 | The due instant is exactly the first at which the hold rule holds, after the opening and at midnight. |
| `HoldTime.HoldStartIsFirst` | src/agents/risk_mgmt/exit.js:65-108 | The hold rule starts to hold at one instant and holds from then on, for any limit: a midnight after the opening, or the opening itself when the limit is not positive. |
| `BarFill.FindFirstBarOpenAtOrAfter` | src/graph/bar_fill.js:19-27 | Searches the window anchored at the given instant. |
| `BarFill.FindEntryFill` | src/graph/bar_fill.js:35-45 | Plain or confirmed fill over the window anchored at the decision. |
| `BarFill.FillIsFirstTradable` | src/shared/entry_timing.js:63-78 | A fill is the open of the first bar at or after the instant with a positive open, and none means there is none. |
| `BarFill.DeadlineStopMissesNothing` | src/shared/entry_confirmation.js:61-78 | Giving up at the first bar that closes at or past the deadline misses nothing: a bar is found iff some bar confirms before it, and it is the earliest. |
| `BarFill.ConfirmedEntryMeans` | src/graph/bar_fill.js:35-45 | A confirmed entry in numbers: the first bar that opened at or after the decision, closed before the deadline and closed at or above the reference price times one plus the move for a long, at or below it times one minus the move for a short; it fills at the first usable open at or after that bar's close, and without such a bar not at all. |
| `BarFill.PlainEntryMeans` | src/shared/entry_timing.js:63-78 | A decision without usable confirmation numbers fills at the first usable open since it was taken. |
| `BarFill.WaitingTimes` | src/shared/entry_confirmation.js:22-34 | A stale-price entry waits five days; a confirming one its hours when they lie between 1 and 72, else six. |
| `BarFill.ConfirmationIsRecorded` | src/shared/entry_confirmation.js:68-76 | The search records the confirming bar's close, kind and move on the reference price in the decided direction. |
| `BarFill.EntryExtends` | src/shared/entry_confirmation.js:12-17 | A fill found on a sequence is the fill on every longer one. |
| `EntryFill.DeadlinesAreStored` | src/graph/pipeline.js:322-345 | Every deadline stored with a decision, plain or confirmed, whatever the configured hours, lies within the waiting time of it. |
| `EntryFill.FoundFillIsStable` | src/graph/bar_fill.js:19-45 | An in-time fill found at one tick is found identically at every later tick, cut-off reads included. |
| `EntryFill.DecidesOnEverything` | src/graph/entry_fill.js:61-90 | A tick decides as it would had it read every bar, whatever was cut off. |
| `EntryFill.FoundFillSurvivesIff` | src/graph/bar_fill.js:19-45 | Were there no deadline: a later tick whose intraday read is cut off keeps a fill iff the read still reaches the fill's opening. |
| `EntryFill.IntradayFillSurvives` | src/graph/bar_fill.js:19-45 | Were there no deadline: a fill at an intraday bar survives every later tick, cut off or not. |
| `EntryFill.FillIsKnowable` | src/graph/bar_fill.js:15-18 | A fill's bar opened after the decision and had closed by the tick. |
| `EntryFill.ScheduleDoesNotDecide` | src/graph/entry_fill.js:67-90 | Whatever the ticks and their cut-off reads, a decision ends as the last tick alone would decide, provided its fill's bar does not straddle the deadline. |
| `EntryFill.ScheduleShowsIff` | src/graph/entry_fill.js:67-90 | Every schedule up to a last tick decides alike exactly when the fill's bar does not straddle the deadline. |
| `EntryFill.StraddlingFillDependsOnTheTick` | src/graph/entry_fill.js:67-90 | If it does, a tick at the deadline expires what a later tick alone fills. |
| `EntryFill.TickDecidesListedRows` | src/graph/entry_fill.js:61-90 | A tick changes only the first page of rows that wait and were decided by then: one is committed at its fill when that opened before the deadline, expired when it did not and the deadline has passed or is unusable, and else stays; every other row stays. |
| `EntryFill.ReportTells` | src/graph/entry_fill.js:61-156 | The report names exactly the rows that were committed and those that expired, and counts the others it looked at. |
| `EntryFill.PendingTable.FillPendingEntries` | src/graph/entry_fill.js:61-156 | The tick loop over the table: rows and report are those of the per-row decisions, oldest first, a page at most. |
| `ExitCheck.PositionStore.ClosePosition` | src/storage/run_store.js:113-119 | Closes an open row and says so; a closed one stays. |
| `ExitCheck.PositionStore.RecordPositionExcursionRange` | src/storage/run_store.js:157-171 | Folds a window's extremes into an open row, each with the entry as baseline; writing only on change alters nothing. |
| `ExitCheck.PositionStore.AdvancePositionCheck` | src/storage/run_store.js:180-200 | Moves an open row's cursor forward only, and with it the mark and, per direction, the best price. |
| `ExitCheck.PositionStore.CheckPosition` | src/graph/exit_check.js:197-309 | One row's check in statement order: walk, record, then a price exit, a due time exit, or the cursor. |
| `ExitCheck.CheckOpenPositionExits` | src/graph/exit_check.js:177-313 | A check does to each listed row exactly its own check and to no other row anything, and reports the rows it closed. |
| `ExitCheck.ClosedForGood` | src/graph/exit_check.js:8-13 | A closed row is never written again. |
| `ExitCheck.WalkMeans` | src/graph/exit_check.js:195-202 | The check's walk reads from the last check or else the opening, up to the due instant once that has passed and else to now, with the row's own terms, rules and best price; there is none without levels or a start. |
| `ExitCheck.CheckKeeps` | src/graph/exit_check.js:177-313 | A check never writes what a position fixed at its opening, and nothing at all of a row not open. |
| `ExitCheck.CheckRecords` | src/graph/exit_check.js:231-235 | The row's excursions become the extremes of the stored ones, the walked ones and the entry. |
| `ExitCheck.CheckCloses` | src/graph/exit_check.js:146-300 | How a check closes a row: at the walk's exit; else, the hold over, without a price after a suspected split, at the first tradable open since it fell due, or, five days late or with no due instant, at the current price; a price that looks split is left out; in any other case the row stays open. |
| `ExitCheck.DueFillMeans` | src/graph/exit_check.js:146-153 | The fill of a due time exit is the first tradable open since it fell due. |
| `ExitCheck.CheckMoves` | src/graph/exit_check.js:302-309 | A row left open moves its cursor to the last bar walked, never back, and with it takes over the last price and a better best price. |
| `ExitCheck.CurrentPriceMeans` | src/graph/price_resolution.js:54-67 | The current price is the close of the newest five-minute bar if that closed within five days, else of the newest day before today. |
| `ExitSchedule.ResumedWalk` | src/agents/risk_mgmt/exit_bars.js:132-241 | A walk started afresh where another stood ends alike: same exit or split, and the extremes of both together are the unbroken walk's. |
| `ExitSchedule.HandOff` | src/graph/exit_check.js:302-309 | What the next check starts from resumes what this one reached. |
| `ExitSchedule.CheckBeforeDue` | src/graph/exit_check.js:177-313 | A check before the due instant, even one whose read was cut off, changes nothing of what a later check finds. |
| `ExitSchedule.CheckAfterDue` | src/graph/exit_check.js:273-300 | A check at or after it closes for good or waits without losing anything. |
| `ExitSchedule.ScheduleIsOneCheck` | src/graph/exit_check.js:15-45 | Checks on any schedule, some cut off at the cap, leave a position whose closing's time cannot show as one late check that reads every bar would: same closing, same extremes, and while open the same row. |
| `ExitSchedule.SchedulesAgreeIff` | src/graph/exit_check.js:195-309 | Every schedule ending in a check that reads every bar leaves the same outcome exactly when the closing's time cannot show: no time exit yet, or the price exit comes first, or no suspected split stops the walk and the due exit fills within its waiting time. |
| `ExitSchedule.SchedulesAgree` | src/graph/exit_check.js:15-45 | For such a position any two schedules with the same last check, and that check alone, agree. |
| `ExitSchedule.ExitIsKnowable` | src/graph/exit_check.js:21-25 | No check writes anything of its own future, and a price exit lies after the row's cursor. |
| `ExitSchedule.BestPriceIsHandedOnIff` | src/storage/run_store.js:180-200 | The best price handed on is the one walked exactly when that is positive. |
| `ExitExamples.LateClosingTellsTheCheck` | src/graph/exit_check.js:146-162 | A ticker without bars closes with the time of the check that gave up, so schedules differ there. |
| `ExitExamples.SplitClosingTellsTheCheck` | src/graph/exit_check.js:146-162 | So does a position whose walk stopped at a suspected split: checked a day apart it closes at different times. |
| `ExitExamples.LowBelowZeroIsForgotten` | src/storage/run_store.js:180-200 | A short whose low fell below zero forgets it between checks: one walk goes on, the walk from the stored best price exits. |
| `ExitCutoff.CutWalkClosesByTime` | src/graph/exit_check.js:195-300 | At the due instant a cut-off walk that finds nothing lets the time exit win over a price exit in the part not read. |
| `ExitCutoff.CutCheckAgreesIff` | src/graph/exit_check.js:195-300 | Once the hold is over, a check whose reads were cut off closes as one that reads every bar exactly when the bar the whole walk ends at was still read (or, at an unread split, no price is to be had anyhow), and otherwise when the first tradable bar since the due instant was. |
| `ExitCutoff.CutReadMissesTheStop` | src/graph/exit_check.js:195-300 | It happens: 6001 bars before the due instant, the last one through the stop, close by time. |
| `Equity.ReplayDay` | src/backtest/equity.js:254-305 | One grid date over all positions, records updated in place: the day's profit and invested sum are those of the positions' own moves. |
| `Equity.OnEquityReturns` | src/backtest/equity.js:217-308 | The nested replay: daily returns, exposure, positions traded and ignored. |
| `Equity.OffEquityReturns` | src/backtest/equity.js:164-182 | The buy-and-hold loop. |
| `EquityLaws.LedgerStep` | src/backtest/equity.js:259-299 | A date moves a position's value and costs by exactly the gain and cost it reports, and past the close realizes and charges once. |
| `EquityLaws.CostsAreChargedOnce` | src/backtest/equity.js:269-290 | Over any dates a position's costs are one entry cost on its allocation and at most one exit cost on its last value. |
| `EquityLaws.EquityIsConserved` | src/backtest/equity.js:253-307 | At every date equity is 1 plus, over the positions sized, last value less allocation less costs charged. |
| `EquityLaws.RealizedContribution` | src/backtest/equity.js:260-290 | A realized position has added exactly allocation times (gross (1 - c) - 2c): its recorded net return less c times its gross return. |
| `EquityValues.HeldStands` | src/backtest/equity.js:254-299 | A position's record after any number of dates: nothing before it is first held; then a share of the equity before that date, and that size times one plus the gross return to the last close it was held at, or to its exit price once it has ended; a short worth nothing at worst. |
| `EquityValues.ContributionMeans` | src/backtest/equity.js:254-299 | What any position has added: its size times its gain, less one entry cost, less an exit cost on its worth once it has ended. |
| `EquityValues.OpenContribution` | src/backtest/equity.js:292-299 | A position still open has added its size times its gross return to the last close, a short losing its whole size at worst, less one entry cost. |
| `EquityValues.SeriesMean` | src/backtest/equity.js:302-306 | Each date's return takes the equity to its next value and its exposure is the share of it held; both are missing exactly when it started from nothing. |
| `EquityValues.InvestedMeans` | src/backtest/equity.js:283-299 | A position's part of what is held on a date: its value when the date began, on its first date its size, nothing when idle. |
| `EquityValues.TradedMeans` | src/backtest/equity.js:283-288 | The positions counted as traded are those held on some date. |
| `EquityValues.ReplayableMean` | src/backtest/equity.js:224-236 | The positions replayed are those on a scored ticker with a direction, an entry price and a size. |
| `EquityValues.HoldMeans` | src/backtest/equity.js:164-182 | Buying and holding is worth the mean of the closes over what they cost, less one entry cost. |
| `EquityValues.PricesAdd` | src/backtest/equity.js:164-182 | The sum adds up over the tickers, one ticker's part times what it cost being its close. |
| `EquityLaws.ScoreIsCausal` | src/backtest/equity.js:21-32 | Equity, returns and exposure up to a date are those of the positions as known then: later openings removed, later exits erased. |
| `EquityLaws.TruncatedReplayIsPrefix` | src/backtest/equity.js:317-324 | Replaying on a truncated grid gives exactly the first part of the full replay. |
| `PriceGrid.ForwardFill` | src/backtest/equity.js:105-113 | A column prices every grid date by the last bar up to it, or by the basis before the first. |
| `PriceGrid.UnionDates` | src/backtest/equity.js:99-101 | The grid's dates are those of the fit tickers' bars in the span, in order. |
| `PriceGrid.FillTicker` | src/backtest/equity.js:105-113 | A fit ticker's column prices every date by its bars, and its basis is the first price it pays on. |
| `PriceGrid.BuildPriceGrid` | src/backtest/equity.js:79-151 | The grid holds exactly the tickers fit to score, the union of their dates in order, and for each a full column and the entry price the buy-and-hold side pays; the others are listed with their problem, none exactly when all are fit. |
| `PriceGrid.CoverageMeans` | src/backtest/equity.js:119-151 | What makes prices fit: a bar within the gap of the span's start, one within the gap of its end, no two neighbours further apart; otherwise the first of these that fails is the problem, with the distance found. The basis is the last bar before the span when that is near, and else the first in it. |
| `PriceGrid.PricesAreNear` | src/backtest/equity.js:62-78 | No grid price is far from its date: it is the ticker's latest bar's, at most the gap old, or of a later bar at most the gap ahead, and then none of the span's bars is earlier. |
| `PriceGrid.LaterPriceIff` | src/backtest/equity.js:119-151 | A date is priced by a later bar exactly when the ticker has no bar on it or within the gap before it. |
| `PriceGrid.PricedByALaterBar` | src/backtest/equity.js:62-78 | A ticker whose first bar is on day 2 of the span is priced with that close on day 0. |
| `Scoring.OnCompounds` | src/backtest/metrics.js:11-13 | Compounding the signal's returns gives its final equity. |
| `Scoring.OffCompounds` | src/backtest/metrics.js:11-13 | Compounding the buy-and-hold returns gives mean price over entry price, less one entry cost. |
| `Scoring.MaxDrawdown` | src/backtest/metrics.js:48-58 | The running-peak loop. |
| `Scoring.DrawdownIsTheWorstFall` | src/backtest/metrics.js:43-58 | While no day loses more than everything, the result bounds every fall between two moments of the curve, and one fall is exactly that. |
| `Scoring.SlicesJoin` | src/backtest/equity.js:327-331 | Slices of windows that meet join to the slice of both. |
| `Scoring.SliceMeans` | src/backtest/equity.js:327-331 | A slice is the stretch of values dated from the first bound on and before the second. |
| `Scoring.CompareMeans` | src/backtest/signalCompare.js:40-53 | A comparison's returns are the growth less 1, its drawdowns the worst falls, and its differences how much more the signal returned and how much less it fell. |
| `Scoring.CompareSignalOnOffByWindow` | src/backtest/signalCompare.js:66-91 | Each window is compared on its own slice, and the pooled comparison is that of the windows' whole span. |
| `Scoring.SpanMeans` | src/backtest/runBacktest.js:223-228 | The span runs from the end of the first training stretch over the test lengths. |
| `Scoring.PooledReturnIsFinalEquity` | src/backtest/signalCompare.js:76-90 | Over a span holding the whole grid the pooled return is final equity less 1, and (1 - c) times the mean of last price over entry, less 1. |
| `RunScore.OnIsNumbers` | src/backtest/equity.js:253-307 | The signal side's returns are all numbers exactly when no day starts from an equity of nothing. |
| `RunScore.OffIsNumbers` | src/backtest/equity.js:164-182 | The buy-and-hold side's are exactly unless its entry cost took everything and there is a second day. |
| `RunScore.ScoreRun` | src/backtest/runBacktest.js:393-440 | The score phase: refused exactly for unfit prices, else scored on the grid of the tickers' own bars cut to the test windows' span, with each window compared on its own dates; the pooled return is exactly the net contributions of the positions, and for holding (1 - c) times the mean of last price over entry, less 1. |
| `RunScore.SpanOfTerms` | src/backtest/runBacktest.js:223-228 | The scored span runs from the day of the first test start, the training days after the start, over whole test lengths. |
| `CooldownMap.Wrapper.Load` | src/shared/cooldown_map_kv.js:88-92 | Keeps a usable cached map, else reads the stored one once and drops what is garbled or over. |
| `CooldownMap.Wrapper.Persist` | src/shared/cooldown_map_kv.js:94-108 | Drops what is over and writes the rest with the time to live of its longest entry. |
| `CooldownMap.Wrapper.Get` | src/shared/cooldown_map_kv.js:111-118 | Answers from the cached map; an exclusive writer's get is a step of the map protocol. |
| `CooldownMap.Wrapper.Put` | src/shared/cooldown_map_kv.js:120-126 | Adds an entry to the cache, or without exclusivity to a fresh read, and writes the map back. |
| `CooldownMap.Wrapper.Delete` | src/shared/cooldown_map_kv.js:128-133 | Removes an entry likewise. |
| `CooldownMap.MapOutlivesItsEntries` | src/shared/cooldown_map_kv.js:94-108 | The written map never expires before an entry it holds. |
| `CooldownMap.MapExpiryMeans` | src/shared/cooldown_map_kv.js:94-108 | The written map lasts until its longest entry's end in whole seconds, at least a minute, and for ever when an entry never ends. |
| `CooldownMap.ParseMeans` | src/shared/cooldown_map_kv.js:66-85 | A stored text holds its usable pairs that are not over; nothing when it is missing or unreadable. |
| `CooldownMap.UndatedCooldown` | src/shared/cooldown.js:74-92 | A text that is no cooldown's, or a per-minute one without its end, is in force with nothing known of its end. |
| `CooldownMap.StepRefines` | src/shared/cooldown_map_kv.js:59-137 | One operation answers as an independent expiring-key store does and keeps map, cache and store in agreement at every later time. |
| `CooldownMap.MapAnswersAsTheStore` | src/shared/cooldown_map_kv.js:59-137 | Over any run of operations by any number of successive invocations the answers are exactly the independent store's, with at most one read of the map per invocation. |
| `CooldownMap.FreshMapAnswersAsTheStore` | src/shared/cooldown_map_kv.js:59-137 | From an empty namespace the answers of any run are the independent store's from its own empty start, with at most one read per invocation. |
| `CooldownMap.SharedWritesKeepOthers` | src/shared/cooldown_map_kv.js:120-133 | Without exclusivity a write keeps every cooldown recorded by others, whatever its own cache held. |
| `CooldownMap.CachedAnswerIsThatOfItsLoad` | src/shared/cooldown_map_kv.js:88-118 | An answer from a cached copy is what the store would give had nothing been written since it was loaded. |
| `CooldownMap.CooldownHoldsForItsTime` | src/shared/cooldown.js:74-102 | A cooldown set holds for exactly the whole seconds asked for, a minute when asked for less or for nothing, keeps its kind, and reports no less than what is left and no second more beyond a minute. |
| `QueueChunks.ChunkQueueMessages` | src/ingestion/enqueue.js:30-46 | The chunks joined are the messages in order, each is a single message or within both limits, and no other such cut has fewer chunks. |
| `QueueChunks.SendEach` | src/ingestion/enqueue.js:58-74 | Every chunk is attempted: what is counted as sent is what was accepted, and the failures are the refused chunks in order. |
| `QueueChunks.FillingIsShortest` | src/ingestion/enqueue.js:30-46 | The greedy cut stays ahead of every other cut. |
| `QueueChunks.SendInChunks` | src/ingestion/enqueue.js:58-74 | Every chunk is attempted; sent and failed messages together are all of them. |
| `QueueChunks.RefusedMeans` | src/ingestion/enqueue.js:58-74 | The refused chunks are those not accepted, and no message is lost between the two. |
| `DateWindows.BuildWindows` | src/ingestion/date_windows.js:40-52 | The window loop; fails for a size below one day. |
| `DateWindows.WindowsTileTheRange` | src/ingestion/date_windows.js:34-52 | Every day of the range lies in exactly one window, in order, each of exactly the size but the last, which is no longer. |
| `DateWindows.ContinueFromWindow` | src/ingestion/ingest.js:370-373 | Cutting again from where a window starts gives that window and all that follow. |
| `DateWindows.SplitWindow` | src/ingestion/date_windows.js:55-62 | Two halves that meet, together are the window and differ by at most a day; fails on one day. |
| `NewsBackfill.SplittingLosesNothing` | src/ingestion/sources/finnhub.js:286-341 | With a vendor that answers uncapped spans in full, splitting gathers every article of the window unless a single day is capped. |
| `NewsBackfill.FetchSpanMeans` | src/ingestion/sources/finnhub.js:286-341 | What a fetch of a span comes to: a failed answer counts one error, one below the threshold is taken, a capped single day is taken and counted, any other is thrown away and both halves fetched; each ask costs a request a symbol. |
| `NewsBackfill.FetchAllMeans` | src/ingestion/ingest.js:456-467 | Fetching for several tickers gathers what fetching for each does. |
| `NewsBackfill.MergeDuplicateItems` | src/ingestion/ingest.js:119-130 | One entry per article, carrying the union of its tickers. |
| `NewsBackfill.SaveItems` | src/ingestion/ingest.js:474-482 | Chunked saving keeps every stored row, adds exactly the articles not stored yet, each with its tickers, and counts them. |
| `NewsBackfill.SaveWindow` | src/ingestion/ingest.js:440-484 | One window is fetched for every ticker, merged and saved, with its counts. |
| `NewsBackfill.BackfillHistoricalNews` | src/ingestion/ingest.js:384-492 | A call does a first part of the windows, at least one, stops exactly at the first boundary where the articles stored reach their limit or the requests of one more window would pass theirs, and names the next window's first day. |
| `NewsBackfill.ReportsRise` | src/ingestion/ingest.js:375-383 | Progress never goes back, stays within the range, and ends where the next part starts. |
| `NewsBackfill.DaysDoneMeans` | src/ingestion/ingest.js:375-383 | Days count from the start of the range, none before it and none past its end. |
| `NewsBackfill.StoreGainsFetched` | src/ingestion/ingest.js:450-487 | The store keeps every row and gains exactly the ids the windows fetched. |
| `NewsBackfill.RunBackfill` | src/ingest-worker.js:210-274 | A chain of parts that completes has stored and counted exactly what one unbounded call would; one that gives up at the parts cap has done at least that many windows. Progress never goes back. |
| `IntradayBackfill.BackfillJob.Prepare` | src/ingestion/intraday_backfill.js:374-384 | Every ticker seeded and its incomplete days re-opened, on the table in place. |
| `IntradayBackfill.BackfillJob.RunTick` | src/ingestion/intraday_backfill.js:368-443 | One tick over all tickers, ended by a crash where it happens. |
| `IntradayBackfill.ClaimIsTheOldestRun` | src/ingestion/intraday_backfill.js:253-277 | A claim is the longest run of consecutive eligible days from the oldest one, cut at the batch size; empty only when none is eligible. |
| `IntradayBackfill.SeededMeans` | src/ingestion/intraday_backfill.js:104-136 | Seeding keeps every row and adds a waiting one for today, and for a ticker without any row for each look-back day, exactly where there was none. |
| `IntradayBackfill.EligibleMeans` | src/ingestion/intraday_backfill.js:253-264 | Waiting and failed days can be claimed, done ones never, and those in progress exactly once they are stale. |
| `IntradayBackfill.BatchSizeMeans` | src/ingestion/intraday_backfill.js:253-264 | A claim takes the whole number of days asked for, and one when that is less than one or not given. |
| `IntradayBackfill.WorkedMeans` | src/ingestion/intraday_backfill.js:273-293 | A tick stamps the days it claimed and leaves them done, failed, or, when it died, in progress; all other rows stay. |
| `IntradayBackfill.FilledMeans` | src/ingestion/intraday_backfill.js:388-440 | A tick works the tickers in turn, each from its own rows, up to and including the first that ends it. |
| `IntradayBackfill.ReopenedIff` | src/ingestion/intraday_backfill.js:145-172 | A done day is re-opened iff it is recent, was not claimed just now, and was fetched before it was over; one left incomplete beyond the look-back never is. |
| `IntradayBackfill.HalfDayIsLeft` | src/ingestion/intraday_backfill.js:145-172 | A day claimed at its noon and not looked at for fifteen days stays done and half fetched after any tick. |
| `IntradayBackfill.SettledDaysStay` | src/ingestion/intraday_backfill.js:145-152 | A day fetched after it was over is never re-opened, claimed or changed by any tick, whatever its outcome. |
| `IntradayBackfill.EachSuccessSettlesDays` | src/ingestion/intraday_backfill.js:388-440 | Claiming and marking never raise a ticker's number of unsettled past days, and lower it when they store a past day. |
| `IntradayBackfill.PreparingCounts` | src/ingestion/intraday_backfill.js:104-173 | Seeding and re-opening leave the number of a ticker that has rows; a new ticker starts with its whole look-back unsettled. |
| `IntradayBackfill.TickSettlesDays` | src/ingestion/intraday_backfill.js:368-443 | A whole tick never raises the number of unsettled past days of a ticker that has rows, and lowers it when it gets to that ticker and stores past days; a new ticker ends its first tick owing at most its look-back. |
| `IntradayBackfill.PastDaysComeFirst` | src/ingestion/intraday_backfill.js:176-182 | While a past day is eligible a claim starts with one. |
| `IntradayBackfill.ReopeningCountsTheSame` | src/ingestion/intraday_backfill.js:154-173 | Re-opening changes no day's settledness. |

## Left out

- Model calls, prompts and schemas: each stage's output is a given value of the store it reads.
- Platform duplicate delivery after an ack, and swallowed registry write failures: excluded, the single-token claim
  does not survive them; job progress, cleanup of a failed run's data, checkpoint seeding and the ledger's own writes.
- SQL text, indexes, JSON and ISO strings: tables are maps and ordered sequences, timestamps integers, a stored stamp
  is absent, garbled or an instant.
- The walk's store is passed as a value, so one part's writes are seen only by its own later units; commits inside the
  portfolio stage are one step.
- BacktestRun.RunManualBacktest: ends at the walk's result, the coverage answer and whether scoring starts; the score
  itself is `RunScore.ScoreRun`, the stored result row is not modelled. A test length of 0 days, on which the window
  generator does not end, is excluded.
- RunChain.RunAllParts: an item's id names one item, and the news table only grows from part to part: no retention
  purge removes an item while the run lasts.
- PriceGrid.BuildPriceGrid: a problem's text; it is one of four kinds here, a hole without its dates.
- Displayed percent during a backtest: it can step back at a hand-over; the step counter is proved instead.
- Budget counters that are never enforced (rows read, rows written, model counts) and their snapshot.
- RunScore.ScoreRun: the gross curves, the counts of open trades and the per-trade gate statistics of the same phase
  are not in the result. The coverage check and the scoring read the same bars; a later part of the original reads
  them again without the check.
- SignalWalk.WalkItem: an item's failure other than unusable output, a halted budget or a vendor outage ends the walk;
  the original's error classes beyond these are one class here.
- WalkStore.ReplayMeans: from a store without a checkpoint at the first stage; the pipeline never writes one, and keeps
  it so.
- ExitSchedule.BestPriceIsHandedOnIff: exact at one hand-over; over whole schedules prices are taken as positive.
- ExitSchedule.ScheduleIsOneCheck: assumes positive prices, bars on the five-minute grid, and whole reads at and after
  the due instant; each assumption has its counterexample in the list above.
- ExitCutoff.CutCheckAgreesIff: about the closing; the price walk's own window is at most the daily cap of days.
- EntryFill.FoundFillSurvivesIff: concerns `findEntryFill` without its deadline; with a stored deadline no fill is
  lost.
- Settling a closed position, reflections, excursions recorded before a flip or replacement, and log lines of the exit
  check.
- A position whose opening time cannot be parsed is listed as already open; the original compares the raw strings.
- EntryFill.PendingTable.FillPendingEntries: the commit's own guards (held, rejected, superseded) and the flip of an
  existing position are one status, committed at the fill; the confirmation note written beside it is not modelled.
- Scoring.CompareSignalOnOffByWindow: Sharpe ratio, mean and win rate, plain summaries of the same series.
- Scoring.PooledReturnIsFinalEquity: takes the span and finite returns as given; `RunScore.ScoreRun` supplies both.
- Equity.OnEquityReturns: a return with zero equity before it is None; the original yields an infinity or NaN.
- CooldownMap: one clock reading per operation; number formatting of the stored texts; keys outside the cooldown
  prefix pass through unchanged.
- NewsBackfill: the order in which one window's articles are saved, request throttling, and the vendor beyond its
  answers per ticker and span; articles carry an id and tickers only.
- IntradayBackfill: bars themselves, vendors, notes on rejected bars, and two ticks at once.
- QueueChunks: a message's serialized size is given.
- Dashboard, sessions, configuration parsing, entity resolution, feed parsing, news replay, retention purges.
