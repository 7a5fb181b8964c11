/**
 * One backtest run as a chain of parts (src/backtest/runBacktest.js): each part walks windows until its
 * budget or the vendor stops it, and hands a cursor with its counters to the next part.
 */
module BacktestRun {
  import opened Calendar
  import opened Collections
  import opened Budget
  import opened Pipeline
  import opened SignalWalk
  import opened WalkOrder
  import opened RunOrder
  import opened WalkForward

  const MAX_IDLE_PARTS_IN_A_ROW := 1000

  /** What a run was asked for and the caps it runs under (`maxParts` None: no cap). */
  datatype RunParams = RunParams(
    tickers: seq<string>, testStart: int, testEnd: int, trainDays: nat, testDays: Option<nat>,
    graceDays: Option<nat>, maxHoldDays: int, maxStalls: nat, transientPauseSeconds: nat, maxParts: Option<nat>)

  function ResolvedTestDays(p: RunParams): int {
    if p.testDays.Some? then p.testDays.value else (p.testEnd - p.testStart + DAY_MS - 1) / DAY_MS
  }

  /** The walk of test window `t`: only the last one gets a grace tail, clamped to the pinned clock. */
  function WalkWindow(p: RunParams, now: int, t: TestWindow, isLast: bool): Window {
    var grace := if !isLast then Some(0) else if p.graceDays.Some? then Some(p.graceDays.value as int) else None;
    Window(p.tickers, t.testStart, t.testEnd, ComputeWalkEnd(t.testEnd, grace, p.maxHoldDays, Some(now), isLast),
           isLast)
  }

  function PlanOf(p: RunParams, now: int, ts: seq<TestWindow>): (ws: seq<Window>)
    ensures |ws| == |ts|
  {
    seq(|ts|, k requires 0 <= k < |ts| => WalkWindow(p, now, ts[k], k == |ts| - 1))
  }

  function PlanWindows(p: RunParams, now: int): seq<Window>
    requires ResolvedTestDays(p) >= 1
  {
    PlanOf(p, now, Windows(p.testStart, p.testEnd, p.trainDays, ResolvedTestDays(p)))
  }

  /** The checks a run must pass before it walks, besides price coverage. */
  predicate Sound(p: RunParams, now: int) {
    && p.testEnd <= now && p.testStart < p.testEnd
    && ResolvedTestDays(p) >= 1
    && PlanWindows(p, now) != []
  }

  /**
   * The windows a run walks, in numbers: tests of the length asked for, or of the whole span rounded up to days, back
   * to back from the end of the first training stretch, each walked to a day before its end and the last one to the end
   * of its grace or to now.
   */
  lemma PlanMeans(p: RunParams, now: int, k: nat)
    requires ResolvedTestDays(p) >= 1 && k < |PlanWindows(p, now)|
    ensures var n := ResolvedTestDays(p);
            if p.testDays.Some? then n == p.testDays.value
            else (n - 1) * 86_400_000 < p.testEnd - p.testStart <= n * 86_400_000
    ensures var ws, n := PlanWindows(p, now), ResolvedTestDays(p);
            var w := ws[k];
            && w.tickers == p.tickers && (w.isLast <==> k == |ws| - 1)
            && w.testStart == (if k == 0 then p.testStart + p.trainDays * 86_400_000 else ws[k - 1].testEnd)
            && w.testEnd == w.testStart + n * 86_400_000 <= p.testEnd
            && (w.isLast ==> w.testEnd + n * 86_400_000 > p.testEnd)
            && (if w.isLast then
                  var days := if p.graceDays.Some? then p.graceDays.value else CalendarDaysCovering(p.maxHoldDays);
                  var end := w.testEnd + days * 86_400_000;
                  w.walkEnd <= end && w.walkEnd <= now && (w.walkEnd == end || w.walkEnd == now)
                else w.walkEnd == w.testEnd - 86_400_000)
  {
    var n := ResolvedTestDays(p);
    var ts := Windows(p.testStart, p.testEnd, p.trainDays, n);
    assert ts[k] == WindowAt(p.testStart, p.trainDays, n, k) && ts[k].testEnd <= p.testEnd;
    if k > 0 {
      assert ts[k - 1] == WindowAt(p.testStart, p.trainDays, n, k - 1);
      Grows(n, k - 1);
    }
    Grows(n, k);
    assert WindowAt(p.testStart, p.trainDays, n, |ts|).testEnd > p.testEnd;
  }

  lemma PlanIsConsecutive(p: RunParams, now: int)
    requires Sound(p, now)
    ensures Consecutive(PlanWindows(p, now))
    ensures forall k :: 0 <= k < |PlanWindows(p, now)| ==>
              Days(PlanWindows(p, now)[k]) != [] && PlanWindows(p, now)[k].tickers == p.tickers
  {
    var n := ResolvedTestDays(p);
    var ts := Windows(p.testStart, p.testEnd, p.trainDays, n);
    var ws := PlanWindows(p, now);
    forall k | 0 <= k < |ws|
      ensures ws[k].testEnd == ws[k].testStart + n * DAY_MS && ws[k].testEnd <= p.testEnd
      ensures Days(ws[k]) != [] && ws[k].tickers == p.tickers
      ensures if ws[k].isLast then ws[k].walkEnd >= ws[k].testEnd else ws[k].walkEnd == ws[k].testEnd - DAY_MS
    {
      assert ts[k] == WindowAt(p.testStart, p.trainDays, n, k);
      assert ts[k].testEnd <= p.testEnd;
    }
    forall k | 0 < k < |ws| ensures ws[k].testStart == ws[k - 1].testEnd {
      assert ts[k] == WindowAt(p.testStart, p.trainDays, n, k)
             && ts[k - 1] == WindowAt(p.testStart, p.trainDays, n, k - 1);
      Grows(n, k - 1);
    }
  }

  // ---- The uninterrupted run ----------------------------------------------------------

  datatype RunEnd<B, D> = RunDone(st: RunState<B, D>) | RunBroken

  /** Windows `k`.. walked to the end from `at`, the grace days an early stop skips counted as done. */
  function RunWindows<B, D>(e: Engine<B, D>, ws: seq<Window>, news: News, k: nat, at: Option<Cursor>,
                            st: RunState<B, D>): RunEnd<B, D>
    requires forall j :: 0 <= j < |ws| ==> Days(ws[j]) != []
    requires k < |ws| && at.Some? ==> IsWalkDay(ws[k], at.value.day)
    decreases |ws| - k
  {
    if k >= |ws| then RunDone(st)
    else
      match Ahead(e, ws[k], news, Start(ws[k], at), st)
      case Broken => RunBroken
      case Done(st1, skippedDays) =>
        RunWindows(e, ws, news, k + 1, None, st1.(steps := st1.steps + skippedDays * |ws[k].tickers|))
  }

  /** The ticker-days of the windows before `k`. */
  function StepsBefore(ws: seq<Window>, k: nat): nat
    requires k <= |ws|
  {
    if k == 0 then 0 else StepsBefore(ws, k - 1) + |ws[k - 1].tickers| * |Days(ws[k - 1])|
  }

  function TotalSteps(ws: seq<Window>): nat {
    StepsBefore(ws, |ws|)
  }

  /** The ticker-days of its own window a cursor has behind it. */
  function StepsAt(w: Window, at: Option<Cursor>): int {
    if at.None? then 0 else |w.tickers| * DayIndex(w, at.value.day) + at.value.ticker
  }

  /** The ticker-days still ahead of a cursor. */
  lemma StepsFromCursor(w: Window, news: News, c: Cursor)
    requires Days(w) != [] && CursorOk(w, c)
    ensures CountSteps(UnitsAhead(w, news, c)) == |w.tickers| * |Days(w)| - StepsAt(w, Some(c))
  {
    StepsAhead(w, news, PlaceOf(w, c));
    StepSplit(|w.tickers|, |Days(w)|, DayIndex(w, c.day));
  }

  lemma StartIsThere(w: Window, at: Option<Cursor>)
    requires Days(w) != [] && (at.Some? ==> CursorOk(w, at.value))
    ensures CursorOk(w, Start(w, at)) && StepsAt(w, Some(Start(w, at))) == StepsAt(w, at)
  {
  }

  lemma PausedSteps<B, D>(e: Engine<B, D>, w: Window, news: News, at: Option<Cursor>, st0: RunState<B, D>,
                          st: RunState<B, D>, c: Cursor)
    requires Days(w) != []
    requires at.Some? ==> CursorOk(w, at.value)
    requires Continues(e, w, news, Start(w, at), st0, st, c)
    requires st.steps - CountSteps(st.trace) == st0.steps - CountSteps(st0.trace)
    ensures st.steps - st0.steps == StepsAt(w, Some(c)) - StepsAt(w, at)
  {
    hide Ahead, UnitsAhead, StepsAt, Start, CountSteps;
    var c0 := Start(w, at);
    StartIsThere(w, at);
    CountStepsConcat(st0.trace, UnitsAhead(w, news, c0));
    CountStepsConcat(st.trace, UnitsAhead(w, news, c));
    StepsFromCursor(w, news, c0);
    StepsFromCursor(w, news, c);
  }

  lemma SkippedSteps(w: Window, news: News, skippedDays: nat)
    requires skippedDays < |Days(w)|
    ensures CountSteps(EventsFrom(w, news, |Days(w)| - skippedDays, 0, None, false)) == skippedDays * |w.tickers|
  {
    hide CountSteps, EventsFrom, Days;
    var over := Place(|Days(w)| - skippedDays, 0, None, false);
    StepsAhead(w, news, over);
    assert UnitsFrom(w, news, over) == EventsFrom(w, news, over.i, over.ticker, over.after, over.exits);
    Commutes(|w.tickers|, skippedDays);
  }

  lemma Commutes(a: nat, b: nat)
    ensures a * b == b * a
  {
  }

  lemma CompletedSteps<B, D>(e: Engine<B, D>, w: Window, news: News, at: Option<Cursor>, st0: RunState<B, D>,
                             st: RunState<B, D>, skippedDays: nat)
    requires Days(w) != []
    requires at.Some? ==> CursorOk(w, at.value)
    requires Completes(e, w, news, Start(w, at), st0, st, skippedDays)
    requires st.steps - CountSteps(st.trace) == st0.steps - CountSteps(st0.trace)
    ensures st.steps + skippedDays * |w.tickers| - st0.steps == |w.tickers| * |Days(w)| - StepsAt(w, at)
  {
    hide Ahead, UnitsAhead, EventsFrom, StepsAt, Start, CountSteps;
    var c0 := Start(w, at);
    StartIsThere(w, at);
    CountStepsConcat(st0.trace, UnitsAhead(w, news, c0));
    CountStepsConcat(st.trace, EventsFrom(w, news, |Days(w)| - skippedDays, 0, None, false));
    StepsFromCursor(w, news, c0);
    SkippedSteps(w, news, skippedDays);
  }

  lemma StepSplit(t: nat, days: nat, i: nat)
    ensures t * (days - i) == t * days - t * i
  {
  }

  // ---- Parts --------------------------------------------------------------------------

  datatype Phase = Walking | Scoring

  /** The spot an outage stalls at: window, day, ticker and the last finished item's id. */
  datatype Spot = Spot(window: nat, day: int, ticker: nat, afterId: Option<int>)

  datatype Stall = Stall(spot: Spot, count: nat)

  function SpotOf(window: nat, c: Cursor): Spot {
    Spot(window, c.day, c.ticker, if c.after.Some? then Some(c.after.value.id) else None)
  }

  /** The stall record after one more outage pause at `spot`. */
  function NextStall(prev: Option<Stall>, spot: Spot): Stall {
    Stall(spot, if prev.Some? && prev.value.spot == spot then prev.value.count + 1 else 1)
  }

  datatype RunCursor = RunCursor(
    clockNow: int, phase: Phase, window: nat, walk: Option<Cursor>, stall: Option<Stall>,
    completed: nat, countedParts: nat, idleStreak: nat, skipped: nat)

  datatype Failure = FutureEnd | EmptySpan | NoWindow | NoCoverage | WalkFailed(fault: Fault)
                   | StalledOut(window: nat, at: Cursor) | TooManyParts | NoProgress

  datatype Outcome = RunComplete | Continue(cursor: RunCursor, reason: Reason, delaySeconds: nat, dailyQuota: bool)
                   | RunFailed(why: Failure)

  /**
   * A cursor some part of this run handed on: its walk day exists under its own pinned clock and its step count
   * is exact.
   */
  ghost predicate CursorFits(p: RunParams, c: RunCursor) {
    && Sound(p, c.clockNow)
    && var ws := PlanWindows(p, c.clockNow);
       if c.phase == Walking then
         c.window < |ws| && c.walk.Some? && CursorOk(ws[c.window], c.walk.value)
         && c.completed == StepsBefore(ws, c.window) + StepsAt(ws[c.window], c.walk)
       else
         c.window == |ws| && c.walk.None? && c.completed == TotalSteps(ws)
  }

  function CountedBefore(cursor: Option<RunCursor>): nat {
    if cursor.Some? then cursor.value.countedParts else 0
  }

  function IdleBefore(cursor: Option<RunCursor>): nat {
    if cursor.Some? then cursor.value.idleStreak else 0
  }

  /** Either a part counts toward the cap, or it is one more idle part in a row. */
  predicate CountsOn(p: RunParams, cursor: Option<RunCursor>, c: RunCursor) {
    && (p.maxParts.Some? ==> c.countedParts < p.maxParts.value)
    && (|| (c.countedParts == CountedBefore(cursor) + 1 && c.idleStreak == 0)
        || (c.countedParts == CountedBefore(cursor)
            && c.idleStreak == IdleBefore(cursor) + 1 <= MAX_IDLE_PARTS_IN_A_ROW))
  }

  /** Nothing this part did advanced the run: no unit, no fetch, no step. */
  predicate IdlePart<B, D>(budget: SubrequestBudget?, cursor: Option<RunCursor>, st: RunState<B, D>)
    reads budget
  {
    && budget != null && budget.unitsCompleted == 0 && budget.external == 0
    && st.steps == (if cursor.Some? then cursor.value.completed else 0)
  }

  predicate CapReached(p: RunParams, cursor: Option<RunCursor>, idle: bool) {
    p.maxParts.Some? && CountedBefore(cursor) + (if idle then 0 else 1) >= p.maxParts.value
  }

  /** Ends this part: the cursor for the next one, or a failed run when the parts or idle cap is hit. */
  method YieldPart<B, D>(p: RunParams, budget: SubrequestBudget?, cursor: Option<RunCursor>, next: RunCursor,
                         st: RunState<B, D>,
                         reason: Reason, delaySeconds: nat, dailyQuota: bool)
    returns (o: Outcome)
    ensures o in {RunFailed(TooManyParts), RunFailed(NoProgress)} || o.Continue?
    ensures o == RunFailed(TooManyParts) <==> CapReached(p, cursor, IdlePart(budget, cursor, st))
    ensures o == RunFailed(NoProgress) <==>
              !CapReached(p, cursor, true) && IdlePart(budget, cursor, st)
              && IdleBefore(cursor) >= MAX_IDLE_PARTS_IN_A_ROW
    ensures o.Continue? ==>
              && o.cursor ==
                   next.(completed := st.steps, skipped := st.skipped, countedParts := o.cursor.countedParts,
                         idleStreak := o.cursor.idleStreak)
              && o.reason == reason && o.delaySeconds == delaySeconds && o.dailyQuota == dailyQuota
              && CountsOn(p, cursor, o.cursor)
    ensures o.Continue? ==> (o.cursor.idleStreak > 0 <==> IdlePart(budget, cursor, st))
    ensures var parts := if cursor.Some? then cursor.value.countedParts else 0;
            var streak := if cursor.Some? then cursor.value.idleStreak else 0;
            var was := if cursor.Some? then cursor.value.completed else 0;
            var idle := budget != null && budget.unitsCompleted == 0 && budget.external == 0 && st.steps == was;
            var counted := if idle then parts else parts + 1;
            if p.maxParts.Some? && counted >= p.maxParts.value then o == RunFailed(TooManyParts)
            else if idle && streak >= 1000 then o == RunFailed(NoProgress)
            else
              o.Continue? && o.cursor.countedParts == counted && o.cursor.idleStreak == if idle then streak + 1 else 0
  {
    var idle := budget != null && budget.unitsCompleted == 0 && budget.external == 0
                && st.steps == (if cursor.Some? then cursor.value.completed else 0);
    var countedParts := CountedBefore(cursor) + (if idle then 0 else 1);
    var idleStreak := if idle then IdleBefore(cursor) + 1 else 0;
    if p.maxParts.Some? && countedParts >= p.maxParts.value {
      return RunFailed(TooManyParts);
    }
    if idleStreak > MAX_IDLE_PARTS_IN_A_ROW {
      return RunFailed(NoProgress);
    }
    o := Continue(next.(completed := st.steps, skipped := st.skipped, countedParts := countedParts,
                        idleStreak := idleStreak),
                  reason, delaySeconds, dailyQuota);
  }

  /** Where a run stands at a cursor, or without one. */
  function PlaceAt(ws: seq<Window>, cursor: Option<RunCursor>): RunPlace {
    if cursor.None? then RunPlace(0, START)
    else
      var c := cursor.value;
      if c.window < |ws| && c.walk.Some? && IsWalkDay(ws[c.window], c.walk.value.day) then
        RunPlace(c.window, PlaceOf(ws[c.window], c.walk.value))
      else RunPlace(c.window, START)
  }

  /** Where the window loop stands. */
  function PlaceIn(ws: seq<Window>, k: nat, at: Option<Cursor>): RunPlace
    requires at.Some? ==> k < |ws| && IsWalkDay(ws[k], at.value.day)
  {
    RunPlace(k, if at.Some? then PlaceOf(ws[k], at.value) else START)
  }

  /** From the cursor to there the run kept its units in order, without a repeat and without skipping an item. */
  ghost predicate KeepsTo(p: RunParams, now: int, news: News, cursor: Option<RunCursor>, trace0: seq<Event>,
                          to: RunPlace, trace1: seq<Event>)
    requires ResolvedTestDays(p) >= 1
  {
    var ws := PlanWindows(p, now);
    && PlaceAt(ws, cursor).window <= |ws| && to.window <= |ws|
    && StretchKeeps(ws, news, PlaceAt(ws, cursor), trace0, to, trace1)
  }

  /** What a part that hands on a cursor guarantees: the uninterrupted run from there is the one from here. */
  ghost predicate HandsOn<B, D>(e: Engine<B, D>, p: RunParams, news: News, cursor: Option<RunCursor>, now: int,
                                st0: RunState<B, D>, st: RunState<B, D>, c: RunCursor)
    requires Sound(p, now)
  {
    && c.clockNow == now
    && CursorFits(p, c)
    && st0.trace <= st.trace
    && KeepsTo(p, now, news, cursor, st0.trace, PlaceAt(PlanWindows(p, now), Some(c)), st.trace)
    && st.steps == c.completed && st.skipped == c.skipped
    && (forall j :: 0 <= j < |PlanWindows(p, now)| ==> Days(PlanWindows(p, now)[j]) != [])
    && FromCursor(e, p, now, news, Some(c), st) == FromCursor(e, p, now, news, cursor, st0)
  }

  /** The uninterrupted run from where a cursor (or none) stands. */
  ghost function FromCursor<B, D>(e: Engine<B, D>, p: RunParams, now: int, news: News, cursor: Option<RunCursor>,
                                  st: RunState<B, D>): RunEnd<B, D>
    requires Sound(p, now)
  {
    PlanIsConsecutive(p, now);
    var ws := PlanWindows(p, now);
    if cursor.None? then RunWindows(e, ws, news, 0, None, st)
    else if cursor.value.window < |ws| && cursor.value.walk.Some?
            && IsWalkDay(ws[cursor.value.window], cursor.value.walk.value.day) then
      RunWindows(e, ws, news, cursor.value.window, cursor.value.walk, st)
    else RunWindows(e, ws, news, cursor.value.window, None, st)
  }

  lemma PlanUnfolds(p: RunParams, now: int)
    requires ResolvedTestDays(p) >= 1
    ensures PlanWindows(p, now) == PlanOf(p, now, Windows(p.testStart, p.testEnd, p.trainDays, ResolvedTestDays(p)))
    ensures Sound(p, now) ==> forall j :: 0 <= j < |PlanWindows(p, now)| ==> Days(PlanWindows(p, now)[j]) != []
  {
    if Sound(p, now) {
      PlanIsConsecutive(p, now);
    }
  }

  /** Once every window is walked nothing is left to run. */
  lemma ScoringIsDone<B, D>(e: Engine<B, D>, p: RunParams, now: int, news: News, cursor: Option<RunCursor>,
                            st: RunState<B, D>)
    requires Sound(p, now) && cursor.Some?
    requires cursor.value.walk.None? && cursor.value.window == |PlanWindows(p, now)|
    ensures FromCursor(e, p, now, news, cursor, st) == RunDone(st)
  {
    PlanIsConsecutive(p, now);
  }

  /** Before the walk: the state a part starts from. */
  function PartState<B, D>(cursor: Option<RunCursor>, store: Store<B, D>, trace: seq<Event>): RunState<B, D> {
    RunState(store, if cursor.Some? then cursor.value.skipped else 0,
             if cursor.Some? then cursor.value.completed else 0, trace)
  }

  function StallOf(cursor: Option<RunCursor>): Option<Stall> {
    if cursor.Some? then cursor.value.stall else None
  }

  /**
   * The stall record handed on: one more pause at this spot for an outage, and never above the limit; else the
   * one carried in. The hand-over to the scoring phase has none.
   */
  predicate StallsOn(p: RunParams, cursor: Option<RunCursor>, c: RunCursor, outage: bool) {
    if c.walk.None? then c.stall.None?
    else if outage then
      && c.stall == Some(NextStall(StallOf(cursor), SpotOf(c.window, c.walk.value)))
      && (p.maxStalls > 0 ==> c.stall.value.count <= p.maxStalls)
    else c.stall == StallOf(cursor)
  }

  /** Where one part's walk pauses, told by where it came in: never before it, and an outage only ever at an item. */
  ghost predicate PausesAt(news: News, cursor: Option<RunCursor>, window: nat, at: Cursor, outage: bool) {
    && (cursor.Some? ==> cursor.value.phase == Walking)
    && (cursor.Some? && cursor.value.walk.Some? ==>
          cursor.value.window < window || (cursor.value.window == window && Advances(cursor.value.walk.value, at)))
    && (outage ==> !at.exits)
    && ((cursor.Some? && cursor.value.walk.Some? ==> KnownKey(news, cursor.value.walk.value.after)) ==>
          KnownKey(news, at.after))
  }

  /**
   * One part. `now` is this invocation's clock; a continuation pins it to the first part's. `dailyQuota`
   * tells an outage is a daily quota one, `coverageOk` is the price preflight of part 1.
   */
  method RunManualBacktest<B, D>(e: Engine<B, D>, p: RunParams, news: News, weather: Weather, dailyQuota: bool,
                                 retryAfter: nat, coverageOk: bool,
                                 budget: SubrequestBudget?, wallClock: int, cursor: Option<RunCursor>,
                                 store: Store<B, D>, trace: seq<Event>)
    returns (o: Outcome, st: RunState<B, D>)
    requires ValidNews(news)
    requires p.testDays != Some(0)
    requires budget != null ==> budget.suspendDepth == 0
    requires cursor.Some? ==> CursorFits(p, cursor.value)
    modifies budget
    ensures var now := if cursor.Some? then cursor.value.clockNow else wallClock;
            var st0 := PartState(cursor, store, trace);
            && (o.RunFailed? && o.why in {FutureEnd, EmptySpan, NoWindow} ==> cursor.None? && !Sound(p, now))
            && (!(o.RunFailed? && o.why in {FutureEnd, EmptySpan, NoWindow}) ==>
                  && Sound(p, now)
                  && (o.RunComplete? ==>
                        FromCursor(e, p, now, news, cursor, st0) == RunDone(st)
                        && st.steps == TotalSteps(PlanWindows(p, now))
                        && KeepsTo(p, now, news, cursor, trace, RunPlace(|PlanWindows(p, now)|, START), st.trace))
                  && (o.Continue? ==> HandsOn(e, p, news, cursor, now, st0, st, o.cursor))
                  && (o == RunFailed(WalkFailed(ItemFailed)) || o == RunFailed(WalkFailed(ExitsFailed)) ==>
                        FromCursor(e, p, now, news, cursor, st0) == RunBroken))
    ensures o == RunFailed(NoCoverage) <==> cursor.None? && Sound(p, wallClock) && !coverageOk
    ensures cursor.None? ==>
              && (o == RunFailed(FutureEnd) <==> p.testEnd > wallClock)
              && (o == RunFailed(EmptySpan) <==> p.testEnd <= wallClock && p.testStart >= p.testEnd)
              && (o == RunFailed(NoWindow) <==> p.testStart < p.testEnd <= wallClock && PlanWindows(p, wallClock) == [])
    ensures o.RunFailed? && o.why.WalkFailed? ==> o.why.fault in {ItemFailed, ExitsFailed, VendorUnpaused}
    ensures o == RunFailed(WalkFailed(VendorUnpaused)) ==> budget == null
    ensures o.Continue? ==>
              && budget != null
              && CountsOn(p, cursor, o.cursor)
              && StallsOn(p, cursor, o.cursor, o.reason.Transient? && !o.dailyQuota)
              && (o.cursor.phase == Walking && o.reason.BudgetSpent? ==> budget.unitsCompleted > 0 || budget.halted)
              && (o.cursor.phase == Walking ==>
                    PausesAt(news, cursor, o.cursor.window, o.cursor.walk.value, o.reason.Transient? && !o.dailyQuota))
              && (o.cursor.phase == Scoring ==> o.reason.BudgetSpent?)
    ensures o.RunFailed? && o.why.StalledOut? ==>
              && p.maxStalls > 0
              && NextStall(StallOf(cursor), SpotOf(o.why.window, o.why.at)).count > p.maxStalls
              && PausesAt(news, cursor, o.why.window, o.why.at, true)
    ensures o == RunFailed(TooManyParts) ==> CapReached(p, cursor, false)
    ensures o == RunFailed(NoProgress) ==> IdleBefore(cursor) >= MAX_IDLE_PARTS_IN_A_ROW
  {
    hide FromCursor, PlanWindows, PlanOf, TotalSteps, StepsBefore, StepsAt, CountSteps, KnownKey, PausesAt, NextStall,
         CursorOk, CountsOn, KeepsTo, HandsOn, StallsOn;
    var now := if cursor.Some? then cursor.value.clockNow else wallClock;
    st := PartState(cursor, store, trace);
    if p.testEnd > now {
      return RunFailed(FutureEnd), st;
    }
    if !(p.testStart < p.testEnd) {
      return RunFailed(EmptySpan), st;
    }
    var ts := WalkForwardWindows(p.testStart, p.testEnd, p.trainDays, ResolvedTestDays(p));
    GeneratorYieldsWindows(p.testStart, p.testEnd, p.trainDays, ResolvedTestDays(p), ts);
    var ws := PlanOf(p, now, ts);
    PlanUnfolds(p, now);
    if |ws| == 0 {
      return RunFailed(NoWindow), st;
    }
    if cursor.None? && !coverageOk {
      return RunFailed(NoCoverage), st;
    }
    if cursor.None? || cursor.value.phase == Walking {
      o, st := WalkPhase(e, p, news, weather, dailyQuota, retryAfter, budget, now, ws, cursor, st);
      if !o.RunComplete? {
        return;
      }
    } else {
      ScoringIsDone(e, p, now, news, cursor, st);
      KeepsHere(p, now, news, cursor, trace);
    }
    o := ScorePhase(e, p, news, budget, now, ws, cursor, PartState(cursor, store, trace), st);
  }

  /**
   * The budget has seen no refusal, and either nothing ran yet in this part or the operations left reach for the
   * scoring: what scoring was seen to cost, or else one read a ticker and eight more.
   */
  predicate RoomToScore(budget: SubrequestBudget, tickers: nat)
    reads budget
  {
    var need := if Score in budget.observed then budget.observed[Score] else Cost(0, tickers + 8);
    && !budget.halted
    && (budget.unitsCompleted == 0
        || (&& (need.external <= 0 || need.external <= budget.limits.external - budget.external)
            && (need.total <= 0 || need.total <= budget.limits.total - budget.total)))
  }

  /** The score phase: scored in this part, or handed on to the next when this one has spent too much. */
  method ScorePhase<B, D>(e: Engine<B, D>, p: RunParams, news: News, budget: SubrequestBudget?, now: int,
                          ws: seq<Window>, cursor: Option<RunCursor>, ghost st0: RunState<B, D>, st: RunState<B, D>)
    returns (o: Outcome)
    requires Sound(p, now) && ws == PlanWindows(p, now)
    requires forall j :: 0 <= j < |ws| ==> Days(ws[j]) != []
    requires FromCursor(e, p, now, news, cursor, st0) == RunDone(st) && st.steps == TotalSteps(ws)
    requires st0.trace <= st.trace
    requires KeepsTo(p, now, news, cursor, st0.trace, RunPlace(|ws|, START), st.trace)
    modifies budget
    ensures o in {RunComplete, RunFailed(TooManyParts), RunFailed(NoProgress)} || o.Continue?
    ensures o.Continue? ==>
              && HandsOn(e, p, news, cursor, now, st0, st, o.cursor)
              && o.cursor.phase == Scoring && o.reason.BudgetSpent? && !o.dailyQuota && o.delaySeconds == 0
              && budget != null
              && CountsOn(p, cursor, o.cursor)
              && StallsOn(p, cursor, o.cursor, false)
    ensures o == RunFailed(TooManyParts) ==> CapReached(p, cursor, false)
    ensures o == RunFailed(NoProgress) ==> IdleBefore(cursor) >= MAX_IDLE_PARTS_IN_A_ROW
    ensures o.RunComplete? <==> budget == null || old(RoomToScore(budget, |p.tickers|))
  {
    hide FromCursor, PlanWindows, TotalSteps, CountsOn, KeepsTo, Days;
    if budget != null {
      budget.SetEstimate(Score, Cost(0, |p.tickers| + 8));
      var yes := budget.CanStart(Score);
      if !yes {
        o := YieldPart(p, budget, cursor, RunCursor(now, Scoring, |ws|, None, None, 0, 0, 0, 0), st, BudgetSpent, 0,
                       false);
        if o.Continue? {
          ScoringIsDone(e, p, now, news, Some(o.cursor), st);
        }
        return;
      }
    }
    // Scoring only reads the store and writes the result; it runs unenforced.
    o := RunComplete;
  }

  /** The walk phase: windows in order, resuming inside the cursor's one. */
  method WalkPhase<B, D>(e: Engine<B, D>, p: RunParams, news: News, weather: Weather, dailyQuota: bool, retryAfter: nat,
                         budget: SubrequestBudget?, now: int, ws: seq<Window>, cursor: Option<RunCursor>,
                         st0: RunState<B, D>)
    returns (o: Outcome, st: RunState<B, D>)
    requires ValidNews(news)
    requires Sound(p, now) && ws == PlanWindows(p, now)
    requires budget != null ==> budget.suspendDepth == 0
    requires cursor.Some? ==>
               CursorFits(p, cursor.value) && cursor.value.clockNow == now && cursor.value.phase == Walking
    requires st0.steps == (if cursor.Some? then cursor.value.completed else 0)
    modifies budget
    ensures o.RunComplete? ==>
              && FromCursor(e, p, now, news, cursor, st0) == RunDone(st)
              && st.steps == TotalSteps(ws) && st0.trace <= st.trace
              && KeepsTo(p, now, news, cursor, st0.trace, RunPlace(|ws|, START), st.trace)
    ensures o.Continue? ==>
              && HandsOn(e, p, news, cursor, now, st0, st, o.cursor)
              && o.cursor.phase == Walking
              && budget != null
              && CountsOn(p, cursor, o.cursor)
              && StallsOn(p, cursor, o.cursor, o.reason.Transient? && !o.dailyQuota)
              && PausesAt(news, cursor, o.cursor.window, o.cursor.walk.value, o.reason.Transient? && !o.dailyQuota)
              && (o.reason.BudgetSpent? ==> budget.unitsCompleted > 0 || budget.halted)
    ensures o.RunFailed? ==>
              || o.why in {WalkFailed(ItemFailed), WalkFailed(ExitsFailed), WalkFailed(VendorUnpaused), TooManyParts,
                           NoProgress}
              || o.why.StalledOut?
    ensures o == RunFailed(WalkFailed(ItemFailed)) || o == RunFailed(WalkFailed(ExitsFailed)) ==>
              FromCursor(e, p, now, news, cursor, st0) == RunBroken
    ensures o == RunFailed(WalkFailed(VendorUnpaused)) ==> budget == null
    ensures o.RunFailed? && o.why.StalledOut? ==>
              && p.maxStalls > 0
              && NextStall(StallOf(cursor), SpotOf(o.why.window, o.why.at)).count > p.maxStalls
              && PausesAt(news, cursor, o.why.window, o.why.at, true)
    ensures o == RunFailed(TooManyParts) ==> CapReached(p, cursor, false)
    ensures o == RunFailed(NoProgress) ==> IdleBefore(cursor) >= MAX_IDLE_PARTS_IN_A_ROW
    ensures budget != null ==> budget.suspendDepth == 0
  {
    hide Ahead, Continues, Completes, RunWindows, PlanWindows, PlanOf, Days, CountSteps, KnownKey, NextStall, SpotOf,
         CountsOn, KeepsTo, HandsOn, PausesAt, StallsOn, Wrought, HeldAt;
    PlanIsConsecutive(p, now);
    NoKeyIsKnown(news);
    KeepsHere(p, now, news, cursor, st0.trace);
    st := st0;
    var wi := if cursor.Some? then cursor.value.window else 0;
    var resume := if cursor.Some? then cursor.value.walk else None;
    ghost var goal := FromCursor(e, p, now, news, cursor, st0);
    while wi < |ws|
      invariant wi <= |ws|
      invariant resume.Some? ==> wi < |ws| && CursorOk(ws[wi], resume.value)
      invariant if resume.Some? then cursor.Some? && wi == cursor.value.window && resume == cursor.value.walk
                else cursor.Some? ==> wi > cursor.value.window
      invariant RunWindows(e, ws, news, wi, resume, st) == goal
      invariant st.steps == StepsBefore(ws, wi) + (if wi < |ws| then StepsAt(ws[wi], resume) else 0)
      invariant st0.trace <= st.trace
      invariant KeepsTo(p, now, news, cursor, st0.trace, PlaceIn(ws, wi, resume), st.trace)
      invariant budget != null ==> budget.suspendDepth == 0
    {
      ghost var was := st;
      WalkStartsOnADay(ws[wi], resume);
      var r, st1 := WalkOnSignalWindow(e, ws[wi], news, weather, budget, resume, st);
      st := st1;
      match r {
        case Threw(fault) =>
          if fault == ItemFailed || fault == ExitsFailed {
            WindowBreaks(e, ws, news, wi, resume, was);
          }
          return RunFailed(WalkFailed(fault)), st;
        case Paused(reason, cur) =>
          WindowPauses(e, ws, news, wi, resume, was, st, cur);
          KeepsToPause(e, p, now, ws, news, cursor, st0.trace, wi, resume, was, st, cur);
          PausesThere(news, cursor, ws[wi], wi, resume, cur, reason.Transient? && !dailyQuota);
          o := PausePart(p, budget, cursor, now, wi, cur, st, reason, dailyQuota, retryAfter);
          if o.Continue? {
            PauseHandsOn(e, p, news, cursor, now, ws, st0, st, wi, cur, o.cursor);
          }
          return;
        case Complete(skippedDays) =>
          WindowCompletes(e, ws, news, wi, resume, was, st, skippedDays,
                          st.(steps := st.steps + skippedDays * |ws[wi].tickers|));
          KeepsToNext(e, p, now, ws, news, cursor, st0.trace, wi, resume, was, st, skippedDays);
          st := st.(steps := st.steps + skippedDays * |ws[wi].tickers|);
          wi := wi + 1;
          resume := None;
      }
    }
    AllWalked(e, ws, news, st);
    o := RunComplete;
  }

  /**
   * What a pause of the walk makes of the part: outages count stalls, a daily quota outage or a spent budget
   * does not.
   */
  method PausePart<B, D>(p: RunParams, budget: SubrequestBudget?, cursor: Option<RunCursor>, now: int, wi: nat,
                         cur: Cursor, st: RunState<B, D>,
                         reason: Reason, dailyQuota: bool, retryAfter: nat)
    returns (o: Outcome)
    ensures o in {RunFailed(StalledOut(wi, cur)), RunFailed(TooManyParts), RunFailed(NoProgress)} || o.Continue?
    ensures o == RunFailed(StalledOut(wi, cur)) <==>
              reason.Transient? && !dailyQuota && p.maxStalls > 0
              && NextStall(StallOf(cursor), SpotOf(wi, cur)).count > p.maxStalls
    ensures o == RunFailed(TooManyParts) ==> CapReached(p, cursor, false)
    ensures o == RunFailed(NoProgress) ==> IdleBefore(cursor) >= MAX_IDLE_PARTS_IN_A_ROW
    ensures o.Continue? ==>
              var c := o.cursor;
              && c == RunCursor(now, Walking, wi, Some(cur), c.stall, st.steps, c.countedParts, c.idleStreak,
                                st.skipped)
              && o.reason == reason && o.dailyQuota == (reason.Transient? && dailyQuota)
              && CountsOn(p, cursor, o.cursor)
              && StallsOn(p, cursor, o.cursor, reason.Transient? && !dailyQuota)
    ensures o.Continue? ==>
              if reason.Transient? && !dailyQuota then
                && o.delaySeconds >= p.transientPauseSeconds && o.delaySeconds >= retryAfter
                && (o.delaySeconds == p.transientPauseSeconds || o.delaySeconds == retryAfter)
              else o.delaySeconds == 0
    ensures var spot := Spot(wi, cur.day, cur.ticker, if cur.after.Some? then Some(cur.after.value.id) else None);
            var stall := if cursor.Some? then cursor.value.stall else None;
            var count := if stall.Some? && stall.value.spot == spot then stall.value.count + 1 else 1;
            if !reason.Transient? || dailyQuota then o.Continue? ==> o.cursor.stall == stall
            else if p.maxStalls > 0 && count > p.maxStalls then o == RunFailed(StalledOut(wi, cur))
            else o.Continue? ==> o.cursor.stall == Some(Stall(spot, count))
  {
    var next := RunCursor(now, Walking, wi, Some(cur), StallOf(cursor), 0, 0, 0, 0);
    if reason.Transient? {
      if dailyQuota {
        o := YieldPart(p, budget, cursor, next, st, reason, 0, true);
        return;
      }
      var stall := NextStall(StallOf(cursor), SpotOf(wi, cur));
      if p.maxStalls > 0 && stall.count > p.maxStalls {
        return RunFailed(StalledOut(wi, cur));
      }
      o := YieldPart(p, budget, cursor, next.(stall := Some(stall)), st, reason,
                     Max(p.transientPauseSeconds, retryAfter), false);
      return;
    }
    o := YieldPart(p, budget, cursor, next, st, reason, 0, false);
  }

  lemma WalkStartsOnADay(w: Window, at: Option<Cursor>)
    requires Days(w) != [] && (at.Some? ==> CursorOk(w, at.value))
    ensures (at.Some? ==> IsWalkDay(w, at.value.day)) && IsWalkDay(w, Start(w, at).day)
  {
  }

  /** The uninterrupted run takes its current window first. */
  lemma OneWindow<B, D>(e: Engine<B, D>, ws: seq<Window>, news: News, k: nat, at: Option<Cursor>, st: RunState<B, D>)
    requires forall j :: 0 <= j < |ws| ==> Days(ws[j]) != []
    requires k < |ws| && (at.Some? ==> IsWalkDay(ws[k], at.value.day)) && IsWalkDay(ws[k], Start(ws[k], at).day)
    ensures RunWindows(e, ws, news, k, at, st) ==
            match Ahead(e, ws[k], news, Start(ws[k], at), st)
            case Broken => RunBroken
            case Done(st1, skippedDays) =>
              RunWindows(e, ws, news, k + 1, None, st1.(steps := st1.steps + skippedDays * |ws[k].tickers|))
  {
    hide Ahead, Days;
  }

  lemma WindowBreaks<B, D>(e: Engine<B, D>, ws: seq<Window>, news: News, k: nat, at: Option<Cursor>, st: RunState<B, D>)
    requires forall j :: 0 <= j < |ws| ==> Days(ws[j]) != []
    requires k < |ws| && (at.Some? ==> IsWalkDay(ws[k], at.value.day))
    requires Ahead(e, ws[k], news, Start(ws[k], at), st) == Broken
    ensures RunWindows(e, ws, news, k, at, st) == RunBroken
  {
    hide Ahead;
  }

  lemma WindowPauses<B, D>(e: Engine<B, D>, ws: seq<Window>, news: News, k: nat, at: Option<Cursor>,
                           st0: RunState<B, D>, st: RunState<B, D>, c: Cursor)
    requires forall j :: 0 <= j < |ws| ==> Days(ws[j]) != []
    requires k < |ws| && (at.Some? ==> CursorOk(ws[k], at.value))
    requires (at.Some? ==> IsWalkDay(ws[k], at.value.day)) && IsWalkDay(ws[k], Start(ws[k], at).day)
    requires Continues(e, ws[k], news, Start(ws[k], at), st0, st, c)
    requires st.steps - CountSteps(st.trace) == st0.steps - CountSteps(st0.trace)
    ensures CursorOk(ws[k], c)
    ensures RunWindows(e, ws, news, k, Some(c), st) == RunWindows(e, ws, news, k, at, st0)
    ensures st.steps - st0.steps == StepsAt(ws[k], Some(c)) - StepsAt(ws[k], at)
    ensures st0.trace <= st.trace
  {
    hide Ahead, StepsAt, CountSteps, UnitsAhead, RunWindows, Days, EventsFrom;
    PausedSteps(e, ws[k], news, at, st0, st, c);
    OneWindow(e, ws, news, k, at, st0);
    OneWindow(e, ws, news, k, Some(c), st);
  }

  lemma WindowCompletes<B, D>(e: Engine<B, D>, ws: seq<Window>, news: News, k: nat, at: Option<Cursor>,
                              st0: RunState<B, D>, st: RunState<B, D>, skippedDays: nat, st1: RunState<B, D>)
    requires forall j :: 0 <= j < |ws| ==> Days(ws[j]) != []
    requires k < |ws| && (at.Some? ==> CursorOk(ws[k], at.value))
    requires (at.Some? ==> IsWalkDay(ws[k], at.value.day)) && IsWalkDay(ws[k], Start(ws[k], at).day)
    requires Completes(e, ws[k], news, Start(ws[k], at), st0, st, skippedDays)
    requires st.steps - CountSteps(st.trace) == st0.steps - CountSteps(st0.trace)
    requires st1 == st.(steps := st.steps + skippedDays * |ws[k].tickers|)
    ensures RunWindows(e, ws, news, k + 1, None, st1) == RunWindows(e, ws, news, k, at, st0)
    ensures st1.steps == st0.steps - StepsAt(ws[k], at) + |ws[k].tickers| * |Days(ws[k])|
    ensures st0.trace <= st1.trace
  {
    hide Ahead, StepsAt, CountSteps, UnitsAhead, EventsFrom, RunWindows, Days;
    CompletedSteps(e, ws[k], news, at, st0, st, skippedDays);
    OneWindow(e, ws, news, k, at, st0);
  }

  /** The cursor of a pause, handed on. */
  lemma {:induction false} PauseHandsOn<B, D>(e: Engine<B, D>, p: RunParams, news: News, cursor: Option<RunCursor>,
                                              now: int, ws: seq<Window>, st0: RunState<B, D>, st: RunState<B, D>,
                                              wi: nat, cur: Cursor, c: RunCursor)
    requires Sound(p, now) && ws == PlanWindows(p, now) && wi < |ws| && CursorOk(ws[wi], cur)
    requires forall j :: 0 <= j < |ws| ==> Days(ws[j]) != []
    requires c == RunCursor(now, Walking, wi, Some(cur), c.stall, st.steps, c.countedParts, c.idleStreak, st.skipped)
    requires st.steps == StepsBefore(ws, wi) + StepsAt(ws[wi], Some(cur)) && st0.trace <= st.trace
    requires RunWindows(e, ws, news, wi, Some(cur), st) == FromCursor(e, p, now, news, cursor, st0)
    requires KeepsTo(p, now, news, cursor, st0.trace, PlaceIn(ws, wi, Some(cur)), st.trace)
    ensures HandsOn(e, p, news, cursor, now, st0, st, c)
  {
    WalkingFits(p, ws, c);
    hide PlanWindows, RunWindows, KeepsTo, Days, StepsBefore, StepsAt, CursorFits;
  }

  lemma WalkingFits(p: RunParams, ws: seq<Window>, c: RunCursor)
    requires Sound(p, c.clockNow) && ws == PlanWindows(p, c.clockNow)
    requires c.phase == Walking && c.window < |ws| && c.walk.Some? && CursorOk(ws[c.window], c.walk.value)
    requires c.completed == StepsBefore(ws, c.window) + StepsAt(ws[c.window], c.walk)
    ensures CursorFits(p, c)
  {
  }

  /** A pause inside the window loop is one the part may hand on. */
  lemma PausesThere(news: News, cursor: Option<RunCursor>, w: Window, wi: nat, resume: Option<Cursor>, cur: Cursor,
                    outage: bool)
    requires Days(w) != []
    requires cursor.Some? ==> cursor.value.phase == Walking
    requires if resume.Some? then cursor.Some? && wi == cursor.value.window && resume == cursor.value.walk
             else cursor.Some? ==> wi > cursor.value.window
    requires Advances(Start(w, resume), cur) && (outage ==> !cur.exits)
    requires KnownKey(news, Start(w, resume).after) ==> KnownKey(news, cur.after)
    ensures PausesAt(news, cursor, wi, cur, outage)
  {
    hide Days, KnownKey;
    NoKeyIsKnown(news);
  }

  /** Where a part begins. */
  lemma KeepsHere(p: RunParams, now: int, news: News, cursor: Option<RunCursor>, trace: seq<Event>)
    requires Sound(p, now)
    requires cursor.Some? ==> CursorFits(p, cursor.value) && cursor.value.clockNow == now
    ensures PlaceAt(PlanWindows(p, now), cursor).window <= |PlanWindows(p, now)|
    ensures KeepsTo(p, now, news, cursor, trace, PlaceAt(PlanWindows(p, now), cursor), trace)
  {
    hide PlanWindows, StepsBefore, StepsAt, TotalSteps, StretchKeeps, Days;
    StretchStays(PlanWindows(p, now), news, PlaceAt(PlanWindows(p, now), cursor), trace);
  }

  lemma KeepsToPause<B, D>(e: Engine<B, D>, p: RunParams, now: int, ws: seq<Window>, news: News,
                           cursor: Option<RunCursor>, trace0: seq<Event>, k: nat, at: Option<Cursor>,
                           was: RunState<B, D>, st: RunState<B, D>, c: Cursor)
    requires ValidNews(news) && Sound(p, now) && ws == PlanWindows(p, now)
    requires k < |ws| && Days(ws[k]) != [] && (at.Some? ==> IsWalkDay(ws[k], at.value.day))
    requires IsWalkDay(ws[k], Start(ws[k], at).day)
    requires KeepsTo(p, now, news, cursor, trace0, PlaceIn(ws, k, at), was.trace)
    requires Continues(e, ws[k], news, Start(ws[k], at), was, st, c)
    ensures IsWalkDay(ws[k], c.day) && KeepsTo(p, now, news, cursor, trace0, PlaceIn(ws, k, Some(c)), st.trace)
  {
    hide PlanWindows, StretchKeeps, Consecutive, LegOk, Days, Ahead, UnitsAhead;
    PlanIsConsecutive(p, now);
    StartIsPlace(ws, k, at);
    PausedPartIsLeg(e, ws[k], news, Start(ws[k], at), was, st, c);
    var leg := Leg(news, PlaceOf(ws[k], Start(ws[k], at)), PlaceOf(ws[k], c), was.trace, st.trace);
    LegKeepsRun(ws, k, leg);
    StretchesJoin(ws, news, PlaceAt(ws, cursor), trace0, PlaceIn(ws, k, at), was.trace,
                  PlaceIn(ws, k, Some(c)), st.trace);
  }

  lemma KeepsToNext<B, D>(e: Engine<B, D>, p: RunParams, now: int, ws: seq<Window>, news: News,
                          cursor: Option<RunCursor>, trace0: seq<Event>, k: nat, at: Option<Cursor>,
                          was: RunState<B, D>, st: RunState<B, D>, skippedDays: nat)
    requires ValidNews(news) && Sound(p, now) && ws == PlanWindows(p, now)
    requires k < |ws| && Days(ws[k]) != [] && (at.Some? ==> IsWalkDay(ws[k], at.value.day))
    requires IsWalkDay(ws[k], Start(ws[k], at).day)
    requires KeepsTo(p, now, news, cursor, trace0, PlaceIn(ws, k, at), was.trace)
    requires Completes(e, ws[k], news, Start(ws[k], at), was, st, skippedDays)
    ensures KeepsTo(p, now, news, cursor, trace0, PlaceIn(ws, k + 1, None), st.trace)
  {
    hide PlanWindows, StretchKeeps, Consecutive, LegOk, Days, Ahead, UnitsAhead;
    PlanIsConsecutive(p, now);
    StartIsPlace(ws, k, at);
    CompletedPartIsLeg(e, ws[k], news, Start(ws[k], at), was, st, skippedDays);
    var end := Place(|Days(ws[k])| - skippedDays, 0, None, false);
    LegKeepsRun(ws, k, Leg(news, PlaceOf(ws[k], Start(ws[k], at)), end, was.trace, st.trace));
    StretchesJoin(ws, news, PlaceAt(ws, cursor), trace0, PlaceIn(ws, k, at), was.trace, RunPlace(k, end), st.trace);
    WindowEndKeeps(ws, k, skippedDays, news, st.trace);
    StretchesJoin(ws, news, PlaceAt(ws, cursor), trace0, RunPlace(k, end), st.trace,
                  PlaceIn(ws, k + 1, None), st.trace);
  }

  lemma StartIsPlace(ws: seq<Window>, k: nat, at: Option<Cursor>)
    requires k < |ws| && Days(ws[k]) != [] && (at.Some? ==> IsWalkDay(ws[k], at.value.day))
    ensures IsWalkDay(ws[k], Start(ws[k], at).day)
    ensures RunPlace(k, PlaceOf(ws[k], Start(ws[k], at))) == PlaceIn(ws, k, at)
  {
  }

  lemma AllWalked<B, D>(e: Engine<B, D>, ws: seq<Window>, news: News, st: RunState<B, D>)
    requires forall j :: 0 <= j < |ws| ==> Days(ws[j]) != []
    ensures RunWindows(e, ws, news, |ws|, None, st) == RunDone(st)
  {
  }
}
