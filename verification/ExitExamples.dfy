/**
 * Positions whose outcome shows when they were checked: without bars, at a suspected split, and after a price
 * below zero.
 */
module ExitExamples {
  import opened BarWindow
  import opened Calendar
  import opened Collections
  import opened EntryFill
  import opened ExitCheck
  import opened ExitSchedule
  import opened ExitWalk
  import opened HoldTime
  import opened Returns

  // ---- No bars -------------------------------------------------------------------------------

  /** A ticker without bars: the late closing carries the time of the check that made it. */
  lemma LateClosingTellsTheCheck(t: Terms, k: Knobs)
    ensures var m, cfg := Market(BarTable([], []), true), Config(0.0, false, Some(1));
            var r := Row(0, t, k, At(0), None, None, None, None, None, None);
            && Good(m) && Fit(r) && !Timely(r, m, cfg, 8 * DAY_MS)
            && RunChecks(r, m, cfg, [7 * DAY_MS, 8 * DAY_MS]).closure == Some(Closure(7 * DAY_MS, TimeBased, None))
            && Check(r, m, cfg, 8 * DAY_MS).closure == Some(Closure(8 * DAY_MS, TimeBased, None))
  {
    var m, cfg := Market(BarTable([], []), true), Config(0.0, false, Some(1));
    var r := Row(0, t, k, At(0), None, None, None, None, None, None);
    assert AllBars(m.table) == [];
    EmptyCheck(r, m, cfg, 7);
    EmptyCheck(r, m, cfg, 8);
    var s := Check(r, m, cfg, 7 * DAY_MS);
    ClosedRun(s, m, cfg, [8 * DAY_MS]);
    hide Check;
    assert [7 * DAY_MS, 8 * DAY_MS][1..] == [8 * DAY_MS];
  }

  lemma EmptyCheck(r: Row, m: Market, cfg: Config, day: int)
    requires m == Market(BarTable([], []), true) && cfg == Config(0.0, false, Some(1)) && 7 <= day
    requires r.openedAt == At(0) && Fit(r) && r.lastCheckedAt.None?
    ensures Check(r, m, cfg, day * DAY_MS).closure == Some(Closure(day * DAY_MS, TimeBased, None))
    ensures Due(r, m, cfg) == Some(DAY_MS) && HoldOver(r, m, cfg, day * DAY_MS)
    ensures forall from, asOf :: Slice(m.table, from, asOf) == []
  {
  }

  // ---- A suspected split ------------------------------------------------------------------------

  const HALF := Ohlc(Some(5.0), Some(5.0), Some(5.0), Some(5.0))
  const SPLIT_ROW := Row(0, Terms(Long, Some(10.0), Some(0.05), None), Knobs(None, None, None, false, None), At(0),
                         None, None, None, None, None, None)
  const GUARDED := Config(0.1, false, Some(1))

  /** One bar at half the entry price. */
  function SplitMarket(): Market {
    Market(BarTable([IntradayRow(0, HALF)], []), true)
  }

  lemma SplitBars(x: Bar)
    ensures ValidTable(SplitMarket().table) && OnGrid(SplitMarket().table)
    ensures x in AllBars(SplitMarket().table) <==> x == FromIntraday(IntradayRow(0, HALF))
  {
    var t := SplitMarket().table;
    assert IntradayRow(0, HALF) in t.intraday;
    hide AllBars;
    AllBarsAre(t, x);
  }

  lemma SplitTable(anchor: int, asOf: int)
    ensures Good(SplitMarket()) && WholeReads(SplitMarket().table, anchor, asOf)
    ensures anchor == 0 && BAR_MS <= asOf ==>
              Slice(SplitMarket().table, anchor, asOf) == [FromIntraday(IntradayRow(0, HALF))]
  {
    var t, b := SplitMarket().table, FromIntraday(IntradayRow(0, HALF));
    SplitReads(anchor, asOf);
    hide AllBars, Slice, SplitMarket, WholeReads;
    SplitBars(b);
    forall x ensures x in AllBars(t) <==> x == b {
      SplitBars(x);
    }
    SliceOrdered(t, anchor, asOf);
    forall x ensures x in Slice(t, anchor, asOf) <==> x == b && InSpan(b, anchor, asOf) {
      InSlice(t, anchor, asOf, x);
    }
    if anchor == 0 && BAR_MS <= asOf {
      OneOrder(Slice(t, anchor, asOf), [b]);
    }
  }

  lemma SplitReads(anchor: int, asOf: int)
    ensures WholeReads(SplitMarket().table, anchor, asOf)
  {
  }

  lemma SplitIsSuspected()
    ensures WalkOver(SPLIT_ROW, GUARDED, [FromIntraday(IntradayRow(0, HALF))]).Halted?
  {
    var b := FromIntraday(IntradayRow(0, HALF));
    assert FirstFactor(0.5, 0.1, SPLIT_FACTORS).Some?;
    assert SplitOf(SPLIT_ROW.terms, PolicyOf(SPLIT_ROW, GUARDED), b).Some?;
  }

  lemma DueAfterADay(day: nat)
    ensures Due(SPLIT_ROW, SplitMarket(), GUARDED) == Some(DAY_MS)
    ensures day >= 1 ==> HoldOver(SPLIT_ROW, SplitMarket(), GUARDED, day * DAY_MS)
    ensures day >= 1 ==> Until(SPLIT_ROW, SplitMarket(), GUARDED, day * DAY_MS) == DAY_MS
  {
    hide HoldDays, HoldStart;
    assert HoldStart(0, 1, true) == DAY_MS by {
      DueDayIsOne();
    }
    HoldStartIsFirst(0, 1, true, day * DAY_MS);
  }

  lemma DueDayIsOne()
    ensures HoldStart(0, 1, true) == DAY_MS
  {
  }

  lemma SplitCheck(day: nat)
    requires day >= 1
    ensures Check(SPLIT_ROW, SplitMarket(), GUARDED, day * DAY_MS).closure ==
              Some(Closure(day * DAY_MS, TimeBased, None))
  {
    hide Check, Good, WholeReads, Slice, HoldOver, Until, Due, LateFill, SplitMarket, WalkOver;
    DueAfterADay(day);
    SplitTable(0, DAY_MS);
    SplitTable(DAY_MS, day * DAY_MS);
    SplitIsSuspected();
    WholeClosure(SPLIT_ROW, SplitMarket(), GUARDED, day * DAY_MS);
  }

  /** Stopped at a suspected split, a position closes with the time of the first check after the hold is over. */
  lemma SplitClosingTellsTheCheck()
    ensures !Timely(SPLIT_ROW, SplitMarket(), GUARDED, 2 * DAY_MS)
    ensures RunChecks(SPLIT_ROW, SplitMarket(), GUARDED, [DAY_MS, 2 * DAY_MS]).closure ==
              Some(Closure(DAY_MS, TimeBased, None))
    ensures Check(SPLIT_ROW, SplitMarket(), GUARDED, 2 * DAY_MS).closure == Some(Closure(2 * DAY_MS, TimeBased, None))
  {
    hide Check, Good, WholeReads, Slice, HoldOver, Until, SplitMarket, RunChecks, Timely, SameOutcome;
    SplitCheck(1);
    SplitCheck(2);
    var s := Check(SPLIT_ROW, SplitMarket(), GUARDED, DAY_MS);
    FirstOfTwo(DAY_MS, 2 * DAY_MS);
    ClosedRun(s, SplitMarket(), GUARDED, [2 * DAY_MS]);
    ClosedThere(SPLIT_ROW, SplitMarket(), GUARDED, DAY_MS, 2 * DAY_MS);
    SplitIsWhole();
    if Timely(SPLIT_ROW, SplitMarket(), GUARDED, 2 * DAY_MS) {
      SchedulesAgreeIff(SPLIT_ROW, SplitMarket(), GUARDED, 2 * DAY_MS);
      TwoTicks(DAY_MS, 2 * DAY_MS);
    }
  }

  lemma FirstOfTwo(x: int, last: int)
    ensures RunChecks(SPLIT_ROW, SplitMarket(), GUARDED, [x, last])
         == RunChecks(Check(SPLIT_ROW, SplitMarket(), GUARDED, x), SplitMarket(), GUARDED, [last])
  {
    hide Check;
    assert [x, last][1..] == [last];
  }

  lemma SplitIsWhole()
    ensures Good(SplitMarket()) && Whole(SPLIT_ROW, SplitMarket(), GUARDED, 2 * DAY_MS)
  {
    hide Good, WholeReads, Until, Due, SplitMarket;
    DueAfterADay(2);
    SplitTable(0, DAY_MS);
    SplitTable(DAY_MS, 2 * DAY_MS);
  }

  // ---- A price below zero -------------------------------------------------------------------------

  const SHORT_ROW :=
    Row(0, Terms(Short, Some(10.0), Some(0.05), None), Knobs(None, Some(1.0), Some(1.0), false, None), At(0),
                         None, None, None, None, None, None)
  const UNGUARDED := Config(0.0, false, None)

  function DayBar(day: int, open: real, high: real, low: real, close: real): Bar {
    FromDaily(DailyRow(day, Ohlc(Some(open), Some(high), Some(low), Some(close))))
  }

  /** A short over a bar whose low is below zero. */
  function Below(): Bar {
    DayBar(0, 9.0, 9.0, -1.0, 9.0)
  }

  function Fall(): Bar {
    DayBar(1, 9.0, 9.0, 8.0, 8.5)
  }

  function Rise(): Bar {
    DayBar(2, 8.4, 8.6, 8.3, 8.5)
  }

  lemma ShortPolicy()
    ensures PolicyOf(SHORT_ROW, UNGUARDED) == Policy(0.0, Some(Trailing(0.0, 1.0, 1.0, false, 0.0)), false)
  {
  }

  /** The initial stop while the best price is below zero, the trail once it is 8. */
  lemma ShortStops()
    ensures var o := PolicyOf(SHORT_ROW, UNGUARDED);
            && StopRule(SHORT_ROW.terms, o, None) == Some(Rule(10.5, StopLoss))
            && StopRule(SHORT_ROW.terms, o, Some(-1.0)) == Some(Rule(10.5, StopLoss))
            && StopRule(SHORT_ROW.terms, o, Some(8.0)) == Some(Rule(8.4, TrailingStop))
  {
    ShortPolicy();
  }

  /** One bar that touches neither stop nor target moves the best price only. */
  lemma PassesBar(p: Progress, b: Bar)
    requires IsFiniteBar(b) && (p.peak == None || p.peak == Some(-1.0)) && b.px.high.value < 10.5
    ensures StepBar(SHORT_ROW.terms, PolicyOf(SHORT_ROW, UNGUARDED), p, b)
         == Going(AfterBar(SHORT_ROW.terms, PolicyOf(SHORT_ROW, UNGUARDED), p, b))
  {
    ShortStops();
    hide StopRule, AfterBar;
  }

  lemma PeakAfter(p: Progress, b: Bar)
    requires IsFiniteBar(b)
    ensures AfterBar(SHORT_ROW.terms, PolicyOf(SHORT_ROW, UNGUARDED), p, b).peak
         == BetterPeak(Short, BetterPeak(Short, p.peak, b.px.low), Some(10.0))
  {
    ShortPolicy();
  }

  /**
   * Walked in one window the price below zero stays the best price, which counts as none, and the position goes on;
   * checked in between it is not handed on, the next low starts a trail, and the same bars close the position.
   */
  lemma LowBelowZeroIsForgotten()
    ensures var w := WalkOver(SHORT_ROW, UNGUARDED, [Below()]);
            && w.Going? && w.p.peak == Some(-1.0) && Carry(SHORT_ROW, w.p).peakPrice == None
            && WalkOver(SHORT_ROW, UNGUARDED, [Below(), Fall(), Rise()]).Going?
            && WalkOver(Carry(SHORT_ROW, w.p), UNGUARDED, [Fall(), Rise()]).Exited?
  {
    var t, o := SHORT_ROW.terms, PolicyOf(SHORT_ROW, UNGUARDED);
    var start := Start(o, None);
    ShortPolicy();
    PassesBar(start, Below());
    PeakAfter(start, Below());
    var p := AfterBar(t, o, start, Below());
    PassesBar(p, Fall());
    PeakAfter(p, Fall());
    var q := AfterBar(t, o, p, Fall());
    PassesBar(q, Rise());
    PassesBar(start, Fall());
    PeakAfter(start, Fall());
    var u := AfterBar(t, o, start, Fall());
    RiseStopsOut(u);
    hide StepBar, AfterBar, BetterPeak;
    assert [Below()][1..] == [];
    assert [Below(), Fall(), Rise()][1..] == [Fall(), Rise()] && [Fall(), Rise()][1..] == [Rise()]
           && [Rise()][1..] == [];
    ShortCarries(p);
  }

  lemma RiseStopsOut(u: Progress)
    requires u.peak == Some(8.0)
    ensures StepBar(SHORT_ROW.terms, PolicyOf(SHORT_ROW, UNGUARDED), u, Rise()).Exited?
  {
    ShortStops();
    hide StopRule, AfterBar;
  }

  lemma ShortCarries(p: Progress)
    requires p.peak == Some(-1.0) && p.lastBarAvailableAt.Some?
    ensures Carry(SHORT_ROW, p).peakPrice == None && Carry(SHORT_ROW, p).terms == SHORT_ROW.terms
    ensures PolicyOf(Carry(SHORT_ROW, p), UNGUARDED) == PolicyOf(SHORT_ROW, UNGUARDED)
  {
  }
}
