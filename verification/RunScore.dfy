/**
 * The score phase of a run (src/backtest/runBacktest.js): the price grid of the walked span, cut back to the test
 * windows' span, the two daily curves on it, and their comparison window by window and pooled.
 */
module RunScore {
  import opened Calendar
  import opened Collections
  import opened Returns
  import opened Equity
  import opened EquityLaws
  import opened PriceGrid
  import opened Scoring
  import WalkForward

  // ---- Which returns are numbers ------------------------------------------------------------

  ghost predicate Positive(g: Grid)
    requires ValidGrid(g)
  {
    forall t, k :: t in g.tickers && 0 <= k < |g.dates| ==> g.closes[t][k] > 0.0
  }

  /** A column of a fit ticker has only prices of its bars. */
  lemma ColumnIsPositive(bars: seq<Close>, from: int, until: int, maxGap: int, dates: seq<int>, column: seq<real>)
    requires ByDay(bars) && forall b :: b in bars ==> b.price > 0.0
    requires CoverageOf(bars, from, until, maxGap).Covered?
             && ColumnOk(column, dates, CoverageOf(bars, from, until, maxGap))
    ensures forall k :: 0 <= k < |dates| ==> column[k] > 0.0
  {
    hide CoverageOf;
    CoveredSpan(bars, from, until, maxGap);
    SpanMembers(bars, from, until);
    hide InSpan, LastBefore;
  }

  lemma BuiltIsPositive(bars: map<int, seq<Close>>, g: Grid, from: int, until: int, maxGap: int)
    requires Prices(bars) && ValidGrid(g)
    requires forall t :: t in g.tickers ==>
               InPlace(g.closes, g.basis, g.dates, t, CoverageOf(BarsOf(bars, t), from, until, maxGap))
    ensures Positive(g)
  {
    hide CoverageOf, ColumnOk;
    forall t | t in g.tickers ensures forall k :: 0 <= k < |g.dates| ==> g.closes[t][k] > 0.0 {
      assert InPlace(g.closes, g.basis, g.dates, t, CoverageOf(BarsOf(bars, t), from, until, maxGap));
      ColumnIsCovered(g.closes[t], g.dates, CoverageOf(BarsOf(bars, t), from, until, maxGap));
      ColumnIsPositive(BarsOf(bars, t), from, until, maxGap, g.dates, g.closes[t]);
    }
  }

  lemma ColumnIsCovered(column: seq<real>, dates: seq<int>, c: Coverage)
    requires ColumnOk(column, dates, c)
    ensures c.Covered?
  {
  }

  lemma {:induction false} PricesAddUp(g: Grid, tickers: seq<int>, k: nat)
    requires ValidGrid(g) && Positive(g) && k < |g.dates| && forall t :: t in tickers ==> t in g.tickers
    ensures PriceSum(g, tickers, k) >= 0.0 && (tickers != [] ==> PriceSum(g, tickers, k) > 0.0)
  {
    if tickers != [] {
      var t := tickers[|tickers| - 1];
      PricesAddUp(g, tickers[..|tickers| - 1], k);
      assert g.closes[t][k] / g.basis[t] > 0.0;
    }
  }

  lemma ScaledIsNone(a: real, b: real)
    requires a > 0.0
    ensures a * b == 0.0 <==> b == 0.0
  {
    if b > 0.0 {
      assert a * b > 0.0;
    } else if b < 0.0 {
      assert a * b < 0.0;
    }
  }

  lemma HoldValueIsNone(g: Grid, c: real, k: nat)
    requires ValidGrid(g) && Positive(g) && g.tickers != [] && k < |g.dates|
    ensures HoldValue(g, c, k) == 0.0 <==> c == 1.0
  {
    PricesAddUp(g, g.tickers, k);
    hide PriceSum, Positive, ValidGrid;
    ScaledIsNone(PriceSum(g, g.tickers, k) / (|g.tickers| as real), 1.0 - c);
  }

  lemma AllNumbersStep(r: seq<Option<real>>, x: Option<real>)
    ensures AllNumbers(r + [x]) <==> AllNumbers(r) && x.Some?
  {
    if AllNumbers(r + [x]) {
      assert forall y :: y in r ==> y in r + [x];
      assert x in r + [x];
    }
  }

  /** The buy-and-hold side divides by nothing exactly when its entry cost took everything. */
  lemma {:induction false} OffIsNumbers(g: Grid, c: real, k: nat)
    requires ValidGrid(g) && Positive(g) && g.tickers != [] && k <= |g.dates|
    ensures AllNumbers(OffReturns(g, c, k)) <==> k <= 1 || c != 1.0
  {
    hide Positive, ValidGrid, HoldValue, AllNumbers;
    if k == 0 {
      NoReturns();
    } else {
      OffIsNumbers(g, c, k - 1);
      var previous := if k == 1 then 1.0 else HoldValue(g, c, k - 2);
      AllNumbersStep(OffReturns(g, c, k - 1), Ratio(HoldValue(g, c, k - 1) - previous, previous));
      if k > 1 {
        HoldValueIsNone(g, c, k - 2);
      }
    }
  }

  lemma NoReturns()
    ensures AllNumbers([])
  {
  }

  /** No day starts from an equity of nothing. */
  ghost predicate NeverNothing(e: seq<real>, k: nat)
    requires k <= |e|
  {
    forall j :: 0 <= j < k ==> e[j] != 0.0
  }

  lemma NeverNothingStep(e: seq<real>, x: real, k: nat)
    requires |e| == k + 1
    ensures NeverNothing(e + [x], k + 1) <==> NeverNothing(e, k) && e[k] != 0.0
  {
    assert forall j :: 0 <= j < k + 1 ==> (e + [x])[j] == e[j];
  }

  /** The signal side divides by nothing exactly when some day starts from it. */
  lemma {:induction false} OnIsNumbers(g: Grid, ps: seq<Position>, c: real, k: nat)
    requires ValidGrid(g) && AllUsable(g, ps) && k <= |g.dates|
    ensures AllNumbers(OnReturns(g, ps, c, k)) <==> NeverNothing(EquityPath(g, ps, c, k), k)
  {
    hide DayPnl, ValidGrid, AllUsable, AllNumbers;
    if k == 0 {
      NoReturns();
    } else {
      OnIsNumbers(g, ps, c, k - 1);
      hide NeverNothing;
      var e := EquityPath(g, ps, c, k - 1);
      var pnl := DayPnl(g, ps, c, e, k - 1);
      NeverNothingStep(e, e[k - 1] + pnl, k - 1);
      AllNumbersStep(OnReturns(g, ps, c, k - 1), Ratio(pnl, e[k - 1]));
    }
  }

  // ---- The phase ----------------------------------------------------------------------------

  /** The preflight refuses a ticker; some return divides by nothing, and nothing can be said; or the comparisons. */
  datatype Score = NoCoverage(problems: seq<(int, Problem)>) | NoNumbers
                 | Scored(perWindow: seq<Comparison>, overall: Comparison)

  datatype Terms = Terms(start: int, end: int, trainDays: nat, testDays: nat, walkEnd: int, maxGap: int,
                         costBps: Option<real>)

  function From(t: Terms): int {
    SpanFrom(t.start, t.trainDays, t.testDays)
  }

  /** The end of the last test window, in dates. */
  function Until(t: Terms): int
    requires t.testDays >= 1
  {
    SpanUntil(t.start, t.trainDays, t.testDays, WalkForward.WindowCount(t.start, t.end, t.trainDays, t.testDays))
  }

  /** The scored span in days since the epoch, from the first test start to the last test end. */
  lemma SpanOfTerms(t: Terms)
    requires t.testDays >= 1
    ensures From(t) * 86_400_000 <= t.start + t.trainDays * 86_400_000 < (From(t) + 1) * 86_400_000
    ensures var n := WalkForward.WindowCount(t.start, t.end, t.trainDays, t.testDays);
            Until(t) == DayOf(t.start + t.trainDays * 86_400_000 + n * (t.testDays * 86_400_000))
  {
    SpanMeans(t.start, t.trainDays, t.testDays, WalkForward.WindowCount(t.start, t.end, t.trainDays, t.testDays));
  }

  /** Every ticker's column and basis on the grid are those of its bars. */
  ghost predicate PricedAs(bars: map<int, seq<Close>>, tickers: seq<int>, t: Terms, g: Grid) {
    forall k :: k in tickers ==>
      InPlace(g.closes, g.basis, g.dates, k, CoverageOf(BarsOf(bars, k), From(t), DayOf(t.walkEnd), t.maxGap))
  }

  lemma TruncatedPrices(bars: map<int, seq<Close>>, tickers: seq<int>, t: Terms, g: Grid, end: int)
    requires ValidGrid(g) && g.tickers == tickers && PricedAs(bars, tickers, t, g)
    ensures PricedAs(bars, tickers, t, TruncateGrid(g, end))
  {
    var h := TruncateGrid(g, end);
    hide CoverageOf, BarFor;
    forall k | k in tickers
      ensures InPlace(h.closes, h.basis, h.dates, k,
                      CoverageOf(BarsOf(bars, k), From(t), DayOf(t.walkEnd), t.maxGap))
    {
      assert InPlace(g.closes, g.basis, g.dates, k,
                     CoverageOf(BarsOf(bars, k), From(t), DayOf(t.walkEnd), t.maxGap));
    }
  }

  /** The scored grid: a column per ticker over the tickers' dates of the windows' span. */
  ghost predicate ScoredGrid(bars: map<int, seq<Close>>, tickers: seq<int>, t: Terms, g: Grid)
    requires t.testDays >= 1
  {
    && ValidGrid(g) && Positive(g) && g.tickers == tickers
    && (forall d :: d in g.dates <==>
          d < Until(t) && exists k, b :: k in tickers && b in InSpan(BarsOf(bars, k), From(t), DayOf(t.walkEnd))
                            && b.date == d)
  }

  /** Some day's return divides by nothing. */
  ghost predicate LostAll(g: Grid, ps: seq<Position>, c: real)
    requires ValidGrid(g) && AllUsable(g, ps)
  {
    || !NeverNothing(EquityPath(g, ps, c, |g.dates|), |g.dates|)
    || (c == 1.0 && |g.dates| > 1)
  }

  /** Truncating keeps the dates before the end and the prices on them. */
  lemma TruncatedKeeps(g: Grid, end: int)
    requires ValidGrid(g) && Positive(g)
    ensures var h := TruncateGrid(g, end);
            ValidGrid(h) && Positive(h) && h.tickers == g.tickers && forall d :: d in h.dates <==>
              d in g.dates && d < end
  {
    TruncatedIsValid(g, end);
    var n, h := DatesBefore(g.dates, end), TruncateGrid(g, end);
    forall d | d in g.dates && d < end ensures d in h.dates {
      var i :| 0 <= i < |g.dates| && g.dates[i] == d;
      assert i < n;
      assert h.dates[i] == d;
    }
  }

  lemma WindowsSpanDates(bars: map<int, seq<Close>>, tickers: seq<int>, t: Terms, g: Grid)
    requires t.testDays >= 1 && ScoredGrid(bars, tickers, t, g)
    ensures forall i :: 0 <= i < |g.dates| ==> From(t) <= g.dates[i] < Until(t)
    ensures g.dates != [] ==> tickers != []
  {
    hide SpanFrom, SpanUntil, Positive, ValidGrid;
    forall i | 0 <= i < |g.dates| ensures From(t) <= g.dates[i] < Until(t) && tickers != [] {
      var d := g.dates[i];
      assert d in g.dates;
      var k, b :| k in tickers && b in InSpan(BarsOf(bars, k), From(t), DayOf(t.walkEnd)) && b.date == d;
      SpanMembers(BarsOf(bars, k), From(t), DayOf(t.walkEnd));
    }
    if g.dates != [] {
      assert From(t) <= g.dates[0];
    }
  }

  /** The pooled returns: what the positions added, and what holding every ticker added. */
  lemma PooledIs(bars: map<int, seq<Close>>, tickers: seq<int>, t: Terms, g: Grid, ps: seq<Position>, c: real,
                 on: seq<real>, off: seq<real>)
    requires t.testDays >= 1 && ScoredGrid(bars, tickers, t, g) && AllUsable(g, ps)
    requires |on| == |off| == |g.dates|
    requires g.dates != [] ==>
               && g.tickers != []
               && AllNumbers(OnReturns(g, ps, c, |g.dates|)) && on == Numbers(OnReturns(g, ps, c, |g.dates|))
               && AllNumbers(OffReturns(g, c, |g.dates|)) && off == Numbers(OffReturns(g, c, |g.dates|))
    ensures var r :=
              Compare(SliceBetween(g.dates, on, From(t), Until(t)), SliceBetween(g.dates, off, From(t), Until(t)));
            var n := |g.dates|;
            && r.on.cumulativeReturn == NetSum(g, ps, c, EquityPath(g, ps, c, n), n)
            && (g.dates != [] ==>
                  r.off.cumulativeReturn == PriceSum(g, g.tickers, n - 1) / (|g.tickers| as real) * (1.0 - c) - 1.0)
  {
    var n := |g.dates|;
    WindowsSpanDates(bars, tickers, t, g);
    EquityIsConserved(g, ps, c, n);
    hide ScoredGrid, From, Until, NetSum, PriceSum, Compare, AllNumbers, OnReturns, OffReturns, EquityPath, Positive;
    if g.dates != [] {
      PooledReturnIsFinalEquity(g, ps, c, From(t), Until(t));
    } else {
      NothingScored(g, ps, c, on, off, From(t), Until(t));
    }
  }

  lemma NothingScored(g: Grid, ps: seq<Position>, c: real, on: seq<real>, off: seq<real>, from: int, until: int)
    requires ValidGrid(g) && AllUsable(g, ps) && g.dates == [] && on == [] && off == []
    ensures Compare(SliceBetween(g.dates, on, from, until),
                    SliceBetween(g.dates, off, from, until)).on.cumulativeReturn == 0.0
    ensures EquityPath(g, ps, c, 0)[0] == 1.0
  {
  }

  /** Every window is compared on the returns of its own dates. */
  ghost predicate ComparedByWindow(cs: seq<Comparison>, t: Terms, g: Grid, on: seq<Option<real>>,
                                   off: seq<Option<real>>)
    requires t.testDays >= 1 && |on| == |off| == |g.dates|
  {
    && AllNumbers(on) && AllNumbers(off)
    && var ws := WalkForward.Windows(t.start, t.end, t.trainDays, t.testDays);
       && |cs| == |ws|
       && forall k :: 0 <= k < |ws| ==>
            cs[k] == Compare(SliceSeriesByWindow(g.dates, Numbers(on), ws[k]),
                             SliceSeriesByWindow(g.dates, Numbers(off), ws[k]))
  }

  /** Both sides' returns, as numbers, when they are. */
  function NumbersOrNone(r: seq<Option<real>>): (n: Option<seq<real>>)
    ensures n.Some? <==> AllNumbers(r)
    ensures n.Some? ==> n.value == Numbers(r)
  {
    if AllNumbers(r) then Some(Numbers(r)) else None
  }

  /**
   * The score phase. It scores unless a ticker's prices are unfit or an equity of nothing is divided by; the
   * pooled return is then, on the signal side, exactly what its positions added net of their costs, and on the
   * other the mean of last price over entry price, net of one entry cost.
   */
  method ScoreRun(bars: map<int, seq<Close>>, tickers: seq<int>, t: Terms, positions: seq<Position>)
    returns (r: Score, ghost g: Grid)
    requires Prices(bars) && t.testDays >= 1
    ensures r.NoCoverage? <==> Problems(bars, tickers, From(t), DayOf(t.walkEnd), t.maxGap) != []
    ensures r.NoCoverage? ==> r.problems == Problems(bars, tickers, From(t), DayOf(t.walkEnd), t.maxGap)
    ensures !r.NoCoverage? ==> ScoredGrid(bars, tickers, t, g) && PricedAs(bars, tickers, t, g)
    ensures !r.NoCoverage? ==>
              var ps, c, n := Replayable(g, positions), SideCostFraction(t.costBps), |g.dates|;
              && (r.NoNumbers? <==> LostAll(g, ps, c))
              && (r.Scored? ==>
                    && |r.perWindow| == WalkForward.WindowCount(t.start, t.end, t.trainDays, t.testDays)
                    && r.overall.on.cumulativeReturn == NetSum(g, ps, c, EquityPath(g, ps, c, n), n)
                    && (g.dates != [] ==>
                          && g.tickers != []
                          && r.overall.off.cumulativeReturn ==
                               PriceSum(g, g.tickers, n - 1) / (|g.tickers| as real) * (1.0 - c) - 1.0
                          && ComparedByWindow(r.perWindow, t, g, OnReturns(g, ps, c, n), OffReturns(g, c, n))))
  {
    hide Fit, Problems, InSpan, CoverageOf, AllNumbers, OnReturns, OffReturns, EquityPath, NetSum, PriceSum, Compare,
         SliceBetween,
         OnExposure, TradedIds, InPlace, Replayable, SideCostFraction, SpanFrom, SpanUntil;
    var built, problems := BuildPriceGrid(bars, tickers, From(t), DayOf(t.walkEnd), t.maxGap);
    BuiltIsPositive(bars, built, From(t), DayOf(t.walkEnd), t.maxGap);
    if problems != [] {
      return NoCoverage(problems), built;
    }
    TruncatedPrices(bars, tickers, t, built, Until(t));
    hide PricedAs;
    TruncatedKeeps(built, Until(t));
    var grid := TruncateGrid(built, Until(t));
    hide TruncateGrid, Positive;
    g := grid;
    WindowsSpanDates(bars, tickers, t, g);
    ghost var ps, c, n := Replayable(g, positions), SideCostFraction(t.costBps), |g.dates|;
    var on := OnEquityReturns(grid, positions, t.costBps);
    var off := OffEquityReturns(grid, t.costBps);
    NoReturns();
    if n > 0 {
      OnIsNumbers(g, ps, c, n);
      OffIsNumbers(g, c, n);
    }
    var onReturns, offReturns := NumbersOrNone(on.daily), NumbersOrNone(off);
    if onReturns.None? || offReturns.None? {
      return NoNumbers, g;
    }
    var perWindow, overall :=
          CompareSignalOnOffByWindow(t.start, t.end, t.trainDays, t.testDays, grid.dates, onReturns.value,
                                     offReturns.value);
    PooledIs(bars, tickers, t, g, ps, c, onReturns.value, offReturns.value);
    r := Scored(perWindow, overall);
  }
}
