/**
 * Scoring the two curves (src/backtest/metrics.js, signalCompare.js and the window slices of equity.js): compounding,
 * drawdown, and pooling the walk-forward windows.
 */
module Scoring {
  import opened Calendar
  import opened Collections
  import opened Equity
  import WalkForward

  // ---- Compounding --------------------------------------------------------------------------

  function Grow(x: real, r: real): real {
    x * (1.0 + r)
  }

  /** Growth of 1 over a series of returns. */
  function Growth(r: seq<real>): real {
    if r == [] then 1.0 else Grow(Growth(r[..|r| - 1]), r[|r| - 1])
  }

  function CumulativeReturn(r: seq<real>): real {
    Growth(r) - 1.0
  }

  predicate AllNumbers(r: seq<Option<real>>) {
    forall x :: x in r ==> x.Some?
  }

  function Numbers(r: seq<Option<real>>): (n: seq<real>)
    requires AllNumbers(r)
    ensures |n| == |r|
  {
    if r == [] then [] else Numbers(r[..|r| - 1]) + [r[|r| - 1].value]
  }

  lemma NumbersStep(r: seq<Option<real>>, x: Option<real>)
    requires AllNumbers(r + [x])
    ensures AllNumbers(r) && x.Some? && Numbers(r + [x]) == Numbers(r) + [x.value]
    ensures Growth(Numbers(r + [x])) == Grow(Growth(Numbers(r)), x.value)
  {
    hide Grow;
    assert x in r + [x] && forall y :: y in r ==> y in r + [x];
    assert (r + [x])[..|r|] == r;
    var n := Numbers(r);
    assert (n + [x.value])[..|n|] == n;
  }

  lemma GrowByRatio(a: real, d: real)
    requires a != 0.0
    ensures Grow(a, d / a) == a + d
  {
  }

  /** Compounding the signal's daily returns gives exactly its final equity. */
  lemma {:induction false} OnCompounds(g: Grid, ps: seq<Position>, c: real, k: nat)
    requires ValidGrid(g) && AllUsable(g, ps) && k <= |g.dates| && AllNumbers(OnReturns(g, ps, c, k))
    ensures Growth(Numbers(OnReturns(g, ps, c, k))) == EquityPath(g, ps, c, k)[k]
  {
    if k > 0 {
      var e, r := EquityPath(g, ps, c, k - 1), OnReturns(g, ps, c, k - 1);
      var x := Ratio(DayPnl(g, ps, c, e, k - 1), e[k - 1]);
      assert OnReturns(g, ps, c, k) == r + [x];
      NumbersStep(r, x);
      OnCompounds(g, ps, c, k - 1);
      GrowByRatio(e[k - 1], DayPnl(g, ps, c, e, k - 1));
      hide DayPnl, Growth, Numbers, Grow;
    }
  }

  /** Compounding the buy-and-hold returns gives the mean price relative to the entries, less one entry cost. */
  lemma {:induction false} OffCompounds(g: Grid, c: real, k: nat)
    requires ValidGrid(g) && g.tickers != [] && k <= |g.dates| && AllNumbers(OffReturns(g, c, k))
    ensures Growth(Numbers(OffReturns(g, c, k))) == if k == 0 then 1.0 else HoldValue(g, c, k - 1)
  {
    if k > 0 {
      var previous := if k == 1 then 1.0 else HoldValue(g, c, k - 2);
      var r, x := OffReturns(g, c, k - 1), Ratio(HoldValue(g, c, k - 1) - previous, previous);
      assert OffReturns(g, c, k) == r + [x];
      NumbersStep(r, x);
      OffCompounds(g, c, k - 1);
      GrowByRatio(previous, HoldValue(g, c, k - 1) - previous);
      hide HoldValue, Growth, Numbers, Grow;
    }
  }

  // ---- Drawdown -----------------------------------------------------------------------------

  /** The running equity, its peak and the worst fall from the peak so far. */
  datatype Fall = Fall(equity: real, peak: real, worst: real)

  /** How far below the peak the equity stands, as a fraction of the peak. */
  function Drop(peak: real, equity: real): real
    requires peak > 0.0
  {
    (peak - equity) / peak
  }

  function FallStep(f: Fall, equity: real): (s: Fall)
    requires f.peak >= 1.0
    ensures s.peak >= 1.0
  {
    var peak := if f.peak >= equity then f.peak else equity;
    Fall(equity, peak, if f.worst >= Drop(peak, equity) then f.worst else Drop(peak, equity))
  }

  function FallOver(r: seq<real>): (f: Fall)
    ensures f.peak >= 1.0
  {
    if r == [] then Fall(1.0, 1.0, 0.0)
    else
      var f := FallOver(r[..|r| - 1]);
      FallStep(f, Grow(f.equity, r[|r| - 1]))
  }

  method MaxDrawdown(r: seq<real>) returns (worst: real)
    ensures worst == FallOver(r).worst
  {
    hide Drop, Grow;
    var equity, peak := 1.0, 1.0;
    worst := 0.0;
    for i := 0 to |r|
      invariant Fall(equity, peak, worst) == FallOver(r[..i])
      invariant peak >= 1.0
    {
      assert r[..i + 1][..i] == r[..i];
      equity := Grow(equity, r[i]);
      peak := if peak >= equity then peak else equity;
      var down := Drop(peak, equity);
      worst := if worst >= down then worst else down;
    }
    assert r[..|r|] == r;
  }

  /** Falling from `a` to `b` loses at most, or exactly, the fraction `w` of `a`. */
  predicate FallsAtMost(a: real, b: real, w: real) {
    a - b <= w * a
  }

  predicate FallsBy(a: real, b: real, w: real) {
    a > 0.0 && a - b == w * a
  }

  /** The curve after the first `i` returns. */
  function GrowthTo(r: seq<real>, i: nat): real
    requires i <= |r|
  {
    Growth(r[..i])
  }

  /** Any fall of the curve, from one moment to a later one, is within the fraction. */
  ghost predicate FallsWithin(r: seq<real>, worst: real) {
    forall i, j :: 0 <= i <= j <= |r| ==> FallsAtMost(GrowthTo(r, i), GrowthTo(r, j), worst)
  }

  ghost predicate FallReached(r: seq<real>, worst: real) {
    exists i, j :: 0 <= i <= j <= |r| && FallsBy(GrowthTo(r, i), GrowthTo(r, j), worst)
  }

  ghost predicate PeakReached(r: seq<real>, peak: real) {
    && (forall i :: 0 <= i <= |r| ==> GrowthTo(r, i) <= peak)
    && exists i :: 0 <= i <= |r| && GrowthTo(r, i) == peak
  }

  predicate NoneBelowTotalLoss(r: seq<real>) {
    forall i :: 0 <= i < |r| ==> r[i] >= -1.0
  }

  lemma Product(a: real, b: real)
    requires a >= 0.0 && b >= 0.0
    ensures a * b >= 0.0
  {
  }

  lemma {:induction false} GrowthStays(r: seq<real>)
    requires NoneBelowTotalLoss(r)
    ensures Growth(r) >= 0.0
  {
    if r != [] {
      GrowthStays(r[..|r| - 1]);
      Product(Growth(r[..|r| - 1]), 1.0 + r[|r| - 1]);
    }
  }

  /** Without its last return the curve is the same up to there. */
  lemma {:induction false} PrefixesOf(r: seq<real>)
    requires r != []
    ensures forall i :: 0 <= i < |r| ==> GrowthTo(r[..|r| - 1], i) == GrowthTo(r, i)
    ensures GrowthTo(r, |r|) == Growth(r)
  {
    hide Growth;
    forall i | 0 <= i < |r| ensures GrowthTo(r[..|r| - 1], i) == GrowthTo(r, i) {
      assert r[..|r| - 1][..i] == r[..i];
    }
    assert r[..|r|] == r;
  }

  lemma FallStands(r: seq<real>)
    ensures FallOver(r).equity == Growth(r)
  {
    hide Drop, Grow;
    if r != [] {
      FallStands(r[..|r| - 1]);
    }
  }

  /** The peak is the highest the curve has stood, and it stood there. */
  lemma {:induction false} PeakIsReached(r: seq<real>)
    ensures PeakReached(r, FallOver(r).peak)
  {
    hide Drop, Grow;
    if r == [] {
      assert r[..0] == [] && GrowthTo(r, 0) == 1.0;
    } else {
      PeakIsReached(r[..|r| - 1]);
      FallStands(r[..|r| - 1]);
      PeakExtends(r, FallOver(r[..|r| - 1]).peak);
    }
  }

  lemma {:induction false} PeakExtends(r: seq<real>, was: real)
    requires r != [] && PeakReached(r[..|r| - 1], was)
    ensures PeakReached(r, if was >= Growth(r) then was else Growth(r))
  {
    hide Growth, GrowthTo;
    PrefixesOf(r);
    var n, peak := |r| - 1, if was >= Growth(r) then was else Growth(r);
    var k :| 0 <= k <= n && GrowthTo(r[..n], k) == was;
    assert GrowthTo(r, k) == was && GrowthTo(r, |r|) == Growth(r);
    forall i | 0 <= i <= |r| ensures GrowthTo(r, i) <= peak {
      if i <= n {
        assert GrowthTo(r[..n], i) <= was;
      }
    }
  }

  lemma DropIs(peak: real, equity: real)
    requires peak > 0.0
    ensures FallsBy(peak, equity, Drop(peak, equity)) && FallsAtMost(peak, equity, Drop(peak, equity))
    ensures equity >= 0.0 ==> Drop(peak, equity) <= 1.0
  {
  }

  /** A fall of at most the fraction `worst` from the peak is at most that from any lower point. */
  lemma FromLower(a: real, peak: real, equity: real, worst: real)
    requires 0.0 <= a <= peak && worst <= 1.0 && FallsAtMost(peak, equity, worst)
    ensures FallsAtMost(a, equity, worst)
  {
    Product(1.0 - worst, peak - a);
  }

  lemma ScaleWorst(a: real, b: real, small: real, large: real)
    requires a >= 0.0 && small <= large && FallsAtMost(a, b, small)
    ensures FallsAtMost(a, b, large)
  {
    Product(large - small, a);
  }

  lemma {:induction false} WorstIsBounded(r: seq<real>)
    requires NoneBelowTotalLoss(r)
    ensures 0.0 <= FallOver(r).worst <= 1.0
  {
    hide Drop, Grow;
    if r != [] {
      WorstIsBounded(r[..|r| - 1]);
      GrowthStays(r);
      FallStands(r);
      DropIs(FallOver(r).peak, FallOver(r).equity);
    }
  }

  /**
   * While no day loses more than everything, the maximum drawdown is the worst fall between any two moments of
   * the curve: no fall is worse, and one is exactly that.
   */
  lemma {:induction false} DrawdownIsTheWorstFall(r: seq<real>)
    requires NoneBelowTotalLoss(r)
    ensures FallsWithin(r, FallOver(r).worst) && FallReached(r, FallOver(r).worst)
  {
    if r == [] {
      assert r[..0] == [] && FallsBy(GrowthTo(r, 0), GrowthTo(r, 0), 0.0);
    } else {
      hide Drop, Grow, Growth, FallsWithin, FallReached, PeakReached;
      var was, now := FallOver(r[..|r| - 1]), FallOver(r);
      DrawdownIsTheWorstFall(r[..|r| - 1]);
      FallStands(r);
      PeakIsReached(r);
      WorstIsBounded(r);
      GrowthStaysAll(r);
      DropIs(now.peak, now.equity);
      FallsExtend(r, was.worst, now.worst, now.peak);
      if now.worst == was.worst {
        FallKept(r, was.worst);
      } else {
        FallFromPeak(r, now.peak, now.worst);
      }
    }
  }

  lemma GrowthStaysAll(r: seq<real>)
    requires NoneBelowTotalLoss(r)
    ensures forall i :: 0 <= i <= |r| ==> GrowthTo(r, i) >= 0.0
  {
    forall i | 0 <= i <= |r| ensures GrowthTo(r, i) >= 0.0 {
      GrowthStays(r[..i]);
    }
  }

  lemma {:induction false} FallsExtend(r: seq<real>, was: real, worst: real, peak: real)
    requires r != [] && FallsWithin(r[..|r| - 1], was) && was <= worst <= 1.0 && PeakReached(r, peak) && peak >= 1.0
    requires forall i :: 0 <= i <= |r| ==> GrowthTo(r, i) >= 0.0
    requires Drop(peak, Growth(r)) <= worst
    ensures FallsWithin(r, worst)
  {
    hide Growth, GrowthTo, Drop, FallsAtMost, FallsBy;
    PrefixesOf(r);
    var n := |r| - 1;
    DropIs(peak, Growth(r));
    ScaleWorst(peak, Growth(r), Drop(peak, Growth(r)), worst);
    forall i, j | 0 <= i <= j <= |r| ensures FallsAtMost(GrowthTo(r, i), GrowthTo(r, j), worst) {
      if j <= n {
        assert FallsAtMost(GrowthTo(r[..n], i), GrowthTo(r[..n], j), was);
        ScaleWorst(GrowthTo(r, i), GrowthTo(r, j), was, worst);
      } else {
        FromLower(GrowthTo(r, i), peak, Growth(r), worst);
      }
    }
  }

  lemma FallKept(r: seq<real>, worst: real)
    requires r != [] && FallReached(r[..|r| - 1], worst)
    ensures FallReached(r, worst)
  {
    hide Growth, GrowthTo, FallsBy;
    PrefixesOf(r);
    var n := |r| - 1;
    var i, j :| 0 <= i <= j <= n && FallsBy(GrowthTo(r[..n], i), GrowthTo(r[..n], j), worst);
    assert FallsBy(GrowthTo(r, i), GrowthTo(r, j), worst);
  }

  lemma FallFromPeak(r: seq<real>, peak: real, worst: real)
    requires PeakReached(r, peak) && peak >= 1.0 && worst == Drop(peak, Growth(r))
    ensures FallReached(r, worst)
  {
    hide Growth, Drop, FallsBy, FallsAtMost;
    DropIs(peak, Growth(r));
    assert r[..|r|] == r && GrowthTo(r, |r|) == Growth(r);
    var k :| 0 <= k <= |r| && GrowthTo(r, k) == peak;
    assert FallsBy(GrowthTo(r, k), GrowthTo(r, |r|), worst);
  }

  // ---- Slicing by windows -----------------------------------------------------------------------

  /** The values whose date lies in [from, until). */
  function SliceBetween<T>(dates: seq<int>, values: seq<T>, from: int, until: int): seq<T>
    requires |dates| == |values|
  {
    if dates == [] then []
    else
      var n := |dates| - 1;
      SliceBetween(dates[..n], values[..n], from, until) + (if from <= dates[n] < until then [values[n]] else [])
  }

  /** The values of a window's test dates. */
  function SliceSeriesByWindow<T>(dates: seq<int>, values: seq<T>, w: WalkForward.TestWindow): seq<T>
    requires |dates| == |values|
  {
    SliceBetween(dates, values, DayOf(w.testStart), DayOf(w.testEnd))
  }

  ghost predicate Ordered(dates: seq<int>) {
    forall i, j :: 0 <= i < j < |dates| ==> dates[i] < dates[j]
  }

  lemma {:induction false} SliceBeyond<T>(dates: seq<int>, values: seq<T>, from: int, until: int)
    requires |dates| == |values| && forall i :: 0 <= i < |dates| ==> dates[i] < from
    ensures SliceBetween(dates, values, from, until) == []
  {
    if dates != [] {
      var n := |dates| - 1;
      SliceBeyond(dates[..n], values[..n], from, until);
    }
  }

  /** Two slices that meet make the slice of both. */
  lemma {:induction false} SlicesJoin<T>(dates: seq<int>, values: seq<T>, a: int, b: int, c: int)
    requires |dates| == |values| && Ordered(dates) && a <= b <= c
    ensures SliceBetween(dates, values, a, b) + SliceBetween(dates, values, b, c) == SliceBetween(dates, values, a, c)
  {
    if dates != [] {
      var n := |dates| - 1;
      var d, v := dates[..n], values[..n];
      SlicesJoin(d, v, a, b, c);
      if dates[n] < b {
        SliceBeyond(d, v, b, c);
      }
      var x, y, last := SliceBetween(d, v, a, b), SliceBetween(d, v, b, c), [values[n]];
      assert x + (y + last) == (x + y) + last;
    }
  }

  lemma {:induction false} SliceOfAll<T>(dates: seq<int>, values: seq<T>, from: int, until: int)
    requires |dates| == |values| && forall i :: 0 <= i < |dates| ==> from <= dates[i] < until
    ensures SliceBetween(dates, values, from, until) == values
  {
    if dates != [] {
      var n := |dates| - 1;
      SliceOfAll(dates[..n], values[..n], from, until);
      assert values[..n] + [values[n]] == values;
    }
  }

  /** The slice is the stretch of values whose dates lie between the bounds, the first included and the second not. */
  lemma {:induction false} SliceMeans<T>(dates: seq<int>, values: seq<T>, from: int, until: int, i: nat, j: nat)
    requires |dates| == |values| && i <= j <= |dates|
    requires forall k :: 0 <= k < |dates| ==> (from <= dates[k] < until <==> i <= k < j)
    ensures SliceBetween(dates, values, from, until) == values[i..j]
  {
    if dates != [] {
      var n := |dates| - 1;
      var keeps := from <= dates[n] < until;
      assert SliceBetween(dates, values, from, until)
          == SliceBetween(dates[..n], values[..n], from, until) + (if keeps then [values[n]] else []);
      hide SliceBetween;
      if j == n + 1 && i <= n {
        SliceMeans(dates[..n], values[..n], from, until, i, n);
        assert values[i..j] == values[..n][i..n] + [values[n]];
      } else {
        var last := if j > n then n else j;
        var first := if i > n then n else i;
        SliceMeans(dates[..n], values[..n], from, until, first, last);
        assert values[i..j] == values[..n][first..last];
      }
    }
  }

  // ---- The comparison ---------------------------------------------------------------------------

  datatype Summary = Summary(n: nat, cumulativeReturn: real, maxDrawdown: real)

  datatype Comparison = Comparison(on: Summary, off: Summary, deltaReturn: real, deltaDrawdown: real)

  function Summarize(r: seq<real>): Summary {
    Summary(|r|, CumulativeReturn(r), FallOver(r).worst)
  }

  /** Both sides summarized; each difference is signed so that a positive one favours the signal. */
  function Compare(on: seq<real>, off: seq<real>): Comparison {
    var a, b := Summarize(on), Summarize(off);
    Comparison(a, b, a.cumulativeReturn - b.cumulativeReturn, b.maxDrawdown - a.maxDrawdown)
  }

  /**
   * What a comparison says: the growth of 1 on either side less 1, the worst falls, and how much more the signal
   * returned and how much less it fell.
   */
  lemma CompareMeans(on: seq<real>, off: seq<real>)
    ensures var c := Compare(on, off);
            && c.on.n == |on| && c.off.n == |off|
            && c.on.cumulativeReturn + 1.0 == Growth(on) && c.off.cumulativeReturn + 1.0 == Growth(off)
            && c.off.cumulativeReturn + c.deltaReturn == c.on.cumulativeReturn
            && c.on.maxDrawdown + c.deltaDrawdown == c.off.maxDrawdown
            && (NoneBelowTotalLoss(on) ==> FallsWithin(on, c.on.maxDrawdown) && FallReached(on, c.on.maxDrawdown))
            && (NoneBelowTotalLoss(off) ==> FallsWithin(off, c.off.maxDrawdown) && FallReached(off, c.off.maxDrawdown))
  {
    hide Growth, FallOver, FallsWithin, FallReached;
    if NoneBelowTotalLoss(on) {
      DrawdownIsTheWorstFall(on);
    }
    if NoneBelowTotalLoss(off) {
      DrawdownIsTheWorstFall(off);
    }
  }

  method SummarizeReturns(r: seq<real>) returns (s: Summary)
    ensures s == Summarize(r)
  {
    var growth := 1.0;
    for i := 0 to |r|
      invariant growth == Growth(r[..i])
    {
      hide Grow;
      assert r[..i + 1][..i] == r[..i];
      growth := Grow(growth, r[i]);
    }
    assert r[..|r|] == r;
    var worst := MaxDrawdown(r);
    s := Summary(|r|, growth - 1.0, worst);
  }

  method CompareSignalOnOff(on: seq<real>, off: seq<real>) returns (c: Comparison)
    ensures c == Compare(on, off)
  {
    var a := SummarizeReturns(on);
    var b := SummarizeReturns(off);
    c := Comparison(a, b, a.cumulativeReturn - b.cumulativeReturn, b.maxDrawdown - a.maxDrawdown);
  }

  /** The span of the test windows, in dates. */
  function SpanFrom(start: int, trainDays: nat, testDays: nat): int {
    DayOf(WalkForward.WindowAt(start, trainDays, testDays, 0).testStart)
  }

  function SpanUntil(start: int, trainDays: nat, testDays: nat, n: nat): int {
    DayOf(WalkForward.WindowAt(start, trainDays, testDays, n).testStart)
  }

  /** The span runs from the end of the first training stretch, over `n` test lengths. */
  lemma SpanMeans(start: int, trainDays: nat, testDays: nat, n: nat)
    ensures SpanFrom(start, trainDays, testDays) == DayOf(start + trainDays * 86_400_000)
    ensures SpanUntil(start, trainDays, testDays, n)
         == DayOf(start + trainDays * 86_400_000 + n * (testDays * 86_400_000))
  {
  }

  lemma WindowsMeet(start: int, trainDays: nat, testDays: nat, k: nat)
    ensures WalkForward.WindowAt(start, trainDays, testDays, k).testEnd ==
              WalkForward.WindowAt(start, trainDays, testDays, k + 1).testStart
    ensures WalkForward.WindowAt(start, trainDays, testDays, 0).testStart <= WalkForward.WindowAt(start, trainDays,
                testDays, k).testStart
  {
    WalkForward.Grows(testDays, k);
    assert k * (testDays * DAY_MS) >= 0;
  }

  /** Each window compared on its own slice, and all of them pooled. */
  method CompareSignalOnOffByWindow(start: int, end: int, trainDays: nat, testDays: nat, dates: seq<int>, on: seq<real>,
                                    off: seq<real>)
    returns (perWindow: seq<Comparison>, overall: Comparison)
    requires testDays >= 1 && |dates| == |on| == |off| && Ordered(dates)
    ensures var ws := WalkForward.Windows(start, end, trainDays, testDays);
            && |perWindow| == |ws|
            && (forall k :: 0 <= k < |ws| ==>
                  perWindow[k] ==
                    Compare(SliceSeriesByWindow(dates, on, ws[k]), SliceSeriesByWindow(dates, off, ws[k])))
            && var a, b := SpanFrom(start, trainDays, testDays), SpanUntil(start, trainDays, testDays, |ws|);
            overall == Compare(SliceBetween(dates, on, a, b), SliceBetween(dates, off, a, b))
  {
    hide Compare, SliceBetween;
    var ws := WalkForward.WalkForwardWindows(start, end, trainDays, testDays);
    WalkForward.GeneratorYieldsWindows(start, end, trainDays, testDays, ws);
    perWindow := [];
    var pooledOn: seq<real>, pooledOff: seq<real> := [], [];
    ghost var a := SpanFrom(start, trainDays, testDays);
    EmptySlice(dates, on, a);
    EmptySlice(dates, off, a);
    for k := 0 to |ws|
      invariant |perWindow| == k
      invariant forall j :: 0 <= j < k ==>
                  perWindow[j] == Compare(SliceSeriesByWindow(dates, on, ws[j]), SliceSeriesByWindow(dates, off, ws[j]))
      invariant pooledOn == SliceBetween(dates, on, a, SpanUntil(start, trainDays, testDays, k))
      invariant pooledOff == SliceBetween(dates, off, a, SpanUntil(start, trainDays, testDays, k))
    {
      var onReturns, offReturns := SliceSeriesByWindow(dates, on, ws[k]), SliceSeriesByWindow(dates, off, ws[k]);
      PoolOne(start, trainDays, testDays, k, dates, on);
      PoolOne(start, trainDays, testDays, k, dates, off);
      pooledOn := pooledOn + onReturns;
      pooledOff := pooledOff + offReturns;
      var c := CompareSignalOnOff(onReturns, offReturns);
      perWindow := perWindow + [c];
    }
    overall := CompareSignalOnOff(pooledOn, pooledOff);
  }

  lemma {:induction false} EmptySlice<T>(dates: seq<int>, values: seq<T>, a: int)
    requires |dates| == |values|
    ensures SliceBetween(dates, values, a, a) == []
  {
    if dates != [] {
      EmptySlice(dates[..|dates| - 1], values[..|dates| - 1], a);
    }
  }

  lemma {:induction false} PoolOne<T>(start: int, trainDays: nat, testDays: nat, k: nat, dates: seq<int>,
                                      values: seq<T>)
    requires |dates| == |values| && Ordered(dates)
    ensures var a, w := SpanFrom(start, trainDays, testDays), WalkForward.WindowAt(start, trainDays, testDays, k);
            SliceBetween(dates, values, a, SpanUntil(start, trainDays, testDays, k))
              + SliceSeriesByWindow(dates, values, w)
            == SliceBetween(dates, values, a, SpanUntil(start, trainDays, testDays, k + 1))
  {
    WindowsMeet(start, trainDays, testDays, k);
    WindowsMeet(start, trainDays, testDays, k + 1);
    SlicesJoin(dates, values, SpanFrom(start, trainDays, testDays), SpanUntil(start, trainDays, testDays, k),
               SpanUntil(start, trainDays, testDays, k + 1));
  }

  /**
   * When the windows' span holds every date of the grid, the pooled comparison's return is, on the signal side,
   * the final equity less 1, and on the buy-and-hold side the mean of last price over entry price, net of one
   * entry cost, less 1.
   */
  lemma {:induction false} PooledReturnIsFinalEquity(g: Grid, ps: seq<Position>, c: real, from: int, until: int)
    requires ValidGrid(g) && AllUsable(g, ps) && g.tickers != [] && g.dates != []
    requires AllNumbers(OnReturns(g, ps, c, |g.dates|)) && AllNumbers(OffReturns(g, c, |g.dates|))
    requires forall i :: 0 <= i < |g.dates| ==> from <= g.dates[i] < until
    ensures var n := |g.dates|;
            var on, off := Numbers(OnReturns(g, ps, c, n)), Numbers(OffReturns(g, c, n));
            var r := Compare(SliceBetween(g.dates, on, from, until), SliceBetween(g.dates, off, from, until));
            && r.on.cumulativeReturn == EquityPath(g, ps, c, n)[n] - 1.0
            && r.off.cumulativeReturn == PriceSum(g, g.tickers, n - 1) / (|g.tickers| as real) * (1.0 - c) - 1.0
  {
    hide OnReturns, OffReturns, EquityPath, PriceSum, Compare, HoldValue, SliceBetween, Growth;
    var n := |g.dates|;
    var on, off := Numbers(OnReturns(g, ps, c, n)), Numbers(OffReturns(g, c, n));
    OnCompounds(g, ps, c, n);
    OffCompounds(g, c, n);
    SliceOfAll(g.dates, on, from, until);
    SliceOfAll(g.dates, off, from, until);
    ReturnsCompared(on, off);
    HoldValueIs(g, c, n - 1);
  }

  lemma ReturnsCompared(on: seq<real>, off: seq<real>)
    ensures Compare(on, off).on.cumulativeReturn == Growth(on) - 1.0
            && Compare(on, off).off.cumulativeReturn == Growth(off) - 1.0
  {
    hide Growth, FallOver;
  }

  lemma HoldValueIs(g: Grid, c: real, k: nat)
    requires ValidGrid(g) && g.tickers != [] && k < |g.dates|
    ensures HoldValue(g, c, k) == PriceSum(g, g.tickers, k) / (|g.tickers| as real) * (1.0 - c)
  {
    hide PriceSum;
  }
}
