/**
 * Walk-forward windows (src/backtest/pointInTime.js) and how the windows' walks tile the calendar:
 * which days each walks, and in which (window, day) slot a news timestamp falls.
 */
module WalkForward {
  import opened Calendar
  import opened Collections
  import Pipeline
  import opened SignalWalk

  datatype TestWindow = TestWindow(trainStart: int, testStart: int, testEnd: int)

  /** The k-th window: train on `trainDays`, test on the `testDays` after, rolled forward by `testDays`. */
  function WindowAt(start: int, trainDays: nat, testDays: nat, k: nat): TestWindow {
    var trainStart := start + k * (testDays * DAY_MS);
    TestWindow(trainStart, trainStart + trainDays * DAY_MS, trainStart + trainDays * DAY_MS + testDays * DAY_MS)
  }

  /** Rolls the windows until one would end after `end`. */
  method WalkForwardWindows(start: int, end: int, trainDays: nat, testDays: nat) returns (ws: seq<TestWindow>)
    requires testDays >= 1
    ensures forall k :: 0 <= k < |ws| ==> ws[k] == WindowAt(start, trainDays, testDays, k) && ws[k].testEnd <= end
    ensures WindowAt(start, trainDays, testDays, |ws|).testEnd > end
    ensures forall k :: 0 <= k < |ws| ==>
              && ws[k].trainStart == (if k == 0 then start else ws[k - 1].trainStart + testDays * 86_400_000)
              && ws[k].testStart == ws[k].trainStart + trainDays * 86_400_000
              && ws[k].testEnd == ws[k].testStart + testDays * 86_400_000
    ensures (if ws == [] then start + trainDays * 86_400_000 else ws[|ws| - 1].testEnd) + testDays * 86_400_000 > end
  {
    ws := [];
    var trainStart := start;
    while true
      invariant trainStart == start + |ws| * (testDays * DAY_MS)
      invariant forall k :: 0 <= k < |ws| ==> ws[k] == WindowAt(start, trainDays, testDays, k) && ws[k].testEnd <= end
      invariant forall k :: 0 <= k < |ws| ==>
                  && ws[k].trainStart == (if k == 0 then start else ws[k - 1].trainStart + testDays * 86_400_000)
                  && ws[k].testStart == ws[k].trainStart + trainDays * 86_400_000
                  && ws[k].testEnd == ws[k].testStart + testDays * 86_400_000
      invariant trainStart == if ws == [] then start else ws[|ws| - 1].trainStart + testDays * 86_400_000
      decreases end - trainStart
    {
      var trainEnd := trainStart + trainDays * DAY_MS;
      var testEnd := trainEnd + testDays * DAY_MS;
      if testEnd > end {
        return;
      }
      ws := ws + [TestWindow(trainStart, trainEnd, testEnd)];
      assert |ws| * (testDays * DAY_MS) == (|ws| - 1) * (testDays * DAY_MS) + testDays * DAY_MS;
      trainStart := trainStart + testDays * DAY_MS;
    }
  }

  /** How many windows fit. */
  function WindowCount(start: int, end: int, trainDays: nat, testDays: nat): (n: nat)
    requires testDays >= 1
    ensures forall k :: 0 <= k < n ==> WindowAt(start, trainDays, testDays, k).testEnd <= end
    ensures WindowAt(start, trainDays, testDays, n).testEnd > end
  {
    CountFrom(start, end, trainDays, testDays, 0)
  }

  function CountFrom(start: int, end: int, trainDays: nat, testDays: nat, k: nat): (n: nat)
    requires testDays >= 1
    ensures k <= n
    ensures forall j :: k <= j < n ==> WindowAt(start, trainDays, testDays, j).testEnd <= end
    ensures WindowAt(start, trainDays, testDays, n).testEnd > end
    decreases end - (start + k * (testDays * DAY_MS)) + DAY_MS
  {
    if WindowAt(start, trainDays, testDays, k).testEnd > end then k
    else
      Grows(testDays, k);
      CountFrom(start, end, trainDays, testDays, k + 1)
  }

  lemma Grows(testDays: nat, k: nat)
    ensures (k + 1) * (testDays * DAY_MS) == k * (testDays * DAY_MS) + testDays * DAY_MS
  {
  }

  /** The generator yields exactly the windows that fit, in order. */
  function Windows(start: int, end: int, trainDays: nat, testDays: nat): (ws: seq<TestWindow>)
    requires testDays >= 1
    ensures |ws| == WindowCount(start, end, trainDays, testDays)
    ensures forall k :: 0 <= k < |ws| ==> ws[k] == WindowAt(start, trainDays, testDays, k)
  {
    seq(WindowCount(start, end, trainDays, testDays), k requires 0 <= k => WindowAt(start, trainDays, testDays, k))
  }

  lemma GeneratorYieldsWindows(start: int, end: int, trainDays: nat, testDays: nat, ws: seq<TestWindow>)
    requires testDays >= 1
    requires forall k :: 0 <= k < |ws| ==> ws[k] == WindowAt(start, trainDays, testDays, k) && ws[k].testEnd <= end
    requires WindowAt(start, trainDays, testDays, |ws|).testEnd > end
    ensures ws == Windows(start, end, trainDays, testDays)
  {
    var n := WindowCount(start, end, trainDays, testDays);
    assert WindowAt(start, trainDays, testDays, |ws|).testEnd > end;
    assert n == |ws|;
  }

  /**
   * The default test length is the whole span's, rounded up to days. It gives its one window exactly when
   * the span is a whole number of days; otherwise the window would end after the span and none fits.
   */
  lemma DefaultLengthFitsWholeDaysOnly(start: int, end: int)
    requires start < end
    ensures var days := (end - start + DAY_MS - 1) / DAY_MS;
            && days >= 1
            && |Windows(start, end, 0, days)| == (if (end - start) % DAY_MS == 0 then 1 else 0)
  {
    var days := (end - start + DAY_MS - 1) / DAY_MS;
    assert WindowAt(start, 0, days, 0).testEnd == start + days * DAY_MS;
    Grows(days, 0);
    assert WindowAt(start, 0, days, 1).testEnd == start + 2 * (days * DAY_MS);
  }

  // ---- Tiling -------------------------------------------------------------------------

  /** Windows as the walk takes them: contiguous, only the last with a grace tail, each at least one day long. */
  ghost predicate Consecutive(ws: seq<Window>) {
    && |ws| > 0
    && (forall k :: 0 <= k < |ws| ==>
          && ws[k].testStart + DAY_MS <= ws[k].testEnd
          && ws[k].isLast == (k == |ws| - 1)
          && (if ws[k].isLast then ws[k].walkEnd >= ws[k].testEnd else ws[k].walkEnd == ws[k].testEnd - DAY_MS))
    && (forall k :: 0 < k < |ws| ==> ws[k].testStart == ws[k - 1].testEnd)
  }

  function AllDays(ws: seq<Window>): seq<int> {
    if ws == [] then [] else Days(ws[0]) + AllDays(ws[1..])
  }

  /**
   * The windows' walks visit every calendar day from the first to the last exactly once, in order: one exit
   * check a day.
   */
  lemma {:induction false} WalksTileTheDays(ws: seq<Window>)
    requires Consecutive(ws)
    ensures AllDays(ws) == DayRange(ws[0].testStart, ws[|ws| - 1].walkEnd)
  {
    if |ws| == 1 {
      assert ws[1..] == [];
    } else {
      var rest := ws[1..];
      assert Consecutive(rest) by {
        assert forall k :: 0 <= k < |rest| ==> rest[k] == ws[k + 1];
      }
      WalksTileTheDays(rest);
      WalkReachesLastDay(rest);
      assert DayOf(ws[0].walkEnd) + 1 == DayOf(rest[0].testStart);
    }
  }

  lemma {:induction false} WalkReachesLastDay(ws: seq<Window>)
    requires Consecutive(ws)
    ensures DayOf(ws[0].testStart) <= DayOf(ws[|ws| - 1].walkEnd)
  {
    if |ws| > 1 {
      var rest := ws[1..];
      assert forall k :: 0 <= k < |rest| ==> rest[k] == ws[k + 1];
      WalkReachesLastDay(rest);
    }
  }

  /** Whether window `w` reads an item published at `p` on its walk day `day`. */
  predicate InSlot(w: Window, day: int, p: int) {
    IsWalkDay(w, day) && Max(w.testStart, day * DAY_MS) <= p < Min(w.testEnd, (day + 1) * DAY_MS)
  }

  /** A slot is exactly what one ticker-day reads. */
  lemma SlotIsDayItems(news: News, w: Window, t: nat, day: int, item: Pipeline.NewsItem)
    requires t < |w.tickers| && IsWalkDay(w, day)
    ensures item in DayItems(news, w, t, day) <==>
              w.tickers[t] in news && item in news[w.tickers[t]] && InSlot(w, day, item.publishedAt)
  {
  }

  /** A timestamp falls in at most one slot of all windows. */
  lemma AtMostOneSlot(ws: seq<Window>, j: nat, d: int, k: nat, e: int, p: int)
    requires Consecutive(ws) && j < |ws| && k < |ws|
    requires InSlot(ws[j], d, p) && InSlot(ws[k], e, p)
    ensures j == k && d == e
  {
    if j < k {
      StartsAfterEnd(ws, j, k);
    } else if k < j {
      StartsAfterEnd(ws, k, j);
    }
  }

  lemma {:induction false} StartsAfterEnd(ws: seq<Window>, j: nat, k: nat)
    requires Consecutive(ws) && j < k < |ws|
    ensures ws[j].testEnd <= ws[k].testStart
    decreases k - j
  {
    if j + 1 < k {
      StartsAfterEnd(ws, j, k - 1);
    }
  }

  /** Some window reads an item published at `p`. */
  ghost predicate Covered(ws: seq<Window>, p: int) {
    exists k, day :: 0 <= k < |ws| && InSlot(ws[k], day, p)
  }

  /** The part of an inner boundary day before the boundary: no window walks it with its news. */
  predicate BeforeInnerBoundary(ws: seq<Window>, k: nat, p: int)
    requires k < |ws|
  {
    !ws[k].isLast && DayOf(ws[k].testEnd) * DAY_MS <= p < ws[k].testEnd
  }

  lemma {:induction false} WindowOf(ws: seq<Window>, p: int) returns (k: nat)
    requires Consecutive(ws) && ws[0].testStart <= p < ws[|ws| - 1].testEnd
    ensures k < |ws| && ws[k].testStart <= p < ws[k].testEnd
  {
    k := 0;
    while p >= ws[k].testEnd
      invariant k < |ws| && ws[k].testStart <= p
      decreases |ws| - k
    {
      k := k + 1;
    }
  }

  /**
   * A timestamp of the span is read by some slot exactly when it does not precede an inner boundary on the
   * boundary's own day.
   */
  lemma SlotUnlessBeforeBoundary(ws: seq<Window>, p: int)
    requires Consecutive(ws) && ws[0].testStart <= p < ws[|ws| - 1].testEnd
    ensures Covered(ws, p)
       <==> (forall k :: 0 <= k < |ws| ==> !BeforeInnerBoundary(ws, k, p))
  {
    var k := WindowOf(ws, p);
    var day := DayOf(p);
    if !BeforeInnerBoundary(ws, k, p) {
      assert InSlot(ws[k], day, p);
      forall j | 0 <= j < |ws| ensures !BeforeInnerBoundary(ws, j, p) {
        if j < k {
          StartsAfterEnd(ws, j, k);
        } else if k < j {
          StartsAfterEnd(ws, k, j);
        }
      }
    } else {
      forall j, d | 0 <= j < |ws| ensures !InSlot(ws[j], d, p) {
        if j < k {
          StartsAfterEnd(ws, j, k);
        } else if k < j {
          StartsAfterEnd(ws, k, j);
        }
      }
    }
  }

  /**
   * Every timestamp of the span falls in a slot exactly when every inner boundary is at midnight: one
   * window, or windows cut at 00:00Z. Otherwise news from midnight to the boundary is never read.
   */
  lemma NewsIsCoveredIffCutAtMidnight(ws: seq<Window>)
    requires Consecutive(ws)
    ensures (forall p :: ws[0].testStart <= p < ws[|ws| - 1].testEnd ==> Covered(ws, p))
       <==> (forall k :: 0 <= k < |ws| - 1 ==> ws[k].testEnd % DAY_MS == 0)
  {
    if forall k :: 0 <= k < |ws| - 1 ==> ws[k].testEnd % DAY_MS == 0 {
      forall p | ws[0].testStart <= p < ws[|ws| - 1].testEnd
        ensures Covered(ws, p)
      {
        SlotUnlessBeforeBoundary(ws, p);
      }
    } else {
      var k :| 0 <= k < |ws| - 1 && ws[k].testEnd % DAY_MS != 0;
      var p := ws[k].testEnd - 1;
      assert BeforeInnerBoundary(ws, k, p);
      InsideSpan(ws, k, p);
      SlotUnlessBeforeBoundary(ws, p);
    }
  }

  lemma InsideSpan(ws: seq<Window>, k: nat, p: int)
    requires Consecutive(ws) && k < |ws| && ws[k].testStart <= p < ws[k].testEnd
    ensures ws[0].testStart <= p < ws[|ws| - 1].testEnd
  {
    if k > 0 {
      StartsAfterEnd(ws, 0, k);
    }
    if k < |ws| - 1 {
      StartsAfterEnd(ws, k, |ws| - 1);
    }
  }
}
