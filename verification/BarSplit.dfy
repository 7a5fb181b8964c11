/**
 * When splitting a window at the cursor (src/shared/bar_window.js, src/graph/exit_check.js) loses or repeats a bar: the
 * exact condition for bars of any alignment, and for a daily read cut off at its cap.
 */
module BarSplit {
  import opened BarWindow
  import opened Calendar
  import opened Collections

  // ---- Bars of any alignment ----------------------------------------------------------------

  /** What a window holds when neither read is cut off. */
  ghost function Uncut(t: BarTable, anchor: int, asOf: int): seq<Bar> {
    BarSequence(VisibleIntraday(t, anchor, asOf), VisibleDaily(t, anchor, asOf), false)
  }

  lemma UncutIsWindow(t: BarTable, anchor: int, asOf: int, intradayCap: nat, dailyCap: nat)
    requires |VisibleIntraday(t, anchor, asOf)| <= intradayCap && FullDays(t, anchor, asOf, dailyCap)
    ensures Window(t, anchor, asOf, intradayCap, dailyCap) == Uncut(t, anchor, asOf)
  {
    hide BarSequence, VisibleIntraday, VisibleDaily;
  }

  /** Some intraday bar of the day has closed. */
  ghost predicate HasClosedRow(t: BarTable, day: int, asOf: int) {
    exists r :: r in t.intraday && DayOf(r.ts) == day && r.ts + BAR_MS <= asOf
  }

  ghost predicate IntradayBarOf(t: BarTable, anchor: int, asOf: int, b: Bar) {
    exists r :: r in t.intraday && b == FromIntraday(r) && InSpan(b, anchor, asOf)
  }

  ghost predicate DailyBarOf(t: BarTable, anchor: int, asOf: int, b: Bar) {
    exists d :: d in t.daily && b == FromDaily(d) && InSpan(b, anchor, asOf) && !HasClosedRow(t, d.date, asOf)
  }

  lemma UncutMembers(t: BarTable, anchor: int, asOf: int, b: Bar)
    requires ValidTable(t)
    ensures Chronological(Uncut(t, anchor, asOf))
    ensures b in Uncut(t, anchor, asOf) <==> IntradayBarOf(t, anchor, asOf, b) || DailyBarOf(t, anchor, asOf, b)
  {
    hide BarSequence, VisibleIntraday, VisibleDaily, DayOf, KeepsDaily;
    var i, v := VisibleIntraday(t, anchor, asOf), VisibleDaily(t, anchor, asOf);
    WindowOrdered(t, anchor, asOf, |i|, |v|);
    UncutIsWindow(t, anchor, asOf, |i|, |v|);
    assert b in Uncut(t, anchor, asOf) <==> IsBarOf(i, v, false, b);
    forall r ensures r in i <==> r in t.intraday && InSpan(FromIntraday(r), anchor, asOf) {
      InRead(t, anchor, asOf, r);
    }
    forall d ensures d in v <==> d in t.daily && InSpan(FromDaily(d), anchor, asOf) {
      InDailyRead(t, anchor, asOf, d);
      SpanOfDay(d, anchor, asOf);
    }
    forall d | d in v ensures KeepsDaily(i, false, d) <==> !HasClosedRow(t, d.date, asOf) {
      KeptIffNoRow(t, anchor, asOf, d);
    }
  }

  lemma KeptIffNoRow(t: BarTable, anchor: int, asOf: int, d: DailyRow)
    requires ValidTable(t) && d in VisibleDaily(t, anchor, asOf)
    ensures KeepsDaily(VisibleIntraday(t, anchor, asOf), false, d) <==> !HasClosedRow(t, d.date, asOf)
  {
    hide VisibleIntraday, VisibleDaily;
    InDailyRead(t, anchor, asOf, d);
    forall r
      ensures r in VisibleIntraday(t, anchor, asOf) <==> r in t.intraday && anchor <= r.ts && r.ts + BAR_MS <= asOf
    {
      InRead(t, anchor, asOf, r);
    }
    assert forall r: IntradayRow :: DayOf(r.ts) == d.date ==> d.date * DAY_MS <= r.ts;
  }

  /**
   * Nothing is lost or repeated when a window read at `first` is continued from its cursor up to `later`: no
   * intraday bar opened before the cursor closes only afterwards; no day with a daily bar only is under way at
   * the cursor; and no day taken from its daily bar has an intraday bar that closes only afterwards.
   */
  ghost predicate SplitsClean(t: BarTable, anchor: int, first: int, later: int, cursor: int) {
    && (forall r :: r in t.intraday && anchor <= r.ts < cursor && r.ts + BAR_MS <= later ==> r.ts + BAR_MS <= first)
    && (forall d :: d in t.daily && InSpan(FromDaily(d), anchor, later) && !HasClosedRow(t, d.date, later) ==>
          d.date * DAY_MS < cursor ==> (d.date + 1) * DAY_MS <= first)
    && (forall d :: d in t.daily && InSpan(FromDaily(d), anchor, first) ==>
          HasClosedRow(t, d.date, later) ==> HasClosedRow(t, d.date, first))
  }

  ghost predicate SameBars(s: seq<Bar>, u: seq<Bar>) {
    forall b :: b in s <==> b in u
  }

  /** Whatever the alignment of the bars, a split at the cursor loses and repeats nothing exactly on such a table. */
  lemma SplitsIff(t: BarTable, anchor: int, first: int, later: int)
    requires ValidTable(t) && first <= later && Uncut(t, anchor, first) != []
    ensures var w := Uncut(t, anchor, first);
            var cursor := w[|w| - 1].availableAt;
            Uncut(t, anchor, later) == w + Uncut(t, cursor, later) <==> SplitsClean(t, anchor, first, later, cursor)
  {
    hide Uncut, SplitsClean, Chronological;
    var w := Uncut(t, anchor, first);
    var last := w[|w| - 1];
    var cursor := last.availableAt;
    var rest, whole := Uncut(t, cursor, later), Uncut(t, anchor, later);
    UncutMembers(t, anchor, first, last);
    UncutMembers(t, cursor, later, last);
    UncutMembers(t, anchor, later, last);
    LastOpens(w, last);
    LastSpan(t, anchor, first, last);
    forall b | b in rest ensures last.openMs < b.openMs {
      UncutMembers(t, cursor, later, b);
      InItsSpan(t, cursor, later, b);
    }
    JoinOrdered(w, w, rest);
    if SameBars(whole, w + rest) {
      OneOrder(whole, w + rest);
    }
    SplitMembers(t, anchor, first, later, w, cursor);
  }

  lemma LastOpens(w: seq<Bar>, last: Bar)
    requires w != [] && last == w[|w| - 1] && Chronological(w)
    ensures last in w && forall b :: b in w ==> b.openMs <= last.openMs
  {
  }

  lemma InItsSpan(t: BarTable, anchor: int, asOf: int, b: Bar)
    requires IntradayBarOf(t, anchor, asOf, b) || DailyBarOf(t, anchor, asOf, b)
    ensures InSpan(b, anchor, asOf) && b.openMs < b.availableAt
  {
  }

  lemma LastSpan(t: BarTable, anchor: int, asOf: int, last: Bar)
    requires ValidTable(t) && last in Uncut(t, anchor, asOf)
    ensures anchor <= last.openMs < last.availableAt <= asOf
  {
    hide Uncut;
    UncutMembers(t, anchor, asOf, last);
    InItsSpan(t, anchor, asOf, last);
  }

  lemma SplitMembers(t: BarTable, anchor: int, first: int, later: int, w: seq<Bar>, cursor: int)
    requires ValidTable(t) && w == Uncut(t, anchor, first) && w != [] && cursor == w[|w| - 1].availableAt
    requires first <= later && anchor < cursor <= first
    requires forall b :: b in w ==> b.openMs < cursor
    ensures SameBars(Uncut(t, anchor, later), w + Uncut(t, cursor, later)) <==>
              SplitsClean(t, anchor, first, later, cursor)
  {
    hide Uncut, IntradayBarOf, DailyBarOf, SplitsClean;
    var rest, whole := Uncut(t, cursor, later), Uncut(t, anchor, later);
    forall b
      ensures b in w <==> IntradayBarOf(t, anchor, first, b) || DailyBarOf(t, anchor, first, b)
      ensures b in rest <==> IntradayBarOf(t, cursor, later, b) || DailyBarOf(t, cursor, later, b)
      ensures b in whole <==> IntradayBarOf(t, anchor, later, b) || DailyBarOf(t, anchor, later, b)
    {
      UncutMembers(t, anchor, first, b);
      UncutMembers(t, cursor, later, b);
      UncutMembers(t, anchor, later, b);
    }
    if SplitsClean(t, anchor, first, later, cursor) {
      forall b ensures b in whole <==> b in w + rest {
        CleanIntraday(t, anchor, first, later, cursor, b);
        CleanDaily(t, anchor, first, later, cursor, b);
      }
    } else if SameBars(whole, w + rest) {
      forall b
        ensures IntradayBarOf(t, anchor, later, b) || DailyBarOf(t, anchor, later, b) <==>
                || IntradayBarOf(t, anchor, first, b) || DailyBarOf(t, anchor, first, b)
                || IntradayBarOf(t, cursor, later, b) || DailyBarOf(t, cursor, later, b)
      {
        assert b in whole <==> b in w || b in rest;
      }
      SameBarsAreClean(t, anchor, first, later, cursor);
    }
  }

  lemma CleanIntraday(t: BarTable, anchor: int, first: int, later: int, cursor: int, b: Bar)
    requires SplitsClean(t, anchor, first, later, cursor) && first <= later && anchor < cursor <= first
    ensures IntradayBarOf(t, anchor, later, b) <==>
              IntradayBarOf(t, anchor, first, b) || IntradayBarOf(t, cursor, later, b)
  {
    hide HasClosedRow;
  }

  lemma CleanDaily(t: BarTable, anchor: int, first: int, later: int, cursor: int, b: Bar)
    requires SplitsClean(t, anchor, first, later, cursor) && first <= later && anchor < cursor <= first
    ensures DailyBarOf(t, anchor, later, b) <==> DailyBarOf(t, anchor, first, b) || DailyBarOf(t, cursor, later, b)
  {
    forall day | HasClosedRow(t, day, first) ensures HasClosedRow(t, day, later) {
      var r :| r in t.intraday && DayOf(r.ts) == day && r.ts + BAR_MS <= first;
    }
    hide HasClosedRow, SplitsClean;
    forall d | d in t.daily && b == FromDaily(d)
      ensures InSpan(b, anchor, later) && !HasClosedRow(t, d.date, later) <==>
              || (InSpan(b, anchor, first) && !HasClosedRow(t, d.date, first))
              || (InSpan(b, cursor, later) && !HasClosedRow(t, d.date, later))
    {
      CleanDay(t, anchor, first, later, cursor, d);
    }
  }

  lemma CleanDay(t: BarTable, anchor: int, first: int, later: int, cursor: int, d: DailyRow)
    requires SplitsClean(t, anchor, first, later, cursor) && d in t.daily
    ensures InSpan(FromDaily(d), anchor, later) && d.date * DAY_MS < cursor && !HasClosedRow(t, d.date, later) ==>
              InSpan(FromDaily(d), anchor, first)
    ensures InSpan(FromDaily(d), anchor, first) && HasClosedRow(t, d.date, later) ==> HasClosedRow(t, d.date, first)
  {
    hide HasClosedRow;
  }

  lemma SameBarsAreClean(t: BarTable, anchor: int, first: int, later: int, cursor: int)
    requires first <= later && anchor < cursor <= first
    requires forall b :: IntradayBarOf(t, anchor, later, b) || DailyBarOf(t, anchor, later, b) <==>
                || IntradayBarOf(t, anchor, first, b) || DailyBarOf(t, anchor, first, b)
                || IntradayBarOf(t, cursor, later, b) || DailyBarOf(t, cursor, later, b)
    ensures SplitsClean(t, anchor, first, later, cursor)
  {
    forall r | r in t.intraday && anchor <= r.ts < cursor && r.ts + BAR_MS <= later ensures r.ts + BAR_MS <= first {
      assert IntradayBarOf(t, anchor, later, FromIntraday(r));
    }
    forall d | d in t.daily && InSpan(FromDaily(d), anchor, later) && !HasClosedRow(t, d.date, later)
      ensures d.date * DAY_MS < cursor ==> (d.date + 1) * DAY_MS <= first
    {
      assert DailyBarOf(t, anchor, later, FromDaily(d));
    }
    forall d | d in t.daily && InSpan(FromDaily(d), anchor, first) && HasClosedRow(t, d.date, later)
      ensures HasClosedRow(t, d.date, first)
    {
      assert !HasClosedRow(t, d.date, first) ==> DailyBarOf(t, anchor, first, FromDaily(d));
    }
  }

  /** Grid bars leave every split clean, wherever the cursor is the close of a bar of the table. */
  lemma GridSplitsClean(t: BarTable, anchor: int, first: int, later: int, last: Bar)
    requires ValidTable(t) && OnGrid(t) && first <= later
    requires IntradayBarOf(t, anchor, first, last) || DailyBarOf(t, anchor, first, last)
    ensures SplitsClean(t, anchor, first, later, last.availableAt)
  {
    hide DayOf;
    var cursor := last.availableAt;
    forall r | r in t.intraday && r.ts < cursor ensures r.ts + BAR_MS <= first {
      CloseIsOnGrid(t, anchor, first, last);
      GridStep(r.ts, cursor);
    }
    forall d | d in t.daily && !HasClosedRow(t, d.date, later) && d.date * DAY_MS < cursor
      ensures (d.date + 1) * DAY_MS <= first
    {
      if r :| r in t.intraday && last == FromIntraday(r) && InSpan(last, anchor, first) {
        WithinDay(r);
        assert DayOf(r.ts) == d.date ==> HasClosedRow(t, d.date, later);
      }
    }
    forall d | d in t.daily && InSpan(FromDaily(d), anchor, first) && HasClosedRow(t, d.date, later)
      ensures HasClosedRow(t, d.date, first)
    {
      var r :| r in t.intraday && DayOf(r.ts) == d.date && r.ts + BAR_MS <= later;
      WithinDay(r);
    }
  }

  lemma CloseIsOnGrid(t: BarTable, anchor: int, asOf: int, b: Bar)
    requires OnGrid(t) && (IntradayBarOf(t, anchor, asOf, b) || DailyBarOf(t, anchor, asOf, b))
    ensures b.availableAt % BAR_MS == 0 && b.availableAt <= asOf
  {
    hide DayOf, HasClosedRow;
    if r :| r in t.intraday && b == FromIntraday(r) && InSpan(b, anchor, asOf) {
      NextOnGrid(r.ts);
    } else {
      var d :| d in t.daily && b == FromDaily(d) && InSpan(b, anchor, asOf) && !HasClosedRow(t, d.date, asOf);
      MidnightOnGrid(d.date + 1);
    }
  }

  lemma NextOnGrid(ts: int)
    requires ts % BAR_MS == 0
    ensures (ts + BAR_MS) % BAR_MS == 0
  {
  }

  lemma MidnightOnGrid(day: int)
    ensures (day * DAY_MS) % BAR_MS == 0
  {
    assert day * DAY_MS == (day * 288) * BAR_MS;
    Multiple(day * 288);
  }

  lemma Multiple(n: int)
    ensures (n * BAR_MS) % BAR_MS == 0
  {
  }

  // ---- A daily read cut off at its cap --------------------------------------------------------

  /** No daily bar beyond the cap, of a day without intraday bars, opens before an intraday bar that was read. */
  ghost predicate NothingSkipped(t: BarTable, anchor: int, asOf: int, intradayCap: nat, dailyCap: nat) {
    var v := VisibleDaily(t, anchor, asOf);
    |v| > dailyCap ==>
      forall d :: d in v[dailyCap..] ==>
        || (exists r :: r in t.intraday && DayOf(r.ts) == d.date)
        || (forall r :: r in Capped(VisibleIntraday(t, anchor, asOf), intradayCap).rows ==> r.ts < d.date * DAY_MS)
  }

  /**
   * On the grid a check, cut off anyhow, and one from its cursor see what one late check sees iff it skipped
   * nothing.
   */
  lemma CutReadSplitsIff(t: BarTable, anchor: int, first: int, later: int, intradayCap: nat, dailyCap: nat)
    requires ValidTable(t) && OnGrid(t) && first <= later && intradayCap > 0
    requires Window(t, anchor, first, intradayCap, dailyCap) != []
    ensures var w := Window(t, anchor, first, intradayCap, dailyCap);
            Slice(t, anchor, later) == w + Slice(t, w[|w| - 1].availableAt, later)
            <==> NothingSkipped(t, anchor, first, intradayCap, dailyCap)
  {
    hide Window, Slice, NothingSkipped;
    var w := Window(t, anchor, first, intradayCap, dailyCap);
    if NothingSkipped(t, anchor, first, intradayCap, dailyCap) {
      WindowIsFirstPart(t, anchor, first, intradayCap, dailyCap);
      SplitAtCursor(t, anchor, first, later, w);
    } else {
      var d := SkippedDay(t, anchor, first, intradayCap, dailyCap);
      var cursor := w[|w| - 1].availableAt;
      InSlice(t, anchor, later, FromDaily(d));
      InSlice(t, cursor, later, FromDaily(d));
      assert FromDaily(d) in Slice(t, anchor, later) && FromDaily(d) !in w + Slice(t, cursor, later);
    }
  }

  /** A window that skipped nothing is a first part of its slice. */
  lemma WindowIsFirstPart(t: BarTable, anchor: int, asOf: int, intradayCap: nat, dailyCap: nat)
    requires ValidTable(t) && OnGrid(t) && intradayCap > 0 && NothingSkipped(t, anchor, asOf, intradayCap, dailyCap)
    ensures Window(t, anchor, asOf, intradayCap, dailyCap) <= Slice(t, anchor, asOf)
  {
    hide Window, Slice, AllBars, Reaches, ReachesDay, NothingSkipped, InSpan;
    var w, f := Window(t, anchor, asOf, intradayCap, dailyCap), Slice(t, anchor, asOf);
    WindowOrdered(t, anchor, asOf, intradayCap, dailyCap);
    SliceOrdered(t, anchor, asOf);
    forall b
      ensures b in w <==> b in f && Reaches(t, anchor, asOf, intradayCap, b) && ReachesDay(t, anchor, asOf, dailyCap, b)
    {
      WindowMembersCut(t, anchor, asOf, intradayCap, dailyCap, b);
      InSlice(t, anchor, asOf, b);
    }
    forall b, c | b in w && c in f && c.openMs <= b.openMs ensures c in w {
      ReachesBefore(t, anchor, asOf, intradayCap, b, c);
      if !ReachesDay(t, anchor, asOf, dailyCap, c) {
        InSlice(t, anchor, asOf, b);
        InSlice(t, anchor, asOf, c);
        BeyondTheCap(t, anchor, asOf, intradayCap, dailyCap, b, c);
      }
    }
    PrefixByOpen(w, f);
  }

  lemma ReachesBefore(t: BarTable, anchor: int, asOf: int, intradayCap: nat, b: Bar, c: Bar)
    requires Reaches(t, anchor, asOf, intradayCap, b) && c.openMs <= b.openMs
    ensures Reaches(t, anchor, asOf, intradayCap, c)
  {
    hide VisibleIntraday;
  }

  /** A daily bar beyond the cap opens after every bar read, when nothing was skipped. */
  lemma BeyondTheCap(t: BarTable, anchor: int, asOf: int, intradayCap: nat, dailyCap: nat, b: Bar, c: Bar)
    requires ValidTable(t) && OnGrid(t) && intradayCap > 0 && NothingSkipped(t, anchor, asOf, intradayCap, dailyCap)
    requires b in AllBars(t) && c in AllBars(t) && InSpan(b, anchor, asOf) && InSpan(c, anchor, asOf)
    requires Reaches(t, anchor, asOf, intradayCap, b) && ReachesDay(t, anchor, asOf, dailyCap, b)
    requires !ReachesDay(t, anchor, asOf, dailyCap, c)
    ensures b.openMs < c.openMs
  {
    hide AllBars, VisibleIntraday, VisibleDaily, DayOf;
    var v := VisibleDaily(t, anchor, asOf);
    AllBarsAre(t, b);
    AllBarsAre(t, c);
    var d :| d in t.daily && c == FromDaily(d) && forall r :: r in t.intraday ==> DayOf(r.ts) != d.date;
    InDailyRead(t, anchor, asOf, d);
    InDailyCut(t, anchor, asOf, dailyCap, d);
    assert v == v[..dailyCap] + v[dailyCap..];
    if r :| r in t.intraday && b == FromIntraday(r) {
      IntradayInWindow(t, anchor, asOf, intradayCap, r);
    }
  }

  /** A day skipped: its daily bar is in the span, was not read, and opens before the cursor. */
  lemma SkippedDay(t: BarTable, anchor: int, asOf: int, intradayCap: nat, dailyCap: nat) returns (d: DailyRow)
    requires ValidTable(t) && OnGrid(t) && intradayCap > 0 && !NothingSkipped(t, anchor, asOf, intradayCap, dailyCap)
    ensures var w := Window(t, anchor, asOf, intradayCap, dailyCap);
            && FromDaily(d) in AllBars(t) && InSpan(FromDaily(d), anchor, asOf)
            && FromDaily(d) !in w && w != [] && FromDaily(d).openMs < w[|w| - 1].availableAt
  {
    hide Window, AllBars, VisibleIntraday, VisibleDaily, DayOf, Reaches;
    var v, i := VisibleDaily(t, anchor, asOf), Capped(VisibleIntraday(t, anchor, asOf), intradayCap).rows;
    var w := Window(t, anchor, asOf, intradayCap, dailyCap);
    d :| d in v[dailyCap..] && (forall r :: r in t.intraday ==> DayOf(r.ts) != d.date)
      && exists r :: r in i && r.ts >= d.date * DAY_MS;
    var r :| r in i && r.ts >= d.date * DAY_MS;
    assert d in v;
    InDailyRead(t, anchor, asOf, d);
    SpanOfDay(d, anchor, asOf);
    AllBarsAre(t, FromDaily(d));
    BeyondIsCut(t, anchor, asOf, dailyCap, d);
    WindowMembersCut(t, anchor, asOf, intradayCap, dailyCap, FromDaily(d));
    IntradayInWindow(t, anchor, asOf, intradayCap, r);
    IntradayReachesDay(t, anchor, asOf, dailyCap, r);
    AllBarsAre(t, FromIntraday(r));
    WindowMembersCut(t, anchor, asOf, intradayCap, dailyCap, FromIntraday(r));
    WindowOrdered(t, anchor, asOf, intradayCap, dailyCap);
    LastOpens(w, w[|w| - 1]);
    WindowMembersCut(t, anchor, asOf, intradayCap, dailyCap, w[|w| - 1]);
    ApartInTime(t, w[|w| - 1], w[|w| - 1]);
  }

  lemma BeyondIsCut(t: BarTable, anchor: int, asOf: int, dailyCap: nat, d: DailyRow)
    requires ValidTable(t) && |VisibleDaily(t, anchor, asOf)| > dailyCap
             && d in VisibleDaily(t, anchor, asOf)[dailyCap..]
    ensures !ReachesDay(t, anchor, asOf, dailyCap, FromDaily(d))
  {
    var v := VisibleDaily(t, anchor, asOf);
    var p := (d: DailyRow) => DailyFrom(anchor) <= d.date < DayOf(asOf);
    var byDate := (d: DailyRow) => d.date;
    FilterStrictlyBy(t.daily, p, byDate);
    assert v == Filter(t.daily, p);
    hide VisibleDaily;
    var k :| 0 <= k < |v| - dailyCap && v[dailyCap..][k] == d;
    assert v[dailyCap + k] == d;
    assert dailyCap > 0 ==> byDate(v[dailyCap - 1]) < byDate(v[dailyCap + k]);
  }

  // ---- Where splits fail ------------------------------------------------------------------------

  /**
   * Two overlapping bars: the second opened before the first one's close and closes after it, so no later check
   * reads it.
   */
  lemma OverlappingBarIsNeverRead(px: Ohlc)
    ensures var second := IntradayRow(180_000, px);
            var t := BarTable([IntradayRow(0, px), second], []);
            && ValidTable(t) && !OnGrid(t)
            && Window(t, 0, BAR_MS, INTRADAY_ROW_CAP, DAILY_ROW_CAP) == [FromIntraday(IntradayRow(0, px))]
            && (forall later :: FromIntraday(second) !in Window(t, BAR_MS, later, INTRADAY_ROW_CAP, DAILY_ROW_CAP))
            && FromIntraday(second) in Window(t, 0, 2 * BAR_MS, INTRADAY_ROW_CAP, DAILY_ROW_CAP)
  {
    hide Uncut, Window, VisibleIntraday, VisibleDaily;
    var one, two := IntradayRow(0, px), IntradayRow(180_000, px);
    var t := BarTable([one, two], []);
    forall anchor, asOf ensures Window(t, anchor, asOf, INTRADAY_ROW_CAP, DAILY_ROW_CAP) == Uncut(t, anchor, asOf) {
      FewRows(t, anchor, asOf);
    }
    var w := Uncut(t, 0, BAR_MS);
    forall b ensures b in w <==> b == FromIntraday(one) {
      UncutMembers(t, 0, BAR_MS, b);
    }
    UncutMembers(t, 0, BAR_MS, FromIntraday(one));
    OneOrder(w, [FromIntraday(one)]);
    forall later ensures FromIntraday(two) !in Uncut(t, BAR_MS, later) {
      UncutMembers(t, BAR_MS, later, FromIntraday(two));
    }
    UncutMembers(t, 0, 2 * BAR_MS, FromIntraday(two));
    assert two in t.intraday;
  }

  lemma FewRows(t: BarTable, anchor: int, asOf: int)
    requires |t.intraday| <= INTRADAY_ROW_CAP && |t.daily| <= DAILY_ROW_CAP
    ensures Window(t, anchor, asOf, INTRADAY_ROW_CAP, DAILY_ROW_CAP) == Uncut(t, anchor, asOf)
  {
    hide Uncut, Window;
    UncutIsWindow(t, anchor, asOf, INTRADAY_ROW_CAP, DAILY_ROW_CAP);
  }

  /**
   * A bar across midnight puts the cursor inside a day that has a daily bar only, and no later check reads that
   * bar.
   */
  lemma DayUnderTheCursorIsNeverRead(px: Ohlc)
    ensures var t := BarTable([IntradayRow(DAY_MS - 120_000, px)], [DailyRow(1, px)]);
            var first := DAY_MS + 180_000;
            && ValidTable(t) && !OnGrid(t)
            && Window(t, 0, first, INTRADAY_ROW_CAP, DAILY_ROW_CAP) == [FromIntraday(t.intraday[0])]
            && FromIntraday(t.intraday[0]).availableAt == first
            && (forall later :: FromDaily(t.daily[0]) !in Window(t, first, later, INTRADAY_ROW_CAP, DAILY_ROW_CAP))
            && FromDaily(t.daily[0]) in Window(t, 0, 2 * DAY_MS, INTRADAY_ROW_CAP, DAILY_ROW_CAP)
  {
    hide Uncut, Window, VisibleIntraday, VisibleDaily;
    var r, d, first := IntradayRow(DAY_MS - 120_000, px), DailyRow(1, px), DAY_MS + 180_000;
    var t := BarTable([r], [d]);
    forall anchor, asOf ensures Window(t, anchor, asOf, INTRADAY_ROW_CAP, DAILY_ROW_CAP) == Uncut(t, anchor, asOf) {
      FewRows(t, anchor, asOf);
    }
    var w := Uncut(t, 0, first);
    forall b ensures b in w <==> b == FromIntraday(r) {
      UncutMembers(t, 0, first, b);
    }
    UncutMembers(t, 0, first, FromIntraday(r));
    OneOrder(w, [FromIntraday(r)]);
    forall later ensures FromDaily(d) !in Uncut(t, first, later) {
      UncutMembers(t, first, later, FromDaily(d));
    }
    UncutMembers(t, 0, 2 * DAY_MS, FromDaily(d));
    assert d in t.daily && !HasClosedRow(t, 1, 2 * DAY_MS);
  }

  /**
   * Off the five-minute grid the split fails: a bar that straddles midnight is not visible at midnight, so its day is
   * checked by its daily bar; later the same day counts as intraday and the daily bar is gone.
   */
  lemma StraddlingBarChangesItsDay(px: Ohlc)
    ensures var t := BarTable([IntradayRow(DAY_MS - 180_000, px)], [DailyRow(0, px)]);
            && ValidTable(t) && !OnGrid(t)
            && FromDaily(DailyRow(0, px)) in Window(t, 0, DAY_MS, INTRADAY_ROW_CAP, DAILY_ROW_CAP)
            && FromDaily(DailyRow(0, px)) !in Window(t, 0, 2 * DAY_MS, INTRADAY_ROW_CAP, DAILY_ROW_CAP)
  {
    var r, d := IntradayRow(DAY_MS - 180_000, px), DailyRow(0, px);
    var t := BarTable([r], [d]);
    hide BarSequence, VisibleIntraday, VisibleDaily;
    WindowOrdered(t, 0, DAY_MS, INTRADAY_ROW_CAP, DAILY_ROW_CAP);
    WindowOrdered(t, 0, 2 * DAY_MS, INTRADAY_ROW_CAP, DAILY_ROW_CAP);
    OneRowRead(r, [d], 0, DAY_MS);
    OneRowRead(r, [d], 0, 2 * DAY_MS);
    OneDayRead([r], d, 0, DAY_MS);
    OneDayRead([r], d, 0, 2 * DAY_MS);
    assert d in [d] && r in [r];
    assert KeepsDaily([], false, d);
    assert !KeepsDaily([r], false, d);
  }

  lemma OneRowRead(r: IntradayRow, daily: seq<DailyRow>, anchor: int, asOf: int)
    ensures VisibleIntraday(BarTable([r], daily), anchor, asOf) ==
            if CeilToSecond(anchor) <= r.ts <= IntradayCutoff(asOf) then [r] else []
  {
  }

  lemma OneDayRead(intraday: seq<IntradayRow>, d: DailyRow, anchor: int, asOf: int)
    ensures VisibleDaily(BarTable(intraday, [d]), anchor, asOf) ==
            if DailyFrom(anchor) <= d.date < DayOf(asOf) then [d] else []
  {
  }

  /** `n` days of daily bars, then one intraday bar. */
  function DailyOnly(n: nat, px: Ohlc): BarTable {
    BarTable([IntradayRow(n * DAY_MS, px)], seq(n, i requires 0 <= i < n => DailyRow(i, px)))
  }

  /**
   * A daily read that hits its cap is not reported, so a window longer than the cap skips the days cut off and still
   * hands out the intraday bar behind them.
   */
  lemma CutDailyReadSkipsADay(px: Ohlc)
    ensures var t := DailyOnly(DAILY_ROW_CAP + 1, px);
            var asOf := (DAILY_ROW_CAP + 2) * DAY_MS;
            var skipped, after := FromDaily(DailyRow(DAILY_ROW_CAP, px)), FromIntraday(t.intraday[0]);
            && ValidTable(t) && OnGrid(t) && !FullDays(t, 0, asOf, DAILY_ROW_CAP)
            && skipped in Slice(t, 0, asOf) && skipped.availableAt <= after.openMs
            && skipped !in Window(t, 0, asOf, INTRADAY_ROW_CAP, DAILY_ROW_CAP)
            && after in Window(t, 0, asOf, INTRADAY_ROW_CAP, DAILY_ROW_CAP)
  {
    hide BarSequence, VisibleIntraday, AllBars;
    var n := DAILY_ROW_CAP + 1;
    var t := DailyOnly(n, px);
    var asOf := (DAILY_ROW_CAP + 2) * DAY_MS;
    var r, d := t.intraday[0], DailyRow(DAILY_ROW_CAP, px);
    assert t.daily[DAILY_ROW_CAP] == d;
    FilterAll(t.daily, (d: DailyRow) => DailyFrom(0) <= d.date < DayOf(asOf));
    assert VisibleDaily(t, 0, asOf) == t.daily;
    hide VisibleDaily;
    OneRowRead(r, t.daily, 0, asOf);
    WindowOrdered(t, 0, asOf, INTRADAY_ROW_CAP, DAILY_ROW_CAP);
    assert r in [r];
    assert d !in t.daily[..DAILY_ROW_CAP];
    AllBarsAre(t, FromDaily(d));
  }
}
