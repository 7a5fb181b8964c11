/**
 * Bar windows (src/shared/bar_window.js, src/shared/intraday_availability.js and the window reads of
 * src/storage/inputs_view.js): which bars a position's next check reads and the one sequence they form.
 */
module BarWindow {
  import opened Calendar
  import opened Collections

  const SECOND_MS := 1000
  const BAR_MS := 300_000
  const INTRADAY_ROW_CAP := 6000
  const DAILY_ROW_CAP := 90

  /** A price; None stands for a value that is not a finite number. */
  datatype Ohlc = Ohlc(open: Option<real>, high: Option<real>, low: Option<real>, close: Option<real>)

  datatype IntradayRow = IntradayRow(ts: int, px: Ohlc)

  datatype DailyRow = DailyRow(date: int, px: Ohlc)

  datatype Kind = Intraday | Daily

  datatype Bar = Bar(kind: Kind, openMs: int, availableAt: int, px: Ohlc)

  /** One ticker's stored bars. */
  datatype BarTable = BarTable(intraday: seq<IntradayRow>, daily: seq<DailyRow>)

  ghost predicate ByTs(rows: seq<IntradayRow>) {
    forall i, j :: 0 <= i < j < |rows| ==> rows[i].ts < rows[j].ts
  }

  ghost predicate ByDate(rows: seq<DailyRow>) {
    forall i, j :: 0 <= i < j < |rows| ==> rows[i].date < rows[j].date
  }

  /** The stored form: one row per key in key order, intraday stamps at whole seconds. */
  ghost predicate ValidTable(t: BarTable) {
    ByTs(t.intraday) && ByDate(t.daily) && forall r :: r in t.intraday ==> r.ts % SECOND_MS == 0
  }

  /** Every intraday bar opens on the five-minute grid, so bars neither overlap nor straddle midnight. */
  ghost predicate OnGrid(t: BarTable) {
    forall r :: r in t.intraday ==> r.ts % BAR_MS == 0
  }

  // ---- The window's start and the reads -----------------------------------------------

  /** A stored timestamp: missing, unparseable, or an instant. */
  datatype Stamp = Absent | Garbled | At(ms: int)

  function CeilToSecond(ms: int): int {
    (ms + SECOND_MS - 1) / SECOND_MS * SECOND_MS
  }

  function FloorToSecond(ms: int): int {
    ms / SECOND_MS * SECOND_MS
  }

  /** The first daily bar wholly after the anchor: the anchor's own day only when the anchor is midnight. */
  function DailyFrom(anchor: int): int {
    if anchor == DayOf(anchor) * DAY_MS then DayOf(anchor) else DayOf(anchor) + 1
  }

  /** The latest stamp of an intraday bar visible at `asOf`. */
  function IntradayCutoff(asOf: int): int {
    FloorToSecond(asOf - BAR_MS)
  }

  /**
   * For stored stamps the rounded bounds are exact: a bar is in the window iff it opened at or after the anchor
   * and fully closed by asOf.
   */
  lemma VisibilityRule(ts: int, anchor: int, asOf: int)
    requires ts % SECOND_MS == 0
    ensures ts >= CeilToSecond(anchor) <==> ts >= anchor
    ensures ts <= IntradayCutoff(asOf) <==> ts + BAR_MS <= asOf
  {
  }

  datatype Read<T> = Read(rows: seq<T>, truncated: bool)

  function Capped<T>(rows: seq<T>, limit: nat): Read<T> {
    if |rows| > limit then Read(rows[..limit], true) else Read(rows, false)
  }

  function VisibleIntraday(t: BarTable, anchor: int, asOf: int): seq<IntradayRow> {
    Filter(t.intraday, (r: IntradayRow) => CeilToSecond(anchor) <= r.ts <= IntradayCutoff(asOf))
  }

  function VisibleDaily(t: BarTable, anchor: int, asOf: int): seq<DailyRow> {
    Filter(t.daily, (d: DailyRow) => DailyFrom(anchor) <= d.date < DayOf(asOf))
  }

  // ---- The sequence -------------------------------------------------------------------

  function FromIntraday(r: IntradayRow): Bar {
    Bar(Intraday, r.ts, r.ts + BAR_MS, r.px)
  }

  function FromDaily(d: DailyRow): Bar {
    Bar(Daily, d.date * DAY_MS, (d.date + 1) * DAY_MS, d.px)
  }

  /**
   * Whether a daily row is used: not on a day that has intraday rows and, when the intraday read was cut
   * off, not after its last day.
   */
  ghost predicate KeepsDaily(intraday: seq<IntradayRow>, truncated: bool, d: DailyRow) {
    && (forall r :: r in intraday ==> DayOf(r.ts) != d.date)
    && !(truncated && intraday != [] && d.date > DayOf(intraday[|intraday| - 1].ts))
  }

  /** The bars of a window, before any order is put on them. */
  ghost predicate IsBarOf(intraday: seq<IntradayRow>, daily: seq<DailyRow>, truncated: bool, b: Bar) {
    || (exists r :: r in intraday && b == FromIntraday(r))
    || (exists d :: d in daily && KeepsDaily(intraday, truncated, d) && b == FromDaily(d))
  }

  /** Strictly chronological. */
  ghost predicate Chronological(s: seq<Bar>) {
    forall i, j :: 0 <= i < j < |s| ==> s[i].openMs < s[j].openMs
  }

  ghost predicate Distinct(s: seq<Bar>) {
    forall i, j :: 0 <= i < j < |s| ==> s[i].openMs != s[j].openMs
  }

  function Insert(b: Bar, s: seq<Bar>): seq<Bar> {
    if s == [] || b.openMs <= s[0].openMs then [b] + s else [s[0]] + Insert(b, s[1..])
  }

  /** The library sort: ascending by opening time. */
  function SortByOpen(s: seq<Bar>): seq<Bar> {
    if s == [] then [] else Insert(s[0], SortByOpen(s[1..]))
  }

  lemma {:induction false} InsertKeeps(b: Bar, s: seq<Bar>)
    requires Chronological(s) && forall x :: x in s ==> x.openMs != b.openMs
    ensures Chronological(Insert(b, s))
    ensures forall x :: x in Insert(b, s) <==> x == b || x in s
  {
    if s != [] && b.openMs > s[0].openMs {
      InsertKeeps(b, s[1..]);
      var rest := Insert(b, s[1..]);
      assert s == [s[0]] + s[1..];
      forall x | x in rest ensures s[0].openMs < x.openMs {
        if x != b {
          assert x in s[1..];
        }
      }
    }
  }

  /** Sorting bars with distinct opening times gives exactly those bars in strictly chronological order. */
  lemma {:induction false} SortStrict(s: seq<Bar>)
    requires Distinct(s)
    ensures Chronological(SortByOpen(s))
    ensures forall x :: x in SortByOpen(s) <==> x in s
  {
    if s != [] {
      assert s == [s[0]] + s[1..];
      SortStrict(s[1..]);
      InsertKeeps(s[0], SortByOpen(s[1..]));
    }
  }

  /** A set of bars has at most one chronological order. */
  lemma {:induction false} OneOrder(a: seq<Bar>, b: seq<Bar>)
    requires Chronological(a) && Chronological(b)
    requires forall x :: x in a <==> x in b
    ensures a == b
  {
    assert b != [] ==> b[0] in b;
    if a != [] {
      assert a[0] in b && b != [];
      assert b[0] in a;
      assert a[0] == b[0];
      assert a == [a[0]] + a[1..] && b == [b[0]] + b[1..];
      assert a[0] !in a[1..] && b[0] !in b[1..];
      forall x ensures x in a[1..] <==> x in b[1..] {
        assert x in a[1..] <==> x in a && x != a[0];
        assert x in b[1..] <==> x in b && x != b[0];
      }
      OneOrder(a[1..], b[1..]);
    }
  }

  /** What the merge pushes, in the order it pushes it. */
  ghost function Merged(intraday: seq<IntradayRow>, daily: seq<DailyRow>, truncated: bool): seq<Bar> {
    var kept := Filter(daily, (d: DailyRow) => KeepsDaily(intraday, truncated, d));
    seq(|intraday|, i requires 0 <= i < |intraday| => FromIntraday(intraday[i]))
    + seq(|kept|, i requires 0 <= i < |kept| => FromDaily(kept[i]))
  }

  ghost function BarSequence(intraday: seq<IntradayRow>, daily: seq<DailyRow>, truncated: bool): seq<Bar> {
    SortByOpen(Merged(intraday, daily, truncated))
  }

  /** An intraday bar and a daily bar of different days open at different times. */
  lemma DifferentDays(r: IntradayRow, d: DailyRow)
    requires DayOf(r.ts) != d.date
    ensures FromIntraday(r).openMs != FromDaily(d).openMs
  {
  }

  lemma MergedDistinct(intraday: seq<IntradayRow>, daily: seq<DailyRow>, truncated: bool)
    requires ByTs(intraday) && ByDate(daily)
    ensures Distinct(Merged(intraday, daily, truncated))
  {
    hide DayOf;
    var m := Merged(intraday, daily, truncated);
    var p := (d: DailyRow) => KeepsDaily(intraday, truncated, d);
    var kept := Filter(daily, p);
    var n := |intraday|;
    var byDate := (d: DailyRow) => d.date;
    FilterStrictlyBy(daily, p, byDate);
    forall i, j | 0 <= i < j < |m| ensures m[i].openMs != m[j].openMs {
      if n <= i {
        assert byDate(kept[i - n]) < byDate(kept[j - n]);
      } else if n <= j {
        assert kept[j - n] in kept && intraday[i] in intraday;
        DifferentDays(intraday[i], kept[j - n]);
      }
    }
  }

  lemma MergedMembers(intraday: seq<IntradayRow>, daily: seq<DailyRow>, truncated: bool, b: Bar)
    ensures b in Merged(intraday, daily, truncated) <==> IsBarOf(intraday, daily, truncated, b)
  {
    hide KeepsDaily, FromIntraday, FromDaily;
    var m := Merged(intraday, daily, truncated);
    var p := (d: DailyRow) => KeepsDaily(intraday, truncated, d);
    var kept := Filter(daily, p);
    var n := |intraday|;
    if b in m {
      var k :| 0 <= k < |m| && m[k] == b;
      if k < n {
        assert intraday[k] in intraday;
      } else {
        assert kept[k - n] in kept;
      }
    }
    forall r | r in intraday ensures FromIntraday(r) in m {
      var k :| 0 <= k < n && intraday[k] == r;
      assert m[k] == FromIntraday(r);
    }
    forall d | d in kept ensures FromDaily(d) in m {
      var k :| 0 <= k < |kept| && kept[k] == d;
      assert m[n + k] == FromDaily(d);
    }
  }

  /** The merge is the one chronological sequence of the bars it keeps. */
  lemma SequenceIsItsBars(intraday: seq<IntradayRow>, daily: seq<DailyRow>, truncated: bool)
    requires ByTs(intraday) && ByDate(daily)
    ensures Chronological(BarSequence(intraday, daily, truncated))
    ensures forall b :: b in BarSequence(intraday, daily, truncated) <==> IsBarOf(intraday, daily, truncated, b)
  {
    hide Merged, IsBarOf;
    MergedDistinct(intraday, daily, truncated);
    SortStrict(Merged(intraday, daily, truncated));
    forall b ensures b in BarSequence(intraday, daily, truncated) <==> IsBarOf(intraday, daily, truncated, b) {
      MergedMembers(intraday, daily, truncated, b);
    }
  }

  /** The merge's two skip tests, made on the set of days seen, keep exactly the rows meant. */
  lemma SkipTest(intraday: seq<IntradayRow>, truncated: bool, days: set<int>, d: DailyRow)
    requires days == set k | 0 <= k < |intraday| :: DayOf(intraday[k].ts)
    ensures KeepsDaily(intraday, truncated, d) <==>
            d.date !in days && !(truncated && intraday != [] && d.date > DayOf(intraday[|intraday| - 1].ts))
  {
    if d.date in days {
      var k :| 0 <= k < |intraday| && DayOf(intraday[k].ts) == d.date;
      assert intraday[k] in intraday;
    } else {
      forall r | r in intraday ensures DayOf(r.ts) != d.date {
        var k :| 0 <= k < |intraday| && intraday[k] == r;
        assert DayOf(intraday[k].ts) in days;
      }
    }
  }

  /** Merges one window's rows: the intraday rows, then the daily rows kept, then one sort. */
  method BuildBarSequence(intraday: seq<IntradayRow>, daily: seq<DailyRow>, truncated: bool) returns (s: seq<Bar>)
    ensures s == BarSequence(intraday, daily, truncated)
  {
    hide KeepsDaily, SortByOpen, DayOf, FromIntraday, FromDaily, Filter;
    assert daily[..0] == [];
    var days: set<int> := {};
    s := [];
    for i := 0 to |intraday|
      invariant days == set k | 0 <= k < i :: DayOf(intraday[k].ts)
      invariant |s| == i && forall k :: 0 <= k < i ==> s[k] == FromIntraday(intraday[k])
    {
      days := days + {DayOf(intraday[i].ts)};
      s := s + [FromIntraday(intraday[i])];
    }
    ghost var n := |s|;
    ghost var p := (d: DailyRow) => KeepsDaily(intraday, truncated, d);
    for j := 0 to |daily|
      invariant |s| == n + |Filter(daily[..j], p)|
      invariant forall k :: 0 <= k < n ==> s[k] == FromIntraday(intraday[k])
      invariant forall k :: 0 <= k < |Filter(daily[..j], p)| ==> s[n + k] == FromDaily(Filter(daily[..j], p)[k])
    {
      var d := daily[j];
      FilterNext(daily, j, p);
      SkipTest(intraday, truncated, days, d);
      if d.date !in days && !(truncated && |intraday| > 0 && d.date > DayOf(intraday[|intraday| - 1].ts)) {
        s := s + [FromDaily(d)];
      }
    }
    assert daily[..|daily|] == daily;
    assert s == Merged(intraday, daily, truncated);
    s := SortByOpen(s);
  }

  /** The two reads of a window and their merge. */
  method ReadWindow(t: BarTable, anchor: int, asOf: int, intradayCap: nat, dailyCap: nat) returns (s: seq<Bar>)
    ensures s == Window(t, anchor, asOf, intradayCap, dailyCap)
  {
    var intraday := Capped(VisibleIntraday(t, anchor, asOf), intradayCap);
    var daily := Capped(VisibleDaily(t, anchor, asOf), dailyCap);
    s := BuildBarSequence(intraday.rows, daily.rows, intraday.truncated);
  }

  // ---- One table, all windows -----------------------------------------------------------

  /** Every bar the table will ever offer, in order. */
  ghost function AllBars(t: BarTable): seq<Bar> {
    BarSequence(t.intraday, t.daily, false)
  }

  predicate InSpan(b: Bar, anchor: int, asOf: int) {
    anchor <= b.openMs && b.availableAt <= asOf
  }

  /** The part of the table's bars that opened at or after the anchor and closed by `asOf`. */
  ghost function Slice(t: BarTable, anchor: int, asOf: int): seq<Bar> {
    Filter(AllBars(t), (b: Bar) => InSpan(b, anchor, asOf))
  }

  ghost predicate FullDays(t: BarTable, anchor: int, asOf: int, dailyCap: nat) {
    |VisibleDaily(t, anchor, asOf)| <= dailyCap
  }

  /** What one check reads and merges. */
  ghost function Window(t: BarTable, anchor: int, asOf: int, intradayCap: nat, dailyCap: nat): seq<Bar> {
    var i := Capped(VisibleIntraday(t, anchor, asOf), intradayCap);
    BarSequence(i.rows, Capped(VisibleDaily(t, anchor, asOf), dailyCap).rows, i.truncated)
  }

  /** Bars follow one another without overlap. */
  ghost predicate Disjoint(s: seq<Bar>) {
    && (forall b :: b in s ==> b.openMs < b.availableAt)
    && forall i, j :: 0 <= i < j < |s| ==> s[i].availableAt <= s[j].openMs
  }

  lemma AllBarsAre(t: BarTable, b: Bar)
    requires ValidTable(t)
    ensures b in AllBars(t) <==>
            || (exists r :: r in t.intraday && b == FromIntraday(r))
            || (exists d :: d in t.daily && b == FromDaily(d) && forall r :: r in t.intraday ==> DayOf(r.ts) != d.date)
  {
    hide BarSequence;
    SequenceIsItsBars(t.intraday, t.daily, false);
    assert b in AllBars(t) <==> IsBarOf(t.intraday, t.daily, false, b);
  }

  /** A grid bar lies within its day. */
  lemma WithinDay(r: IntradayRow)
    requires r.ts % BAR_MS == 0
    ensures DayOf(r.ts) * DAY_MS <= r.ts && r.ts + BAR_MS <= (DayOf(r.ts) + 1) * DAY_MS
  {
  }

  lemma GridStep(x: int, y: int)
    requires x % BAR_MS == 0 && y % BAR_MS == 0 && x < y
    ensures x + BAR_MS <= y
  {
  }

  /** On the grid, of two bars of one table the later opens only after the earlier has closed. */
  lemma TwoBars(t: BarTable, a: Bar, b: Bar)
    requires ValidTable(t) && OnGrid(t) && a in AllBars(t) && b in AllBars(t) && a.openMs < b.openMs
    ensures a.availableAt <= b.openMs
  {
    hide AllBars, DayOf;
    AllBarsAre(t, a);
    AllBarsAre(t, b);
    if r :| r in t.intraday && a == FromIntraday(r) {
      WithinDay(r);
      if q :| q in t.intraday && b == FromIntraday(q) {
        GridStep(r.ts, q.ts);
      }
    } else if q :| q in t.intraday && b == FromIntraday(q) {
      WithinDay(q);
    }
  }

  /** On the grid the table's bars are disjoint: a bar has closed before the next one opens. */
  lemma BarsAreDisjoint(t: BarTable)
    requires ValidTable(t) && OnGrid(t)
    ensures Chronological(AllBars(t)) && Disjoint(AllBars(t))
  {
    var s := AllBars(t);
    SequenceIsItsBars(t.intraday, t.daily, false);
    hide AllBars;
    forall b | b in s ensures b.openMs < b.availableAt {
      AllBarsAre(t, b);
    }
    forall i, j | 0 <= i < j < |s| ensures s[i].availableAt <= s[j].openMs {
      TwoBars(t, s[i], s[j]);
    }
  }

  // ---- A window is a slice of the table ---------------------------------------------------

  lemma InRead(t: BarTable, anchor: int, asOf: int, r: IntradayRow)
    requires ValidTable(t)
    ensures r in VisibleIntraday(t, anchor, asOf) <==> r in t.intraday && anchor <= r.ts && r.ts + BAR_MS <= asOf
  {
    if r in t.intraday {
      VisibilityRule(r.ts, anchor, asOf);
    }
  }

  /** A daily row is read exactly when its whole day lies in the window. */
  lemma InDailyRead(t: BarTable, anchor: int, asOf: int, d: DailyRow)
    ensures d in VisibleDaily(t, anchor, asOf) <==>
            d in t.daily && anchor <= d.date * DAY_MS && (d.date + 1) * DAY_MS <= asOf
  {
  }

  /** Cutting a read after `n` rows keeps the rows up to the n-th stamp. */
  lemma InCut(t: BarTable, anchor: int, asOf: int, n: nat, r: IntradayRow)
    requires ValidTable(t) && 0 < n <= |VisibleIntraday(t, anchor, asOf)|
    ensures r in VisibleIntraday(t, anchor, asOf)[..n] <==>
            r in VisibleIntraday(t, anchor, asOf) && r.ts <= VisibleIntraday(t, anchor, asOf)[n - 1].ts
  {
    var v := VisibleIntraday(t, anchor, asOf);
    var p := (r: IntradayRow) => CeilToSecond(anchor) <= r.ts <= IntradayCutoff(asOf);
    var byTs := (r: IntradayRow) => r.ts;
    FilterStrictlyBy(t.intraday, p, byTs);
    assert v == Filter(t.intraday, p);
    forall k | 0 <= k < |v| ensures k < n <==> v[k].ts <= v[n - 1].ts {
      assert k < n - 1 ==> byTs(v[k]) < byTs(v[n - 1]);
      assert k > n - 1 ==> byTs(v[n - 1]) < byTs(v[k]);
    }
    if r in v && r.ts <= v[n - 1].ts {
      var k :| 0 <= k < |v| && v[k] == r;
      assert v[..n][k] == r;
    }
  }

  ghost predicate Reaches(t: BarTable, anchor: int, asOf: int, intradayCap: nat, b: Bar) {
    var v := VisibleIntraday(t, anchor, asOf);
    |v| > intradayCap > 0 ==> b.openMs <= v[intradayCap - 1].ts
  }

  /** The bars of a window: those of the table in the window's span, up to where the intraday read was cut off. */
  lemma IntradayInWindow(t: BarTable, anchor: int, asOf: int, intradayCap: nat, r: IntradayRow)
    requires ValidTable(t) && intradayCap > 0
    ensures r in Capped(VisibleIntraday(t, anchor, asOf), intradayCap).rows <==>
            r in t.intraday && InSpan(FromIntraday(r), anchor, asOf)
            && Reaches(t, anchor, asOf, intradayCap, FromIntraday(r))
  {
    var v := VisibleIntraday(t, anchor, asOf);
    InRead(t, anchor, asOf, r);
    if |v| > intradayCap {
      InCut(t, anchor, asOf, intradayCap, r);
    }
  }

  lemma DailyInWindow(t: BarTable, anchor: int, asOf: int, intradayCap: nat, d: DailyRow)
    requires ValidTable(t) && OnGrid(t) && intradayCap > 0
    requires d in VisibleDaily(t, anchor, asOf)
    ensures var i := Capped(VisibleIntraday(t, anchor, asOf), intradayCap);
            KeepsDaily(i.rows, i.truncated, d) <==>
            && Reaches(t, anchor, asOf, intradayCap, FromDaily(d))
            && forall r :: r in t.intraday ==> DayOf(r.ts) != d.date
  {
    hide VisibleDaily, VisibleIntraday, DayOf;
    var v := VisibleIntraday(t, anchor, asOf);
    var i := Capped(v, intradayCap);
    InDailyRead(t, anchor, asOf, d);
    if i.truncated {
      var last := v[intradayCap - 1];
      assert i.rows[|i.rows| - 1] == last;
      assert last in i.rows;
      IntradayInWindow(t, anchor, asOf, intradayCap, last);
      WithinDay(last);
    }
    forall r | r in t.intraday
      ensures DayOf(r.ts) == d.date ==> r in i.rows || (i.truncated && d.date >= DayOf(v[intradayCap - 1].ts))
    {
      WithinDay(r);
      IntradayInWindow(t, anchor, asOf, intradayCap, r);
    }
    forall r | r in i.rows ensures r in t.intraday {
      IntradayInWindow(t, anchor, asOf, intradayCap, r);
    }
  }

  /** A daily bar up to where the daily read was cut off. */
  ghost predicate ReachesDay(t: BarTable, anchor: int, asOf: int, dailyCap: nat, b: Bar) {
    var v := VisibleDaily(t, anchor, asOf);
    b.kind.Daily? && |v| > dailyCap ==> dailyCap > 0 && b.openMs <= v[dailyCap - 1].date * DAY_MS
  }

  lemma InDailyCut(t: BarTable, anchor: int, asOf: int, dailyCap: nat, d: DailyRow)
    requires ValidTable(t)
    ensures d in Capped(VisibleDaily(t, anchor, asOf), dailyCap).rows <==>
            d in VisibleDaily(t, anchor, asOf) && ReachesDay(t, anchor, asOf, dailyCap, FromDaily(d))
  {
    var v := VisibleDaily(t, anchor, asOf);
    var p := (d: DailyRow) => DailyFrom(anchor) <= d.date < DayOf(asOf);
    var byDate := (d: DailyRow) => d.date;
    FilterStrictlyBy(t.daily, p, byDate);
    assert v == Filter(t.daily, p);
    hide VisibleDaily;
    if |v| > dailyCap > 0 {
      forall k | 0 <= k < |v| ensures k < dailyCap <==> v[k].date <= v[dailyCap - 1].date {
        assert k < dailyCap - 1 ==> byDate(v[k]) < byDate(v[dailyCap - 1]);
        assert k > dailyCap - 1 ==> byDate(v[dailyCap - 1]) < byDate(v[k]);
      }
      if d in v && d.date <= v[dailyCap - 1].date {
        var k :| 0 <= k < |v| && v[k] == d;
        assert v[..dailyCap][k] == d;
      }
    }
  }

  /** A window holds the table's bars in its span, up to where either read was cut off. */
  lemma WindowMembersCut(t: BarTable, anchor: int, asOf: int, intradayCap: nat, dailyCap: nat, b: Bar)
    requires ValidTable(t) && OnGrid(t) && intradayCap > 0
    ensures b in Window(t, anchor, asOf, intradayCap, dailyCap) <==>
            && b in AllBars(t) && InSpan(b, anchor, asOf)
            && Reaches(t, anchor, asOf, intradayCap, b) && ReachesDay(t, anchor, asOf, dailyCap, b)
  {
    hide AllBars, BarSequence, KeepsDaily, Reaches, ReachesDay, VisibleDaily, VisibleIntraday, InSpan;
    var i := Capped(VisibleIntraday(t, anchor, asOf), intradayCap);
    var v := Capped(VisibleDaily(t, anchor, asOf), dailyCap);
    WindowOrdered(t, anchor, asOf, intradayCap, dailyCap);
    assert b in Window(t, anchor, asOf, intradayCap, dailyCap) <==> IsBarOf(i.rows, v.rows, i.truncated, b);
    AllBarsAre(t, b);
    forall r | b == FromIntraday(r)
      ensures r in i.rows <==> r in t.intraday && InSpan(b, anchor, asOf) && Reaches(t, anchor, asOf, intradayCap, b)
      ensures ReachesDay(t, anchor, asOf, dailyCap, b)
    {
      IntradayInWindow(t, anchor, asOf, intradayCap, r);
      IntradayReachesDay(t, anchor, asOf, dailyCap, r);
    }
    forall d | b == FromDaily(d)
      ensures d in v.rows <==> d in t.daily && InSpan(b, anchor, asOf) && ReachesDay(t, anchor, asOf, dailyCap, b)
      ensures d in v.rows ==> (KeepsDaily(i.rows, i.truncated, d) <==>
              Reaches(t, anchor, asOf, intradayCap, b) && forall r :: r in t.intraday ==> DayOf(r.ts) != d.date)
    {
      InDailyRead(t, anchor, asOf, d);
      SpanOfDay(d, anchor, asOf);
      InDailyCut(t, anchor, asOf, dailyCap, d);
      if d in v.rows {
        DailyInWindow(t, anchor, asOf, intradayCap, d);
      }
    }
  }

  lemma IntradayReachesDay(t: BarTable, anchor: int, asOf: int, dailyCap: nat, r: IntradayRow)
    ensures ReachesDay(t, anchor, asOf, dailyCap, FromIntraday(r))
  {
  }

  lemma WindowMembers(t: BarTable, anchor: int, asOf: int, intradayCap: nat, dailyCap: nat, b: Bar)
    requires ValidTable(t) && OnGrid(t) && intradayCap > 0 && FullDays(t, anchor, asOf, dailyCap)
    ensures b in Window(t, anchor, asOf, intradayCap, dailyCap) <==>
            b in AllBars(t) && InSpan(b, anchor, asOf) && Reaches(t, anchor, asOf, intradayCap, b)
  {
    hide Window, AllBars, Reaches;
    WindowMembersCut(t, anchor, asOf, intradayCap, dailyCap, b);
  }

  lemma SpanOfDay(d: DailyRow, anchor: int, asOf: int)
    ensures InSpan(FromDaily(d), anchor, asOf) <==> anchor <= d.date * DAY_MS && (d.date + 1) * DAY_MS <= asOf
  {
  }

  /** Every window is strictly chronological, and its bars are those its capped reads keep. */
  lemma WindowOrdered(t: BarTable, anchor: int, asOf: int, intradayCap: nat, dailyCap: nat)
    requires ValidTable(t)
    ensures Chronological(Window(t, anchor, asOf, intradayCap, dailyCap))
    ensures var i := Capped(VisibleIntraday(t, anchor, asOf), intradayCap);
            var d := Capped(VisibleDaily(t, anchor, asOf), dailyCap);
            forall b :: b in Window(t, anchor, asOf, intradayCap, dailyCap) <==> IsBarOf(i.rows, d.rows, i.truncated, b)
  {
    hide BarSequence, IsBarOf;
    var i := Capped(VisibleIntraday(t, anchor, asOf), intradayCap);
    var d := Capped(VisibleDaily(t, anchor, asOf), dailyCap);
    var byTs := (r: IntradayRow) => r.ts;
    var byDate := (d: DailyRow) => d.date;
    FilterStrictlyBy(t.intraday, (r: IntradayRow) => CeilToSecond(anchor) <= r.ts <= IntradayCutoff(asOf), byTs);
    FilterStrictlyBy(t.daily, (d: DailyRow) => DailyFrom(anchor) <= d.date < DayOf(asOf), byDate);
    forall k, m | 0 <= k < m < |i.rows| ensures i.rows[k].ts < i.rows[m].ts {
      assert byTs(i.rows[k]) < byTs(i.rows[m]);
    }
    forall k, m | 0 <= k < m < |d.rows| ensures d.rows[k].date < d.rows[m].date {
      assert byDate(d.rows[k]) < byDate(d.rows[m]);
    }
    SequenceIsItsBars(i.rows, d.rows, i.truncated);
  }

  lemma SliceOrdered(t: BarTable, anchor: int, asOf: int)
    requires ValidTable(t)
    ensures Chronological(Slice(t, anchor, asOf))
  {
    SequenceIsItsBars(t.intraday, t.daily, false);
    hide AllBars;
    var byOpen := (b: Bar) => b.openMs;
    FilterStrictlyBy(AllBars(t), (b: Bar) => InSpan(b, anchor, asOf), byOpen);
    var s := Slice(t, anchor, asOf);
    forall i, j | 0 <= i < j < |s| ensures s[i].openMs < s[j].openMs {
      assert byOpen(s[i]) < byOpen(s[j]);
    }
  }

  /** One chronological sequence holds all of the other's bars up to its own last, and no others. */
  ghost predicate FirstOf(w: seq<Bar>, f: seq<Bar>) {
    && (forall b :: b in w ==> b in f)
    && (forall b, c :: b in w && c in f && c.openMs <= b.openMs ==> c in w)
  }

  /** Such a sequence is a prefix. */
  lemma {:induction false} PrefixByOpen(w: seq<Bar>, f: seq<Bar>)
    requires Chronological(w) && Chronological(f) && FirstOf(w, f)
    ensures w <= f
  {
    if w != [] {
      FirstsAgree(w, f);
      HeadIsEarliest(w);
      HeadIsEarliest(f);
      hide Chronological, FirstOf;
      PrefixByOpen(w[1..], f[1..]);
      assert w == [w[0]] + w[1..] && f == [f[0]] + f[1..];
    }
  }

  lemma FirstsAgree(w: seq<Bar>, f: seq<Bar>)
    requires Chronological(w) && Chronological(f) && FirstOf(w, f) && w != []
    ensures f != [] && w[0] == f[0] && FirstOf(w[1..], f[1..])
  {
    HeadIsEarliest(w);
    assert w[0] in w && f != [];
    HeadIsEarliest(f);
    hide Chronological;
    assert f[0] in f && f[0] in w;
    assert w[0] == f[0];
    forall b, c | b in w[1..] && c in f[1..] && c.openMs <= b.openMs ensures c in w[1..] {
      assert b in w && c in f;
    }
  }

  lemma HeadIsEarliest(s: seq<Bar>)
    requires s != [] && Chronological(s)
    ensures Chronological(s[1..])
    ensures forall b :: b in s[1..] <==> b in s && b != s[0]
    ensures forall b :: b in s[1..] ==> s[0].openMs < b.openMs
  {
    assert s == [s[0]] + s[1..];
  }

  /**
   * What a check reads is exactly the table's bars in its span, in order: all of them, or, when the intraday read hit
   * its cap, a non-empty prefix. So every bar opened at or after the anchor and had closed by `asOf`.
   */
  lemma WindowIsSlice(t: BarTable, anchor: int, asOf: int, intradayCap: nat, dailyCap: nat)
    requires ValidTable(t) && OnGrid(t) && intradayCap > 0 && FullDays(t, anchor, asOf, dailyCap)
    ensures Window(t, anchor, asOf, intradayCap, dailyCap) <= Slice(t, anchor, asOf)
    ensures |VisibleIntraday(t, anchor, asOf)| <= intradayCap ==>
              Window(t, anchor, asOf, intradayCap, dailyCap) == Slice(t, anchor, asOf)
    ensures Window(t, anchor, asOf, intradayCap, dailyCap) == [] ==> Slice(t, anchor, asOf) == []
  {
    hide Window, AllBars, VisibleIntraday, VisibleDaily;
    var w, f := Window(t, anchor, asOf, intradayCap, dailyCap), Slice(t, anchor, asOf);
    WindowOrdered(t, anchor, asOf, intradayCap, dailyCap);
    SliceOrdered(t, anchor, asOf);
    forall b ensures b in w <==> b in f && Reaches(t, anchor, asOf, intradayCap, b) {
      WindowMembers(t, anchor, asOf, intradayCap, dailyCap, b);
    }
    assert FirstOf(w, f);
    PrefixByOpen(w, f);
    var v := VisibleIntraday(t, anchor, asOf);
    if |v| <= intradayCap {
      OneOrder(w, f);
    } else {
      IntradayInWindow(t, anchor, asOf, intradayCap, v[intradayCap - 1]);
      assert Capped(v, intradayCap).rows[intradayCap - 1] == v[intradayCap - 1];
      AllBarsAre(t, FromIntraday(v[intradayCap - 1]));
      assert FromIntraday(v[intradayCap - 1]) in w;
    }
  }

  /** A window of at most `dailyCap` days never cuts its daily read. */
  lemma {:induction false} ShortWindowsKeepTheirDays(t: BarTable, anchor: int, asOf: int, dailyCap: nat)
    requires ValidTable(t) && DayOf(asOf) - DailyFrom(anchor) <= dailyCap
    ensures FullDays(t, anchor, asOf, dailyCap)
  {
    var v := VisibleDaily(t, anchor, asOf);
    var byDate := (d: DailyRow) => d.date;
    FilterStrictlyBy(t.daily, (d: DailyRow) => DailyFrom(anchor) <= d.date < DayOf(asOf), byDate);
    DatesSpread(v, DailyFrom(anchor));
    if v != [] {
      assert v[|v| - 1] in v;
    }
  }

  lemma {:induction false} DatesSpread(v: seq<DailyRow>, from: int)
    requires StrictlyBy(v, (d: DailyRow) => d.date)
    requires forall d :: d in v ==> from <= d.date
    ensures v != [] ==> v[|v| - 1].date >= from + |v| - 1
  {
    if |v| > 1 {
      var u := v[..|v| - 1];
      var byDate := (d: DailyRow) => d.date;
      assert StrictlyBy(u, byDate);
      DatesSpread(u, from);
      assert byDate(v[|v| - 2]) < byDate(v[|v| - 1]);
    } else if |v| == 1 {
      assert v[0] in v;
    }
  }

  // ---- Splitting at the cursor --------------------------------------------------------------

  /**
   * Splitting a span at the close of any bar reached loses and repeats nothing: what lies beyond it is exactly what a
   * window starting at that close sees.
   */
  lemma SplitAtCursor(t: BarTable, anchor: int, first: int, later: int, done: seq<Bar>)
    requires ValidTable(t) && OnGrid(t) && first <= later
    requires done != [] && done <= Slice(t, anchor, first)
    ensures Slice(t, anchor, later) == done + Slice(t, done[|done| - 1].availableAt, later)
  {
    hide AllBars, Slice, Chronological;
    var last := done[|done| - 1];
    var rest, whole := Slice(t, last.availableAt, later), Slice(t, anchor, later);
    SliceOrdered(t, anchor, first);
    SliceOrdered(t, last.availableAt, later);
    SliceOrdered(t, anchor, later);
    forall b ensures b in whole <==> b in done + rest {
      BeforeOrBeyond(t, anchor, first, later, done, b);
    }
    forall b | b in rest ensures last.openMs < b.openMs {
      InSlice(t, last.availableAt, later, b);
      InSlice(t, anchor, first, last);
      ApartInTime(t, last, last);
    }
    JoinOrdered(Slice(t, anchor, first), done, rest);
    OneOrder(whole, done + rest);
  }

  lemma InSlice(t: BarTable, anchor: int, asOf: int, b: Bar)
    ensures b in Slice(t, anchor, asOf) <==> b in AllBars(t) && InSpan(b, anchor, asOf)
  {
    hide AllBars;
  }

  /** A bar of the longer span was reached already or opens at the cursor or later. */
  lemma BeforeOrBeyond(t: BarTable, anchor: int, first: int, later: int, done: seq<Bar>, b: Bar)
    requires ValidTable(t) && OnGrid(t) && first <= later
    requires done != [] && done <= Slice(t, anchor, first)
    ensures b in Slice(t, anchor, later) <==> b in done || b in Slice(t, done[|done| - 1].availableAt, later)
  {
    hide AllBars, Slice;
    var f, last := Slice(t, anchor, first), done[|done| - 1];
    SliceOrdered(t, anchor, first);
    assert f[|done| - 1] == last && last in f;
    InSlice(t, anchor, first, last);
    InSlice(t, anchor, first, b);
    InSlice(t, anchor, later, b);
    InSlice(t, last.availableAt, later, b);
    if b in AllBars(t) {
      ApartInTime(t, b, last);
      if b in f && b.openMs <= last.openMs {
        var k :| 0 <= k < |f| && f[k] == b;
        assert done[k] == b;
      }
    }
    assert b in done ==> b in f;
  }

  lemma JoinOrdered(f: seq<Bar>, done: seq<Bar>, rest: seq<Bar>)
    requires Chronological(f) && Chronological(rest) && done != [] && done <= f
    requires forall b :: b in rest ==> done[|done| - 1].openMs < b.openMs
    ensures Chronological(done + rest)
  {
    forall i, j | 0 <= i < j < |done + rest| ensures (done + rest)[i].openMs < (done + rest)[j].openMs {
      assert forall k :: 0 <= k < |done| ==> f[k] == done[k];
      if i < |done| <= j {
        assert rest[j - |done|] in rest;
      }
    }
  }

  lemma ApartInTime(t: BarTable, a: Bar, b: Bar)
    requires ValidTable(t) && OnGrid(t) && a in AllBars(t) && b in AllBars(t)
    ensures a.openMs < a.availableAt && b.openMs < b.availableAt
    ensures a.openMs < b.openMs ==> a.availableAt <= b.openMs
    ensures b.openMs < a.openMs ==> b.availableAt <= a.openMs
    ensures a.openMs == b.openMs ==> a == b
  {
    hide AllBars;
    BarsAreDisjoint(t);
    var s := AllBars(t);
    var i :| 0 <= i < |s| && s[i] == a;
    var j :| 0 <= j < |s| && s[j] == b;
  }

  /** A check that may have been cut off, followed by one from its cursor, sees what one late check sees. */
  lemma TwoChecksAreOne(t: BarTable, anchor: int, first: int, later: int, intradayCap: nat, dailyCap: nat)
    requires ValidTable(t) && OnGrid(t) && first <= later && intradayCap > 0 && FullDays(t, anchor, first, dailyCap)
    requires Window(t, anchor, first, intradayCap, dailyCap) != []
    ensures var w := Window(t, anchor, first, intradayCap, dailyCap);
            Slice(t, anchor, later) == w + Slice(t, w[|w| - 1].availableAt, later)
  {
    hide Window, Slice;
    WindowIsSlice(t, anchor, first, intradayCap, dailyCap);
    SplitAtCursor(t, anchor, first, later, Window(t, anchor, first, intradayCap, dailyCap));
  }

  // ---- A window in numbers ------------------------------------------------------------------

  /** The rows a window reads: those that opened at or after the anchor and had closed by now, in order. */
  lemma ReadsMean(t: BarTable, anchor: int, asOf: int)
    requires ValidTable(t)
    ensures forall r :: r in VisibleIntraday(t, anchor, asOf) <==>
              r in t.intraday && anchor <= r.ts && r.ts + 300_000 <= asOf
    ensures forall d :: d in VisibleDaily(t, anchor, asOf) <==>
              d in t.daily && anchor <= d.date * 86_400_000 && d.date * 86_400_000 + 86_400_000 <= asOf
    ensures ByTs(VisibleIntraday(t, anchor, asOf)) && ByDate(VisibleDaily(t, anchor, asOf))
  {
    forall r ensures r in VisibleIntraday(t, anchor, asOf) <==>
                     r in t.intraday && anchor <= r.ts && r.ts + 300_000 <= asOf
    {
      InRead(t, anchor, asOf, r);
    }
    var v, d := VisibleIntraday(t, anchor, asOf), VisibleDaily(t, anchor, asOf);
    var byTs := (r: IntradayRow) => r.ts;
    var byDate := (d: DailyRow) => d.date;
    FilterStrictlyBy(t.intraday, (r: IntradayRow) => CeilToSecond(anchor) <= r.ts <= IntradayCutoff(asOf), byTs);
    FilterStrictlyBy(t.daily, (d: DailyRow) => DailyFrom(anchor) <= d.date < DayOf(asOf), byDate);
    forall i, j | 0 <= i < j < |v| ensures v[i].ts < v[j].ts {
      assert byTs(v[i]) < byTs(v[j]);
    }
    forall i, j | 0 <= i < j < |d| ensures d[i].date < d[j].date {
      assert byDate(d[i]) < byDate(d[j]);
    }
  }

  /** The five minutes from an intraday row's stamp, at its prices. */
  ghost predicate IsFiveMinutes(b: Bar, r: IntradayRow) {
    b.kind == Intraday && b.openMs == r.ts && b.availableAt == r.ts + 300_000 && b.px == r.px
  }

  /** A daily row's whole day, at its prices. */
  ghost predicate IsWholeDay(b: Bar, d: DailyRow) {
    && b.kind == Daily && b.openMs == d.date * 86_400_000 && b.availableAt == b.openMs + 86_400_000 && b.px == d.px
  }

  /**
   * The bars of the rows read: every five-minute row's, and the daily rows' of the days without a five-minute row; none
   * after the last one's day when that read was cut off.
   */
  ghost predicate IsReadBar(rows: seq<IntradayRow>, days: seq<DailyRow>, cut: bool, b: Bar) {
    || (exists k :: 0 <= k < |rows| && IsFiveMinutes(b, rows[k]))
    || (exists k :: 0 <= k < |days| && IsWholeDay(b, days[k])
          && (forall j :: 0 <= j < |rows| ==> DayOf(rows[j].ts) != days[k].date)
          && (cut && rows != [] ==> days[k].date <= DayOf(rows[|rows| - 1].ts)))
  }

  /** A window holds, in order, the bars of the rows it read, each read up to its cap. */
  lemma WindowMeans(t: BarTable, anchor: int, asOf: int, intradayCap: nat, dailyCap: nat)
    requires ValidTable(t)
    ensures var v, d := VisibleIntraday(t, anchor, asOf), VisibleDaily(t, anchor, asOf);
            var i, n := if |v| > intradayCap then intradayCap else |v|, if |d| > dailyCap then dailyCap else |d|;
            forall b :: b in Window(t, anchor, asOf, intradayCap, dailyCap) <==> IsReadBar(v[..i], d[..n], i < |v|, b)
    ensures Chronological(Window(t, anchor, asOf, intradayCap, dailyCap))
  {
    ReadsMean(t, anchor, asOf);
    var v, d := VisibleIntraday(t, anchor, asOf), VisibleDaily(t, anchor, asOf);
    var i, n := if |v| > intradayCap then intradayCap else |v|, if |d| > dailyCap then dailyCap else |d|;
    hide VisibleIntraday, VisibleDaily, BarSequence, IsReadBar, IsBarOf;
    assert v[..|v|] == v && d[..|d|] == d;
    var rows, days, cut := v[..i], d[..n], i < |v|;
    SequenceIsItsBars(rows, days, cut);
    forall b ensures IsBarOf(rows, days, cut, b) <==> IsReadBar(rows, days, cut, b) {
      BarOfMeans(rows, days, cut, b);
    }
  }

  lemma BarOfMeans(rows: seq<IntradayRow>, days: seq<DailyRow>, cut: bool, b: Bar)
    ensures IsBarOf(rows, days, cut, b) <==> IsReadBar(rows, days, cut, b)
  {
    forall d ensures KeepsDaily(rows, cut, d) <==>
                     (forall j :: 0 <= j < |rows| ==> DayOf(rows[j].ts) != d.date)
                     && (cut && rows != [] ==> d.date <= DayOf(rows[|rows| - 1].ts))
    {
      assert forall r :: r in rows ==> exists j :: 0 <= j < |rows| && rows[j] == r;
    }
    assert forall r :: IsFiveMinutes(b, r) <==> b == FromIntraday(r);
    assert forall d :: IsWholeDay(b, d) <==> b == FromDaily(d);
    hide KeepsDaily, IsFiveMinutes, IsWholeDay, FromIntraday, FromDaily;
  }
}
