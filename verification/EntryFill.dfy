/**
 * Waiting entries over time (src/graph/entry_fill.js): each tick fills, expires or keeps waiting every pending
 * decision. What a tick finds does not depend on when it runs; what it decides depends on it in exactly one
 * case.
 */
module EntryFill {
  import opened BarFill
  import opened BarWindow
  import opened Calendar
  import opened Collections

  // ---- A found fill stays found ---------------------------------------------------------

  lemma SlicesGrow(t: BarTable, from: int, first: int, later: int)
    requires ValidTable(t) && OnGrid(t) && first <= later
    ensures Slice(t, from, first) <= Slice(t, from, later)
  {
    hide Slice;
    if Slice(t, from, first) != [] {
      SplitAtCursor(t, from, first, later, Slice(t, from, first));
    }
  }

  lemma EntryOnPrefix(p: Pending, a: seq<Bar>, s: seq<Bar>)
    requires a <= s && FindEntry(p, a).Some?
    ensures FindEntry(p, s) == FindEntry(p, a)
  {
    hide FindEntry;
    assert s == a + s[|a|..];
    EntryExtends(p, a, s[|a|..]);
  }

  /** A bar at the fill's opening time is part of the sequence. */
  ghost predicate Offers(s: seq<Bar>, openedAt: int) {
    exists b :: b in s && b.openMs == openedAt
  }

  lemma FillIsOffered(p: Pending, s: seq<Bar>)
    requires FindEntry(p, s).Some?
    ensures Offers(s, FindEntry(p, s).value.openedAt)
  {
    var spec := ConfirmationSpecOf(p.stored);
    var from := if spec.None? then p.asOf
                else FindConfirmationBar(s, p.asOf, p.direction, spec.value, p.expiresAt.ms).value.closedAt;
    FillIsFirstTradable(s, from);
    var k :| 0 <= k < |s| && Tradable(s[k], from) && IsFill(FindFillBar(s, from).value, s[k])
      && forall i :: 0 <= i < k ==> !Tradable(s[i], from);
    assert s[k] in s;
  }

  lemma NoBarTwice(a: seq<Bar>, c: seq<Bar>, openedAt: int)
    requires Chronological(a + c) && Offers(a, openedAt)
    ensures !Offers(c, openedAt)
  {
    var b :| b in a && b.openMs == openedAt;
    var i :| 0 <= i < |a| && a[i] == b;
    forall x | x in c ensures x.openMs != openedAt {
      var j :| 0 <= j < |c| && c[j] == x;
      assert (a + c)[i] == b && (a + c)[|a| + j] == x;
    }
  }

  /** A prefix finds the fill of the whole exactly when it still offers the fill's bar. */
  lemma FillOnPrefix(p: Pending, a: seq<Bar>, c: seq<Bar>)
    requires Chronological(a + c) && Disjoint(a + c) && FindEntry(p, a + c).Some?
    ensures FindEntry(p, a) == FindEntry(p, a + c) <==> Offers(a, FindEntry(p, a + c).value.openedAt)
  {
    var f := FindEntry(p, a + c).value;
    var spec := ConfirmationSpecOf(p.stored);
    if FindEntry(p, a).Some? {
      EntryExtends(p, a, c);
      FillIsOffered(p, a);
    } else if Offers(a, f.openedAt) {
      NoBarTwice(a, c, f.openedAt);
      if spec.None? {
        FillExtends(a, c, p.asOf);
        FillIsOffered(Pending(p.asOf, p.direction, None, p.expiresAt), c);
      } else {
        LateConfirmation(p, a, c);
      }
      assert false;
    }
  }

  /** When only the rest confirms, or only the rest has a bar to fill at, the fill opens after the whole prefix. */
  lemma LateConfirmation(p: Pending, a: seq<Bar>, c: seq<Bar>)
    requires Chronological(a + c) && Disjoint(a + c) && ConfirmationSpecOf(p.stored).Some?
    requires FindEntry(p, a + c).Some? && FindEntry(p, a).None?
    ensures !Offers(a, FindEntry(p, a + c).value.openedAt)
  {
    var spec, f := ConfirmationSpecOf(p.stored).value, FindEntry(p, a + c).value;
    var r := FindConfirmationBar(a + c, p.asOf, p.direction, spec, p.expiresAt.ms);
    var ra := FindConfirmationBar(a, p.asOf, p.direction, spec, p.expiresAt.ms);
    if Offers(a, f.openedAt) {
      NoBarTwice(a, c, f.openedAt);
      var b :| b in a && b.openMs == f.openedAt;
      if ra.Some? {
        ConfirmationExtends(a, c, p.asOf, p.direction, spec, p.expiresAt.ms);
        FillExtends(a, c, r.value.closedAt);
        FillIsOffered(Pending(r.value.closedAt, p.direction, None, p.expiresAt), c);
      } else {
        DeadlineStopMissesNothing(a + c, p.asOf, p.direction, spec, p.expiresAt.ms);
        var x :| x in a + c && Confirms(x, p.asOf, p.direction, spec)
            && r.value.closedAt == x.availableAt < p.expiresAt.ms
          && forall y :: y in a + c && Confirms(y, p.asOf, p.direction, spec) ==> x.availableAt <= y.availableAt;
        PrefixIsDisjoint(a, c);
        DeadlineStopMissesNothing(a, p.asOf, p.direction, spec, p.expiresAt.ms);
        assert x !in a;
        FillIsFirstTradable(a + c, r.value.closedAt);
        BeforeTheRest(a, c, b, x);
      }
      assert false;
    }
  }

  lemma PrefixIsDisjoint(a: seq<Bar>, c: seq<Bar>)
    requires Disjoint(a + c)
    ensures Disjoint(a)
  {
    forall i, j | 0 <= i < j < |a| ensures a[i].availableAt <= a[j].openMs {
      assert (a + c)[i] == a[i] && (a + c)[j] == a[j];
    }
    assert forall b :: b in a ==> b in a + c;
  }

  lemma BeforeTheRest(a: seq<Bar>, c: seq<Bar>, b: Bar, x: Bar)
    requires Chronological(a + c) && Disjoint(a + c) && b in a && x in c
    ensures b.openMs < x.openMs < x.availableAt
  {
    var i :| 0 <= i < |a| && a[i] == b;
    var j :| 0 <= j < |c| && c[j] == x;
    assert (a + c)[i] == b && (a + c)[|a| + j] == x;
    assert x in a + c;
  }

  /** The last stamp a capped intraday read still returns, if it was cut off. */
  predicate StillRead(t: BarTable, from: int, asOf: int, openedAt: int) {
    var v := VisibleIntraday(t, from, asOf);
    |v| > INTRADAY_ROW_CAP ==> openedAt <= v[INTRADAY_ROW_CAP - 1].ts
  }

  /**
   * A later tick whose intraday read is cut off keeps the fill exactly when the read still reaches the fill's
   * opening.
   */
  lemma FoundFillSurvivesIff(p: Pending, t: BarTable, first: int, later: int)
    requires ValidTable(t) && OnGrid(t) && first <= later
    requires FullDays(t, p.asOf, first, DAILY_ROW_CAP) && FullDays(t, p.asOf, later, DAILY_ROW_CAP)
    requires FindEntry(p, Window(t, p.asOf, first, INTRADAY_ROW_CAP, DAILY_ROW_CAP)).Some?
    ensures var f := FindEntry(p, Window(t, p.asOf, first, INTRADAY_ROW_CAP, DAILY_ROW_CAP));
            FindEntry(p, Window(t, p.asOf, later, INTRADAY_ROW_CAP, DAILY_ROW_CAP)) == f
            <==> StillRead(t, p.asOf, later, f.value.openedAt)
  {
    hide Window, Slice, FindEntry, VisibleIntraday, FullDays, AllBars;
    var a := Window(t, p.asOf, first, INTRADAY_ROW_CAP, DAILY_ROW_CAP);
    var w := Window(t, p.asOf, later, INTRADAY_ROW_CAP, DAILY_ROW_CAP);
    var s := Slice(t, p.asOf, later);
    var openedAt := FindEntry(p, a).value.openedAt;
    WindowIsSlice(t, p.asOf, first, INTRADAY_ROW_CAP, DAILY_ROW_CAP);
    WindowIsSlice(t, p.asOf, later, INTRADAY_ROW_CAP, DAILY_ROW_CAP);
    SlicesGrow(t, p.asOf, first, later);
    EntryOnPrefix(p, a, s);
    FillIsOffered(p, a);
    SliceOrdered(t, p.asOf, later);
    SliceIsDisjoint(t, p.asOf, later);
    assert s == w + s[|w|..];
    FillOnPrefix(p, w, s[|w|..]);
    var b :| b in a && b.openMs == openedAt;
    assert b in s;
    BarStillRead(t, p.asOf, later, b);
    if Offers(w, openedAt) {
      var x :| x in w && x.openMs == openedAt;
      assert x in s;
      BarStillRead(t, p.asOf, later, x);
    }
  }

  lemma {:induction false} BarStillRead(t: BarTable, from: int, asOf: int, b: Bar)
    requires ValidTable(t) && OnGrid(t) && FullDays(t, from, asOf, DAILY_ROW_CAP) && b in Slice(t, from, asOf)
    ensures b in Window(t, from, asOf, INTRADAY_ROW_CAP, DAILY_ROW_CAP) <==> StillRead(t, from, asOf, b.openMs)
  {
    hide Window, AllBars;
    WindowMembers(t, from, asOf, INTRADAY_ROW_CAP, DAILY_ROW_CAP, b);
  }

  lemma SliceIsDisjoint(t: BarTable, from: int, asOf: int)
    requires ValidTable(t) && OnGrid(t)
    ensures Disjoint(Slice(t, from, asOf))
  {
    var s := Slice(t, from, asOf);
    SliceOrdered(t, from, asOf);
    hide AllBars;
    forall b | b in s ensures b.openMs < b.availableAt {
      ApartInTime(t, b, b);
    }
    forall i, j | 0 <= i < j < |s| ensures s[i].availableAt <= s[j].openMs {
      assert s[i] in s && s[j] in s;
      ApartInTime(t, s[i], s[j]);
    }
  }

  /** A fill at an intraday bar always survives: the rows read before it do not change. */
  lemma IntradayFillSurvives(p: Pending, t: BarTable, first: int, later: int)
    requires ValidTable(t) && OnGrid(t) && first <= later
    requires FullDays(t, p.asOf, first, DAILY_ROW_CAP) && FullDays(t, p.asOf, later, DAILY_ROW_CAP)
    requires FindEntry(p, Window(t, p.asOf, first, INTRADAY_ROW_CAP, DAILY_ROW_CAP)).Some?
    requires FindEntry(p, Window(t, p.asOf, first, INTRADAY_ROW_CAP, DAILY_ROW_CAP)).value.kind.Intraday?
    ensures FindEntry(p, Window(t, p.asOf, later, INTRADAY_ROW_CAP, DAILY_ROW_CAP))
         == FindEntry(p, Window(t, p.asOf, first, INTRADAY_ROW_CAP, DAILY_ROW_CAP))
  {
    hide Window, FindEntry, VisibleIntraday, FullDays;
    var a := Window(t, p.asOf, first, INTRADAY_ROW_CAP, DAILY_ROW_CAP);
    FillBarKind(p, a);
    var b :| b in a && b.openMs == FindEntry(p, a).value.openedAt && b.kind.Intraday?;
    WindowIsSlice(t, p.asOf, first, INTRADAY_ROW_CAP, DAILY_ROW_CAP);
    RowStillRead(t, p.asOf, first, later, b);
    FoundFillSurvivesIff(p, t, first, later);
  }

  lemma FillBarKind(p: Pending, s: seq<Bar>)
    requires FindEntry(p, s).Some?
    ensures exists b :: b in s && b.openMs == FindEntry(p, s).value.openedAt && b.kind == FindEntry(p, s).value.kind
  {
    var spec := ConfirmationSpecOf(p.stored);
    var from := if spec.None? then p.asOf
                else FindConfirmationBar(s, p.asOf, p.direction, spec.value, p.expiresAt.ms).value.closedAt;
    FillIsFirstTradable(s, from);
    var k :| 0 <= k < |s| && Tradable(s[k], from) && IsFill(FindFillBar(s, from).value, s[k])
      && forall i :: 0 <= i < k ==> !Tradable(s[i], from);
    assert s[k] in s;
  }

  lemma RowStillRead(t: BarTable, from: int, first: int, later: int, b: Bar)
    requires ValidTable(t) && OnGrid(t) && first <= later && FullDays(t, from, first, DAILY_ROW_CAP)
    requires b in Window(t, from, first, INTRADAY_ROW_CAP, DAILY_ROW_CAP) && b.kind.Intraday?
    ensures StillRead(t, from, later, b.openMs)
  {
    hide AllBars, BarSequence;
    var v, w := VisibleIntraday(t, from, first), VisibleIntraday(t, from, later);
    WindowMembers(t, from, first, INTRADAY_ROW_CAP, DAILY_ROW_CAP, b);
    AllBarsAre(t, b);
    var r :| r in t.intraday && b == FromIntraday(r);
    IntradayInWindow(t, from, first, INTRADAY_ROW_CAP, r);
    ReadsGrow(t, from, first, later);
    hide VisibleIntraday;
    if |w| > INTRADAY_ROW_CAP {
      IntradayInWindow(t, from, later, INTRADAY_ROW_CAP, r);
      assert r in Capped(v, INTRADAY_ROW_CAP).rows;
      assert Capped(v, INTRADAY_ROW_CAP).rows <= w[..INTRADAY_ROW_CAP];
      assert r in Capped(w, INTRADAY_ROW_CAP).rows;
    }
  }

  /** Keeping only keys up to a bound gives a prefix. */
  lemma {:induction false} CutByKey<T(!new)>(s: seq<T>, key: T -> int, p: T -> bool, q: T -> bool, bound: int)
    requires StrictlyBy(s, key)
    requires forall e :: e in s ==> (p(e) <==> q(e) && key(e) <= bound)
    ensures Filter(s, p) <= Filter(s, q)
  {
    if s != [] {
      assert s[0] in s && forall e :: e in s[1..] ==> e in s;
      if key(s[0]) > bound {
        forall e | e in s ensures !p(e) {
          var k :| 0 <= k < |s| && s[k] == e;
          assert k > 0 ==> key(s[0]) < key(s[k]);
        }
        FilterNone(s, p);
      } else {
        CutByKey(s[1..], key, p, q, bound);
        assert p(s[0]) == q(s[0]);
      }
    }
  }

  lemma ReadsGrow(t: BarTable, from: int, first: int, later: int)
    requires ValidTable(t) && first <= later
    ensures VisibleIntraday(t, from, first) <= VisibleIntraday(t, from, later)
  {
    var byTs := (r: IntradayRow) => r.ts;
    var p := (r: IntradayRow) => CeilToSecond(from) <= r.ts <= IntradayCutoff(first);
    var q := (r: IntradayRow) => CeilToSecond(from) <= r.ts <= IntradayCutoff(later);
    CutByKey(t.intraday, byTs, p, q, IntradayCutoff(first));
    assert VisibleIntraday(t, from, first) == Filter(t.intraday, p);
    assert VisibleIntraday(t, from, later) == Filter(t.intraday, q);
  }

  // ---- No read is cut off before a deadline ---------------------------------------------------

  /** The bars of a sequence that open before `end`. */
  ghost function HeadOf(s: seq<Bar>, end: int): seq<Bar> {
    Filter(s, (b: Bar) => b.openMs < end)
  }

  lemma HeadIsPrefix(s: seq<Bar>, end: int)
    requires Chronological(s)
    ensures HeadOf(s, end) <= s && Chronological(HeadOf(s, end))
  {
    var byOpen := (b: Bar) => b.openMs;
    var all := (b: Bar) => true;
    CutByKey(s, byOpen, (b: Bar) => b.openMs < end, all, end - 1);
    FilterAll(s, all);
  }

  /** On the grid the k-th row read opens at least k bars after the start. */
  lemma {:induction false} GridSpread(v: seq<IntradayRow>, from: int, k: nat)
    requires ByTs(v) && k < |v| && forall r :: r in v ==> r.ts % BAR_MS == 0 && from <= r.ts
    ensures v[k].ts >= from + k * BAR_MS
    decreases k
  {
    assert v[k] in v;
    if k > 0 {
      GridSpread(v, from, k - 1);
      assert v[k - 1] in v;
      GridStep(v[k - 1].ts, v[k].ts);
    }
  }

  lemma ReadIsOrdered(t: BarTable, from: int, asOf: int)
    requires ValidTable(t)
    ensures ByTs(VisibleIntraday(t, from, asOf)) && ByDate(VisibleDaily(t, from, asOf))
  {
    var v, d := VisibleIntraday(t, from, asOf), VisibleDaily(t, from, asOf);
    var byTs := (r: IntradayRow) => r.ts;
    var byDate := (d: DailyRow) => d.date;
    FilterStrictlyBy(t.intraday, (r: IntradayRow) => CeilToSecond(from) <= r.ts <= IntradayCutoff(asOf), byTs);
    FilterStrictlyBy(t.daily, (d: DailyRow) => DailyFrom(from) <= d.date < DayOf(asOf), byDate);
    forall i, j | 0 <= i < j < |v| ensures v[i].ts < v[j].ts {
      assert byTs(v[i]) < byTs(v[j]);
    }
    forall i, j | 0 <= i < j < |d| ensures d[i].date < d[j].date {
      assert byDate(d[i]) < byDate(d[j]);
    }
  }

  /** The row caps lie far beyond the longest time an entry may wait. */
  lemma EarlyRowsAreRead(t: BarTable, from: int, asOf: int)
    requires ValidTable(t) && OnGrid(t)
    ensures var v := VisibleIntraday(t, from, asOf);
            |v| > INTRADAY_ROW_CAP ==> v[INTRADAY_ROW_CAP - 1].ts >= from + PENDING_ENTRY_EXPIRY_MS
  {
    var v := VisibleIntraday(t, from, asOf);
    ReadIsOrdered(t, from, asOf);
    forall r | r in v ensures r.ts % BAR_MS == 0 && from <= r.ts {
      InRead(t, from, asOf, r);
    }
    hide VisibleIntraday, ByTs;
    if |v| > INTRADAY_ROW_CAP {
      GridSpread(v, from, INTRADAY_ROW_CAP - 1);
    }
  }

  lemma EarlyDaysAreRead(t: BarTable, from: int, asOf: int)
    requires ValidTable(t)
    ensures var v := VisibleDaily(t, from, asOf);
            |v| > DAILY_ROW_CAP ==> v[DAILY_ROW_CAP - 1].date * DAY_MS >= from + PENDING_ENTRY_EXPIRY_MS
  {
    var v := VisibleDaily(t, from, asOf);
    ReadIsOrdered(t, from, asOf);
    forall d | d in v ensures from <= d.date * DAY_MS {
      InDailyRead(t, from, asOf, d);
    }
    hide VisibleDaily;
    if |v| > DAILY_ROW_CAP {
      DaySpread(v, DAILY_ROW_CAP - 1);
      assert v[0] in v;
    }
  }

  lemma {:induction false} DaySpread(v: seq<DailyRow>, k: nat)
    requires ByDate(v) && k < |v|
    ensures v[k].date >= v[0].date + k
    decreases k
  {
    if k > 0 {
      DaySpread(v, k - 1);
    }
  }

  /** Whatever was cut off, the bars that open within the waiting time are read. */
  lemma HeadsAgree(t: BarTable, from: int, asOf: int, end: int)
    requires ValidTable(t) && OnGrid(t) && end <= from + PENDING_ENTRY_EXPIRY_MS
    ensures HeadOf(Window(t, from, asOf, INTRADAY_ROW_CAP, DAILY_ROW_CAP), end) == HeadOf(Slice(t, from, asOf), end)
    ensures Chronological(Window(t, from, asOf, INTRADAY_ROW_CAP, DAILY_ROW_CAP))
    ensures Disjoint(Window(t, from, asOf, INTRADAY_ROW_CAP, DAILY_ROW_CAP))
  {
    hide Window, Slice, AllBars, VisibleIntraday, VisibleDaily;
    var w, s := Window(t, from, asOf, INTRADAY_ROW_CAP, DAILY_ROW_CAP), Slice(t, from, asOf);
    WindowOrdered(t, from, asOf, INTRADAY_ROW_CAP, DAILY_ROW_CAP);
    SliceOrdered(t, from, asOf);
    EarlyRowsAreRead(t, from, asOf);
    EarlyDaysAreRead(t, from, asOf);
    forall b ensures b in w ==> b in s
             ensures b in s && b.openMs < end ==> b in w {
      WindowMembersCut(t, from, asOf, INTRADAY_ROW_CAP, DAILY_ROW_CAP, b);
      InSlice(t, from, asOf, b);
    }
    HeadIsPrefix(w, end);
    HeadIsPrefix(s, end);
    OneOrder(HeadOf(w, end), HeadOf(s, end));
    WindowIsDisjoint(t, from, asOf, w);
  }

  lemma WindowIsDisjoint(t: BarTable, from: int, asOf: int, w: seq<Bar>)
    requires ValidTable(t) && OnGrid(t) && Chronological(w) && forall b :: b in w ==> b in Slice(t, from, asOf)
    ensures Disjoint(w)
  {
    hide Slice, AllBars;
    forall b | b in w ensures b in AllBars(t) && b.openMs < b.availableAt {
      InSlice(t, from, asOf, b);
      ApartInTime(t, b, b);
    }
    forall i, j | 0 <= i < j < |w| ensures w[i].availableAt <= w[j].openMs {
      assert w[i] in w && w[j] in w;
      ApartInTime(t, w[i], w[j]);
    }
  }

  /** A fill that opens before `end` depends only on the bars before it. */
  lemma HeadDecides(p: Pending, s: seq<Bar>, end: int)
    requires Chronological(s) && Disjoint(s)
    ensures var f, h := FindEntry(p, s), FindEntry(p, HeadOf(s, end));
            && (h.Some? ==> f == h && h.value.openedAt < end)
            && (f.Some? && f.value.openedAt < end ==> h == f)
  {
    hide FindEntry, Chronological, Disjoint;
    var head := HeadOf(s, end);
    HeadIsPrefix(s, end);
    assert s == head + s[|head|..];
    if FindEntry(p, head).Some? {
      EntryOnPrefix(p, head, s);
      FillIsOffered(p, head);
    }
    if FindEntry(p, s).Some? && FindEntry(p, s).value.openedAt < end {
      FillIsOffered(p, s);
      FillOnPrefix(p, head, s[|head|..]);
    }
  }

  /** A deadline as decisions are stored with: unusable, or no later than the longest wait. */
  predicate StoredDeadline(p: Pending) {
    p.expiresAt.At? ==> p.expiresAt.ms <= p.asOf + PENDING_ENTRY_EXPIRY_MS
  }

  lemma DeadlinesAreStored(p: Pending, configured: Option<real>)
    requires p.expiresAt == PlainDeadline(p.asOf) || p.expiresAt == ConfirmDeadline(p.asOf, configured)
    ensures StoredDeadline(p)
  {
  }

  /** An entry's fill counts only before its deadline. */
  predicate InTime(p: Pending, fill: Option<Fill>) {
    fill.Some? && p.expiresAt.At? && fill.value.openedAt < p.expiresAt.ms
  }

  /** What a tick reads offers an in-time fill exactly when everything since the decision does, and the same one. */
  lemma InTimeFillIsRead(p: Pending, t: BarTable, now: int)
    requires ValidTable(t) && OnGrid(t) && StoredDeadline(p)
    ensures var f := FindEntry(p, Window(t, p.asOf, now, INTRADAY_ROW_CAP, DAILY_ROW_CAP));
            var g := FindEntry(p, Slice(t, p.asOf, now));
            InTime(p, f) || InTime(p, g) ==> f == g
  {
    hide Window, Slice, FindEntry;
    if p.expiresAt.At? {
      HeadsAgree(t, p.asOf, now, p.expiresAt.ms);
      SliceOrdered(t, p.asOf, now);
      SliceIsDisjoint(t, p.asOf, now);
      HeadDecides(p, Window(t, p.asOf, now, INTRADAY_ROW_CAP, DAILY_ROW_CAP), p.expiresAt.ms);
      HeadDecides(p, Slice(t, p.asOf, now), p.expiresAt.ms);
    }
  }

  /** Once an entry finds an in-time fill, every later tick finds the identical fill, whatever its reads were cut to. */
  lemma FoundFillIsStable(p: Pending, t: BarTable, first: int, later: int)
    requires ValidTable(t) && OnGrid(t) && first <= later && StoredDeadline(p)
    requires InTime(p, FindEntry(p, Window(t, p.asOf, first, INTRADAY_ROW_CAP, DAILY_ROW_CAP)))
    ensures FindEntry(p, Window(t, p.asOf, later, INTRADAY_ROW_CAP, DAILY_ROW_CAP))
         == FindEntry(p, Window(t, p.asOf, first, INTRADAY_ROW_CAP, DAILY_ROW_CAP))
  {
    hide Window, Slice, FindEntry;
    InTimeFillIsRead(p, t, first);
    InTimeFillIsRead(p, t, later);
    SlicesGrow(t, p.asOf, first, later);
    EntryOnPrefix(p, Slice(t, p.asOf, first), Slice(t, p.asOf, later));
  }

  // ---- Deciding ---------------------------------------------------------------------------

  datatype Decision = Filled(fill: Fill) | Expired | Waiting

  /** An unusable deadline has always passed. */
  predicate IsPendingEntryExpired(expiresAt: Stamp, now: int) {
    expiresAt.At? ==> now >= expiresAt.ms
  }

  /** A fill counts when it opened before the deadline, whatever the time is now; otherwise the deadline decides. */
  function Decide(p: Pending, fill: Option<Fill>, now: int): Decision {
    if InTime(p, fill) then Filled(fill.value)
    else if IsPendingEntryExpired(p.expiresAt, now) then Expired
    else Waiting
  }

  ghost function TickDecision(p: Pending, t: BarTable, now: int): Decision {
    Decide(p, FindEntry(p, Window(t, p.asOf, now, INTRADAY_ROW_CAP, DAILY_ROW_CAP)), now)
  }

  /** A decision's fate over a run of ticks: what the first tick that does not wait decides. */
  ghost function Fate(p: Pending, t: BarTable, ticks: seq<int>): Decision {
    if ticks == [] then Waiting
    else
      var d := TickDecision(p, t, ticks[0]);
      if d.Waiting? then Fate(p, t, ticks[1..]) else d
  }

  ghost predicate Ticks(ticks: seq<int>, last: int) {
    && ticks != [] && ticks[|ticks| - 1] == last
    && forall i, j :: 0 <= i < j < |ticks| ==> ticks[i] <= ticks[j]
  }

  /** The reads of every tick up to `last` are whole. */
  ghost predicate WholeReads(t: BarTable, from: int, last: int) {
    |VisibleIntraday(t, from, last)| <= INTRADAY_ROW_CAP && FullDays(t, from, last, DAILY_ROW_CAP)
  }

  lemma {:induction false} WholeReadsBefore(t: BarTable, from: int, now: int, last: int)
    requires ValidTable(t) && OnGrid(t) && now <= last && WholeReads(t, from, last)
    ensures WholeReads(t, from, now)
    ensures Window(t, from, now, INTRADAY_ROW_CAP, DAILY_ROW_CAP) == Slice(t, from, now)
  {
    hide Window, Slice;
    ReadsGrow(t, from, now, last);
    DailyReadsGrow(t, from, now, last);
    hide VisibleIntraday, VisibleDaily;
    WindowIsSlice(t, from, now, INTRADAY_ROW_CAP, DAILY_ROW_CAP);
  }

  lemma DailyReadsGrow(t: BarTable, from: int, first: int, later: int)
    requires ValidTable(t) && first <= later
    ensures VisibleDaily(t, from, first) <= VisibleDaily(t, from, later)
  {
    var byDate := (d: DailyRow) => d.date;
    var p := (d: DailyRow) => DailyFrom(from) <= d.date < DayOf(first);
    var q := (d: DailyRow) => DailyFrom(from) <= d.date < DayOf(later);
    CutByKey(t.daily, byDate, p, q, DayOf(first) - 1);
    assert VisibleDaily(t, from, first) == Filter(t.daily, p);
    assert VisibleDaily(t, from, later) == Filter(t.daily, q);
  }

  /** The bar at which the decision fills, once everything up to `last` can be read. */
  ghost predicate FillBar(p: Pending, t: BarTable, last: int, b: Bar) {
    var s := Slice(t, p.asOf, last);
    b in s && FindEntry(p, s).Some? && b.openMs == FindEntry(p, s).value.openedAt
  }

  /** The bar opens before the deadline and closes after it. */
  predicate Straddles(p: Pending, b: Bar) {
    p.expiresAt.At? && b.openMs < p.expiresAt.ms < b.availableAt
  }

  /**
   * What is offered by one tick is what is offered by the last one, once the fill's bar has closed, and nothing
   * before.
   */
  lemma {:induction false} FoundWhenClosed(p: Pending, t: BarTable, now: int, last: int)
    requires ValidTable(t) && OnGrid(t) && now <= last
    ensures FindEntry(p, Slice(t, p.asOf, now)).Some? ==>
              FindEntry(p, Slice(t, p.asOf, now)) == FindEntry(p, Slice(t, p.asOf, last))
    ensures forall b :: FillBar(p, t, last, b) ==> (FindEntry(p, Slice(t, p.asOf, now)).Some? <==> b.availableAt <= now)
  {
    hide AllBars, FindEntry;
    var a, s := Slice(t, p.asOf, now), Slice(t, p.asOf, last);
    SlicesGrow(t, p.asOf, now, last);
    SliceOrdered(t, p.asOf, last);
    SliceIsDisjoint(t, p.asOf, last);
    if FindEntry(p, a).Some? {
      EntryOnPrefix(p, a, s);
      FillIsOffered(p, a);
    }
    if FindEntry(p, s).Some? {
      assert s == a + s[|a|..];
      FillOnPrefix(p, a, s[|a|..]);
      forall b | FillBar(p, t, last, b)
        ensures FindEntry(p, a).Some? <==> b.availableAt <= now
      {
        forall x | x in a && x.openMs == b.openMs ensures x == b {
          ApartInTime(t, x, b);
        }
      }
    }
  }

  /** A tick decides as if it had read everything since the decision. */
  lemma DecidesOnEverything(p: Pending, t: BarTable, now: int)
    requires ValidTable(t) && OnGrid(t) && StoredDeadline(p)
    ensures TickDecision(p, t, now) == Decide(p, FindEntry(p, Slice(t, p.asOf, now)), now)
  {
    hide Window, Slice, FindEntry;
    InTimeFillIsRead(p, t, now);
  }

  /**
   * Whatever the schedule, ticks up to the same last one decide as that one alone would, provided the fill's
   * bar does not straddle the deadline.
   */
  lemma {:induction false} ScheduleDoesNotDecide(p: Pending, t: BarTable, ticks: seq<int>, last: int)
    requires ValidTable(t) && OnGrid(t) && StoredDeadline(p) && Ticks(ticks, last)
    requires forall b :: FillBar(p, t, last, b) ==> !Straddles(p, b)
    ensures Fate(p, t, ticks) == TickDecision(p, t, last)
    decreases |ticks|
  {
    hide Window, Slice, FindEntry, TickDecision;
    var now := ticks[0];
    DecidesOnEverything(p, t, now);
    DecidesOnEverything(p, t, last);
    FoundWhenClosed(p, t, now, last);
    var f := FindEntry(p, Slice(t, p.asOf, last));
    if f.Some? {
      FillIsOffered(p, Slice(t, p.asOf, last));
      var b :| b in Slice(t, p.asOf, last) && b.openMs == f.value.openedAt;
      assert FillBar(p, t, last, b);
    }
    if TickDecision(p, t, now).Waiting? {
      if |ticks| > 1 {
        ScheduleDoesNotDecide(p, t, ticks[1..], last);
      } else {
        assert Fate(p, t, ticks[1..]) == Waiting;
      }
    }
  }

  /**
   * When it does straddle the deadline, a tick between the deadline and its close expires what a later tick
   * alone fills.
   */
  lemma {:induction false} StraddlingFillDependsOnTheTick(p: Pending, t: BarTable, last: int, b: Bar)
    requires ValidTable(t) && OnGrid(t) && StoredDeadline(p)
    requires FillBar(p, t, last, b) && Straddles(p, b)
    ensures Ticks([p.expiresAt.ms, last], last) && Fate(p, t, [p.expiresAt.ms, last]) == Expired
    ensures TickDecision(p, t, last).Filled?
  {
    hide Window, FindEntry, AllBars, TickDecision;
    DecidesOnEverything(p, t, p.expiresAt.ms);
    DecidesOnEverything(p, t, last);
    FoundWhenClosed(p, t, p.expiresAt.ms, last);
  }

  /** So the schedule shows in exactly one case: the fill's bar opens before the deadline and closes after it. */
  lemma ScheduleShowsIff(p: Pending, t: BarTable, last: int)
    requires ValidTable(t) && OnGrid(t) && StoredDeadline(p)
    ensures (forall ticks :: Ticks(ticks, last) ==> Fate(p, t, ticks) == TickDecision(p, t, last))
       <==> forall b :: FillBar(p, t, last, b) ==> !Straddles(p, b)
  {
    hide Fate, TickDecision, FillBar, Straddles;
    if forall b :: FillBar(p, t, last, b) ==> !Straddles(p, b) {
      forall ticks | Ticks(ticks, last) ensures Fate(p, t, ticks) == TickDecision(p, t, last) {
        ScheduleDoesNotDecide(p, t, ticks, last);
      }
    } else {
      var b :| FillBar(p, t, last, b) && Straddles(p, b);
      StraddlingFillDependsOnTheTick(p, t, last, b);
    }
  }

  /** A fill never uses a bar from before the decision or one that has not closed. */
  lemma FillIsKnowable(p: Pending, t: BarTable, now: int)
    requires ValidTable(t) && OnGrid(t)
    requires FindEntry(p, Window(t, p.asOf, now, INTRADAY_ROW_CAP, DAILY_ROW_CAP)).Some?
    ensures var f := FindEntry(p, Window(t, p.asOf, now, INTRADAY_ROW_CAP, DAILY_ROW_CAP)).value;
            exists b :: b in AllBars(t) && b.openMs == f.openedAt && b.kind == f.kind && p.asOf <= b.openMs
              && b.availableAt <= now
  {
    hide Window, AllBars, FindEntry, Reaches, ReachesDay;
    var w := Window(t, p.asOf, now, INTRADAY_ROW_CAP, DAILY_ROW_CAP);
    FillBarKind(p, w);
    var b :| b in w && b.openMs == FindEntry(p, w).value.openedAt && b.kind == FindEntry(p, w).value.kind;
    WindowMembersCut(t, p.asOf, now, INTRADAY_ROW_CAP, DAILY_ROW_CAP, b);
  }

  // ---- The table of waiting decisions -------------------------------------------------------

  const PENDING_PAGE := 200

  /** A row of the decisions table: still waiting, committed at a fill, or expired. */
  datatype EntryStatus = PendingEntry | Committed(fill: Fill) | SkippedNoFill

  datatype EntryRow = EntryRow(id: int, ticker: int, pending: Pending, status: EntryStatus)

  function After(r: EntryRow, d: Decision): EntryRow {
    match d
    case Filled(f) => r.(status := Committed(f))
    case Expired => r.(status := SkippedNoFill)
    case Waiting => r
  }

  predicate Listed(r: EntryRow, now: int) {
    r.status.PendingEntry? && r.pending.asOf <= now
  }

  /** One tick over the table: the first `page` listed rows are decided, every other row stays. */
  ghost function Ticked(rows: seq<EntryRow>, market: map<int, BarTable>, now: int, page: nat): seq<EntryRow>
    requires forall r :: r in rows ==> r.ticker in market
  {
    if rows == [] || page == 0 then rows
    else if Listed(rows[0], now) then
      [After(rows[0], TickDecision(rows[0].pending, market[rows[0].ticker], now))]
        + Ticked(rows[1..], market, now, page - 1)
    else [rows[0]] + Ticked(rows[1..], market, now, page)
  }

  function Waits(rows: seq<EntryRow>, now: int): nat {
    if rows == [] then 0 else (if Listed(rows[0], now) then 1 else 0) + Waits(rows[1..], now)
  }

  /** What a tick at `now` makes of a waiting decision, from the fill its bars offer. */
  ghost predicate Decided(p: Pending, t: BarTable, now: int, status: EntryStatus) {
    var fill := FindEntry(p, Window(t, p.asOf, now, INTRADAY_ROW_CAP, DAILY_ROW_CAP));
    var inTime := fill.Some? && p.expiresAt.At? && fill.value.openedAt < p.expiresAt.ms;
    match status
    case Committed(f) => inTime && f == fill.value
    case SkippedNoFill => !inTime && (!p.expiresAt.At? || p.expiresAt.ms <= now)
    case PendingEntry => !inTime && p.expiresAt.At? && now < p.expiresAt.ms
  }

  lemma DecisionMeans(p: Pending, t: BarTable, now: int)
    ensures match TickDecision(p, t, now)
            case Filled(f) => Decided(p, t, now, Committed(f))
            case Expired => Decided(p, t, now, SkippedNoFill)
            case Waiting => Decided(p, t, now, PendingEntry)
  {
    hide FindEntry, Window;
  }

  /**
   * A tick changes only the first `page` rows that are waiting and were decided by now: such a row fills at its fill
   * when that opened before the deadline, expires when it did not and the deadline has passed or is unusable, and else
   * stays.
   */
  lemma {:induction false} TickDecidesListedRows(rows: seq<EntryRow>, market: map<int, BarTable>, now: int, page: nat,
                                                 k: nat)
    requires forall r :: r in rows ==> r.ticker in market
    requires k < |rows|
    ensures |Ticked(rows, market, now, page)| == |rows|
    ensures var r, u := rows[k], Ticked(rows, market, now, page)[k];
            if r.status.PendingEntry? && r.pending.asOf <= now && Waits(rows[..k], now) < page then
              u == r.(status := u.status) && Decided(r.pending, market[r.ticker], now, u.status)
            else u == r
  {
    hide TickDecision, Decided;
    DecisionMeans(rows[k].pending, market[rows[k].ticker], now);
    if page > 0 {
      var rest := if Listed(rows[0], now) then page - 1 else page;
      if k > 0 {
        assert rows[..k][0] == rows[0] && rows[..k][1..] == rows[1..][..k - 1];
        TickDecidesListedRows(rows[1..], market, now, rest, k - 1);
      } else if |rows| > 1 {
        TickDecidesListedRows(rows[1..], market, now, rest, 0);
      } else {
        assert rows[1..] == [];
      }
    }
  }

  /** The decisions a tick takes, in order. */
  ghost function Decisions(rows: seq<EntryRow>, market: map<int, BarTable>, now: int, page: nat): seq<(int, Decision)>
    requires forall r :: r in rows ==> r.ticker in market
  {
    if rows == [] || page == 0 then []
    else if Listed(rows[0], now) then
      [(rows[0].id, TickDecision(rows[0].pending, market[rows[0].ticker], now))]
        + Decisions(rows[1..], market, now, page - 1)
    else Decisions(rows[1..], market, now, page)
  }

  /** What a tick reports: the ids filled, the ids expired and how many keep waiting. */
  datatype Report = Report(filled: seq<int>, expired: seq<int>, waiting: nat)

  function Add(r: Report, id: int, d: Decision): Report {
    match d
    case Filled(_) => r.(filled := r.filled + [id])
    case Expired => r.(expired := r.expired + [id])
    case Waiting => r.(waiting := r.waiting + 1)
  }

  function Reported(r: Report, log: seq<(int, Decision)>): Report
    decreases |log|
  {
    if log == [] then r else Reported(Add(r, log[0].0, log[0].1), log[1..])
  }

  /** A row of that id was waiting before and has filled, or expired, since. */
  ghost predicate Became(rows: seq<EntryRow>, after: seq<EntryRow>, id: int, filled: bool) {
    exists k :: 0 <= k < |rows| && k < |after| && rows[k].id == id && rows[k].status.PendingEntry?
      && (if filled then after[k].status.Committed? else after[k].status.SkippedNoFill?)
  }

  lemma BecameStep(rows: seq<EntryRow>, after: seq<EntryRow>, id: int, filled: bool)
    requires rows != [] && |after| == |rows|
    ensures Became(rows, after, id, filled) <==>
            Became([rows[0]], [after[0]], id, filled) || Became(rows[1..], after[1..], id, filled)
  {
    if Became(rows, after, id, filled) {
      var k :| 0 <= k < |rows| && rows[k].id == id && rows[k].status.PendingEntry?
        && (if filled then after[k].status.Committed? else after[k].status.SkippedNoFill?);
      if k > 0 {
        assert rows[1..][k - 1] == rows[k] && after[1..][k - 1] == after[k];
      } else {
        assert [rows[0]][0] == rows[k] && [after[0]][0] == after[k];
      }
    }
    if Became([rows[0]], [after[0]], id, filled) {
      var k :| 0 <= k < |[rows[0]]| && [rows[0]][k].id == id && [rows[0]][k].status.PendingEntry?
        && (if filled then [after[0]][k].status.Committed? else [after[0]][k].status.SkippedNoFill?);
      assert rows[0] == [rows[0]][k] && after[0] == [after[0]][k];
    }
    if Became(rows[1..], after[1..], id, filled) {
      var k :| 0 <= k < |rows[1..]| && rows[1..][k].id == id && rows[1..][k].status.PendingEntry?
        && (if filled then after[1..][k].status.Committed? else after[1..][k].status.SkippedNoFill?);
      assert rows[k + 1] == rows[1..][k] && after[k + 1] == after[1..][k];
    }
  }

  /** The report names the rows that filled and those that expired, and counts the others it looked at. */
  lemma {:induction false} ReportTells(r: Report, rows: seq<EntryRow>, market: map<int, BarTable>, now: int, page: nat)
    requires Priced(rows, market)
    ensures var after, out := Ticked(rows, market, now, page), Reported(r, Decisions(rows, market, now, page));
            && |after| == |rows|
            && (forall id :: id in out.filled <==> id in r.filled || Became(rows, after, id, true))
            && (forall id :: id in out.expired <==> id in r.expired || Became(rows, after, id, false))
            && |out.filled| + |out.expired| + out.waiting
               == |r.filled| + |r.expired| + r.waiting + Min(page, Waits(rows, now))
    decreases |rows|
  {
    hide TickDecision;
    var after, log := Ticked(rows, market, now, page), Decisions(rows, market, now, page);
    if rows == [] || page == 0 {
      forall id, filled ensures !Became(rows, after, id, filled) {
        hide Waits;
      }
    } else {
      var listed := Listed(rows[0], now);
      var d := TickDecision(rows[0].pending, market[rows[0].ticker], now);
      var next, rest := if listed then Add(r, rows[0].id, d) else r, if listed then page - 1 else page;
      ReportTells(next, rows[1..], market, now, rest);
      assert after[1..] == Ticked(rows[1..], market, now, rest);
      if listed {
        assert log[1..] == Decisions(rows[1..], market, now, rest);
      }
      forall id, filled
        ensures Became(rows, after, id, filled) <==>
                (listed && rows[0].id == id && (if filled then d.Filled? else d.Expired?))
                || Became(rows[1..], after[1..], id, filled)
      {
        BecameStep(rows, after, id, filled);
        assert [rows[0]][0] == rows[0];
      }
    }
  }

  method DecideRow(r: EntryRow, t: BarTable, now: int) returns (d: Decision)
    ensures d == TickDecision(r.pending, t, now)
  {
    var fill := FindEntryFill(r.pending, t, now);
    d := Decide(r.pending, fill, now);
  }

  ghost predicate Priced(rows: seq<EntryRow>, market: map<int, BarTable>) {
    forall r :: r in rows ==> r.ticker in market
  }

  /** The tick has done `done`, the first rows, with `page` decisions left. */
  ghost predicate Midway(was: seq<EntryRow>, market: map<int, BarTable>, now: int, done: seq<EntryRow>, page: int,
                         report: Report) {
    && Priced(was, market) && |done| <= |was| && page >= 0
    && Ticked(was, market, now, PENDING_PAGE) == done + Ticked(was[|done|..], market, now, page)
    && Reported(Report([], [], 0), Decisions(was, market, now, PENDING_PAGE))
       == Reported(report, Decisions(was[|done|..], market, now, page))
  }

  lemma MidwayStep(was: seq<EntryRow>, market: map<int, BarTable>, now: int, done: seq<EntryRow>, page: int,
                   report: Report, d: Decision)
    requires Midway(was, market, now, done, page, report) && |done| < |was|
    requires d == TickDecision(was[|done|].pending, market[was[|done|].ticker], now)
    ensures var r := was[|done|];
            if Listed(r, now) && page > 0 then
              Midway(was, market, now, done + [After(r, d)], page - 1, Add(report, r.id, d))
            else Midway(was, market, now, done + [r], page, report)
  {
    hide TickDecision, After, Add;
    var i := |done|;
    var r, later := was[i], was[i + 1..];
    assert was[i..][0] == r && was[i..][1..] == later;
    if Listed(r, now) && page > 0 {
      var rest := Decisions(later, market, now, page - 1);
      assert Decisions(was[i..], market, now, page) == [(r.id, d)] + rest;
      assert ([(r.id, d)] + rest)[1..] == rest;
      assert done + ([After(r, d)] + Ticked(later, market, now, page - 1)) ==
               (done + [After(r, d)]) + Ticked(later, market, now, page - 1);
    } else {
      assert done + ([r] + Ticked(later, market, now, page)) == (done + [r]) + Ticked(later, market, now, page);
    }
  }

  lemma MidwayEnds(was: seq<EntryRow>, market: map<int, BarTable>, now: int)
    requires Priced(was, market)
    ensures Midway(was, market, now, [], PENDING_PAGE, Report([], [], 0))
    ensures forall done, page, report :: |done| == |was| && Midway(was, market, now, done, page, report) ==>
              Ticked(was, market, now, PENDING_PAGE) == done
              && report == Reported(Report([], [], 0), Decisions(was, market, now, PENDING_PAGE))
  {
    assert was[0..] == was && was[|was|..] == [];
  }

  class PendingTable {
    var rows: seq<EntryRow>

    constructor (stored: seq<EntryRow>)
      ensures rows == stored
    {
      rows := stored;
    }

    /** Fills, expires or keeps waiting each listed decision, oldest first. */
    method FillPendingEntries(market: map<int, BarTable>, now: int) returns (report: Report)
      requires Priced(rows, market)
      modifies this
      ensures rows == Ticked(old(rows), market, now, PENDING_PAGE)
      ensures report == Reported(Report([], [], 0), Decisions(old(rows), market, now, PENDING_PAGE))
    {
      hide *;
      report := Report([], [], 0);
      ghost var was := rows;
      var page := PENDING_PAGE;
      MidwayEnds(was, market, now);
      for i := 0 to |rows|
        invariant |rows| == |was| && rows[i..] == was[i..]
        invariant Midway(was, market, now, rows[..i], page, report)
      {
        var r := rows[i];
        ghost var done := rows[..i];
        assert r == was[i] && |done| == i;
        TickerIsPriced(was, market, r);
        MidwayStep(was, market, now, done, page, report, TickDecision(r.pending, market[r.ticker], now));
        if Listed(r, now) && page > 0 {
          var d := DecideRow(r, market[r.ticker], now);
          report := Add(report, r.id, d);
          page := page - 1;
          rows := rows[i := After(r, d)];
        }
        assert rows[..i + 1] == done + [rows[i]];
      }
      assert rows[..|rows|] == rows;
    }
  }

  lemma TickerIsPriced(rows: seq<EntryRow>, market: map<int, BarTable>, r: EntryRow)
    requires Priced(rows, market) && r in rows
    ensures r.ticker in market
  {
  }
}
