/**
 * What the row caps cost once the hold is over: exactly when a check whose reads were cut off closes as one that reads
 * every bar, and a position whose stop was touched in the part not read.
 */
module ExitCutoff {
  import opened BarFill
  import opened BarWindow
  import opened Calendar
  import opened Collections
  import opened EntryFill
  import opened ExitCheck
  import opened ExitSchedule
  import opened ExitWalk
  import opened HoldTime
  import opened Returns

  /** A static walk that goes on has touched nothing. */
  lemma {:induction false} GoingIsUntouched(t: Terms, o: Policy, p: Progress, bars: seq<Bar>)
    requires Walkable(t) && o.trailing.None?
    ensures Walk(t, o, p, bars).Going? <==> forall b :: b in bars ==> !TouchesStatic(t, b) && !Suspect(t, o, b)
    decreases |bars|
  {
    if bars != [] {
      StaticStep(t, o, p, bars[0]);
      hide StepBar, TouchesStatic, Suspect;
      assert bars == [bars[0]] + bars[1..];
      if StepBar(t, o, p, bars[0]).Going? {
        GoingIsUntouched(t, o, StepBar(t, o, p, bars[0]).p, bars[1..]);
      } else {
        assert bars[0] in bars;
      }
    }
  }

  lemma {:induction false} NeverHalted(t: Terms, o: Policy, p: Progress, bars: seq<Bar>)
    requires Walkable(t) && o.trailing.None? && o.splitTolerance <= 0.0
    ensures !Walk(t, o, p, bars).Halted?
    decreases |bars|
  {
    if bars != [] {
      StaticStep(t, o, p, bars[0]);
      hide StepBar;
      if StepBar(t, o, p, bars[0]).Going? {
        NeverHalted(t, o, StepBar(t, o, p, bars[0]).p, bars[1..]);
      }
    }
  }

  /** A check at or after the due instant whose cut-off walk goes on, with a bar to fill at, closes by time. */
  lemma CutWalkClosesByTime(r: Row, m: Market, cfg: Config, asOf: int)
    requires r.closure.None? && OpenAsOf(r, asOf) && Walks(r) && HoldOver(r, m, cfg, asOf)
    requires PriceWalk(r, m, cfg, asOf).value.Going? && DueFill(r, m, cfg, asOf).Some?
    requires LateWalk(r, m, cfg, asOf).value.Exited?
    ensures Check(r, m, cfg, asOf).closure.Some? && Check(r, m, cfg, asOf).closure.value.reason.TimeBased?
    ensures LateCheck(r, m, cfg, asOf).closure.Some?
    ensures LateCheck(r, m, cfg, asOf).closure.value.reason == LateWalk(r, m, cfg, asOf).value.exit.reason
  {
    CheckParts(r, m, cfg, asOf);
    LateParts(r, m, cfg, asOf);
    hide Check, LateCheck, PriceWalk, LateWalk, LateFill, HoldOver, Recorded, Unsplit;
  }

  // ---- When a cut-off check closes as a whole one -----------------------------------------------

  /** The walk ends at the bar with index `k`. */
  predicate EndsAt(t: Terms, o: Policy, p: Progress, bars: seq<Bar>, k: nat)
    requires Walkable(t)
  {
    k < |bars| && Walk(t, o, p, bars[..k]).Going? && !Walk(t, o, p, bars[..k + 1]).Going?
  }

  lemma {:induction false} SomewhereEnds(t: Terms, o: Policy, p: Progress, bars: seq<Bar>) returns (k: nat)
    requires Walkable(t) && !Walk(t, o, p, bars).Going?
    ensures EndsAt(t, o, p, bars, k)
    decreases |bars|
  {
    assert bars != [];
    hide StepBar, Walk;
    var before := bars[..|bars| - 1];
    if Walk(t, o, p, before).Going? {
      k := |bars| - 1;
      assert bars[..k + 1] == bars;
    } else {
      k := SomewhereEnds(t, o, p, before);
      assert bars[..k] == before[..k] && bars[..k + 1] == before[..k + 1];
    }
  }

  /** A first part of the bars ends the walk exactly when it holds the bar the walk ends at. */
  lemma EndsInPart(t: Terms, o: Policy, p: Progress, w: seq<Bar>, bars: seq<Bar>, k: nat)
    requires Walkable(t) && w <= bars && EndsAt(t, o, p, bars, k)
    ensures Walk(t, o, p, w).Going? <==> |w| <= k
    ensures !Walk(t, o, p, w).Going? ==> Walk(t, o, p, w) == Walk(t, o, p, bars)
    ensures !Walk(t, o, p, bars).Going?
  {
    hide StepBar, Walk;
    assert bars == w + bars[|w|..];
    WalkConcat(t, o, p, w, bars[|w|..]);
    assert bars == bars[..k + 1] + bars[k + 1..];
    WalkConcat(t, o, p, bars[..k + 1], bars[k + 1..]);
    if k < |w| {
      assert w == bars[..k + 1] + w[k + 1..];
      WalkConcat(t, o, p, bars[..k + 1], w[k + 1..]);
    } else {
      assert bars[..k] == w + bars[|w|..k];
      WalkConcat(t, o, p, w, bars[|w|..k]);
    }
  }

  /** The bar a walk over everything ends at, an exit or a suspected split, was still read. */
  ghost predicate EndIsRead(r: Row, m: Market, cfg: Config, until: int)
    requires Walks(r)
  {
    var s, o := Slice(m.table, Anchor(r).ms, until), PolicyOf(r, cfg);
    exists k: nat :: EndsAt(r.terms, o, Start(o, r.peakPrice), s, k)
      && StillRead(m.table, Anchor(r).ms, until, s[k].openMs)
  }

  ghost function CutWalk(r: Row, m: Market, cfg: Config, until: int): Walked
    requires Walks(r)
  {
    WalkOver(r, cfg, Window(m.table, Anchor(r).ms, until, INTRADAY_ROW_CAP, DAILY_ROW_CAP))
  }

  /** The cut-off walk ends, and as the whole one does, exactly when the whole one's end was read. */
  lemma CutWalkEnds(r: Row, m: Market, cfg: Config, until: int)
    requires Good(m) && Walks(r) && FullDays(m.table, Anchor(r).ms, until, DAILY_ROW_CAP)
    ensures WalkTo(r, m, cfg, until).value.Going? ==> CutWalk(r, m, cfg, until).Going?
    ensures !WalkTo(r, m, cfg, until).value.Going? ==>
              (CutWalk(r, m, cfg, until).Going? <==> !EndIsRead(r, m, cfg, until))
    ensures !CutWalk(r, m, cfg, until).Going? ==> CutWalk(r, m, cfg, until) == WalkTo(r, m, cfg, until).value
  {
    hide Window, Slice, Good, Walk, StillRead, EndsAt, FullDays;
    var a, o := Anchor(r).ms, PolicyOf(r, cfg);
    var w, s := Window(m.table, a, until, INTRADAY_ROW_CAP, DAILY_ROW_CAP), Slice(m.table, a, until);
    var start := Start(o, r.peakPrice);
    GoodTable(m);
    WindowIsSlice(m.table, a, until, INTRADAY_ROW_CAP, DAILY_ROW_CAP);
    SliceOrdered(m.table, a, until);
    if !Walk(r.terms, o, start, s).Going? {
      var j := SomewhereEnds(r.terms, o, start, s);
      forall k: nat | EndsAt(r.terms, o, start, s, k) ensures k < |s| {
        EndInBounds(r.terms, o, start, s, k);
      }
      forall k: nat | k < |s| && EndsAt(r.terms, o, start, s, k)
        ensures CutWalk(r, m, cfg, until).Going? <==> !StillRead(m.table, a, until, s[k].openMs)
        ensures !CutWalk(r, m, cfg, until).Going? ==> CutWalk(r, m, cfg, until) == WalkTo(r, m, cfg, until).value
      {
        EndsInPart(r.terms, o, start, w, s, k);
        InFirstPart(w, s, k);
        BarStillRead(m.table, a, until, s[k]);
      }
    } else {
      assert s == w + s[|w|..];
      WalkConcat(r.terms, o, start, w, s[|w|..]);
    }
  }

  lemma EndInBounds(t: Terms, o: Policy, p: Progress, bars: seq<Bar>, k: nat)
    requires Walkable(t) && EndsAt(t, o, p, bars, k)
    ensures k < |bars|
  {
    hide Walk;
  }

  lemma InFirstPart(w: seq<Bar>, s: seq<Bar>, k: nat)
    requires w <= s && Chronological(s) && k < |s|
    ensures s[k] in s && (s[k] in w <==> k < |w|)
  {
    assert k < |w| ==> w[k] == s[k] && w[k] in w;
    if s[k] in w {
      var i :| 0 <= i < |w| && w[i] == s[k];
      assert s[i] == s[k];
    }
  }

  // The fill.

  /** The earliest tradable bar of a sequence. */
  ghost predicate FirstTradable(s: seq<Bar>, from: int, b: Bar) {
    b in s && Tradable(b, from) && forall c :: c in s && Tradable(c, from) ==> b.openMs <= c.openMs
  }

  lemma FillIsIt(s: seq<Bar>, from: int, b: Bar)
    requires Chronological(s)
    ensures FirstTradable(s, from, b) ==> FindFillBar(s, from).Some? && IsFill(FindFillBar(s, from).value, b)
    ensures FindFillBar(s, from).Some? ==> exists c :: FirstTradable(s, from, c)
  {
    FillIsFirstTradable(s, from);
    hide FindFillBar;
    if FindFillBar(s, from).Some? {
      var k :| 0 <= k < |s| && Tradable(s[k], from) && IsFill(FindFillBar(s, from).value, s[k])
        && forall i :: 0 <= i < k ==> !Tradable(s[i], from);
      forall c | c in s && Tradable(c, from) ensures s[k].openMs <= c.openMs {
        var j :| 0 <= j < |s| && s[j] == c;
      }
      assert FirstTradable(s, from, s[k]);
      if FirstTradable(s, from, b) {
        var j :| 0 <= j < |s| && s[j] == b;
        assert b == s[k];
      }
    }
  }

  /** Dropping bars keeps the fill exactly when it keeps the fill's bar. */
  lemma FillKeptIff(w: seq<Bar>, s: seq<Bar>, from: int)
    requires Chronological(w) && Chronological(s) && forall b :: b in w ==> b in s
    ensures FindFillBar(w, from) == FindFillBar(s, from) <==> forall b :: FirstTradable(s, from, b) ==> b in w
    ensures FindFillBar(w, from).Some? && FindFillBar(w, from) != FindFillBar(s, from) ==>
              FindFillBar(s, from).Some? && FindFillBar(s, from).value.openedAt < FindFillBar(w, from).value.openedAt
    ensures FindFillBar(w, from).Some? ==> exists b :: FirstTradable(w, from, b)
  {
    FillIsFirstTradable(w, from);
    hide FindFillBar, Tradable;
    forall b
      ensures FirstTradable(s, from, b) ==> FindFillBar(s, from).Some? && IsFill(FindFillBar(s, from).value, b)
      ensures FirstTradable(w, from, b) ==> FindFillBar(w, from).Some? && IsFill(FindFillBar(w, from).value, b)
    {
      FillIsIt(s, from, b);
      FillIsIt(w, from, b);
    }
    if FindFillBar(s, from).Some? {
      FillIsIt(s, from, Bar(Daily, 0, 0, Ohlc(None, None, None, None)));
      var b :| FirstTradable(s, from, b);
      if b in w {
        assert FirstTradable(w, from, b);
      } else if FindFillBar(w, from).Some? {
        FillIsIt(w, from, b);
        var c :| FirstTradable(w, from, c);
        LaterOne(s, b, c);
      }
      forall c | FirstTradable(s, from, c) ensures c == b {
        if c != b {
          DifferentTimes(s, b, c);
        }
      }
    } else {
      forall b ensures !FirstTradable(s, from, b) {
      }
      assert FindFillBar(w, from).Some? ==> exists b :: b in w && Tradable(b, from) && b in s;
      FillIsFirstTradable(s, from);
    }
    if FindFillBar(w, from).Some? {
      FillIsIt(w, from, Bar(Daily, 0, 0, Ohlc(None, None, None, None)));
    }
  }

  lemma LaterOne(s: seq<Bar>, b: Bar, c: Bar)
    requires Chronological(s) && b in s && c in s && b != c && b.openMs <= c.openMs
    ensures b.openMs < c.openMs
  {
    DifferentTimes(s, b, c);
  }

  lemma DifferentTimes(s: seq<Bar>, b: Bar, c: Bar)
    requires Chronological(s) && b in s && c in s && b != c
    ensures b.openMs != c.openMs
  {
    var i :| 0 <= i < |s| && s[i] == b;
    var j :| 0 <= j < |s| && s[j] == c;
    assert i < j || j < i;
  }

  /** Neither read from `from` was cut off before the bar. */
  ghost predicate WasRead(t: BarTable, from: int, asOf: int, b: Bar) {
    Reaches(t, from, asOf, INTRADAY_ROW_CAP, b) && ReachesDay(t, from, asOf, DAILY_ROW_CAP, b)
  }

  /** The first tradable bar since the hold was over was read. */
  ghost predicate FillIsRead(r: Row, m: Market, cfg: Config, asOf: int) {
    var due := Due(r, m, cfg);
    due.Some? ==> forall b :: FirstTradable(Slice(m.table, due.value, asOf), due.value, b) ==>
      WasRead(m.table, due.value, asOf, b)
  }

  lemma CutFill(r: Row, m: Market, cfg: Config, asOf: int)
    requires Good(m)
    ensures DueFill(r, m, cfg, asOf) == LateFill(r, m, cfg, asOf) <==> FillIsRead(r, m, cfg, asOf)
    ensures DueFill(r, m, cfg, asOf).Some? && DueFill(r, m, cfg, asOf) != LateFill(r, m, cfg, asOf) ==>
              LateFill(r, m, cfg, asOf).Some?
              && LateFill(r, m, cfg, asOf).value.openedAt < DueFill(r, m, cfg, asOf).value.openedAt
    ensures DueFill(r, m, cfg, asOf).Some? ==> DueFill(r, m, cfg, asOf).value.openedAt < asOf
  {
    if Due(r, m, cfg).Some? {
      hide Window, Slice, Good, FindFillBar, Reaches, ReachesDay, Due, AllBars, Tradable;
      var due := Due(r, m, cfg).value;
      var w, s := Window(m.table, due, asOf, INTRADAY_ROW_CAP, DAILY_ROW_CAP), Slice(m.table, due, asOf);
      GoodTable(m);
      WindowOrdered(m.table, due, asOf, INTRADAY_ROW_CAP, DAILY_ROW_CAP);
      SliceOrdered(m.table, due, asOf);
      forall b ensures b in w <==> b in s && WasRead(m.table, due, asOf, b)
               ensures b in w ==> b.openMs < asOf {
        WindowMembersCut(m.table, due, asOf, INTRADAY_ROW_CAP, DAILY_ROW_CAP, b);
        InSlice(m.table, due, asOf, b);
        if b in AllBars(m.table) {
          ApartInTime(m.table, b, b);
        }
      }
      FillKeptIff(w, s, due);
      forall b | FirstTradable(w, due, b)
        ensures FindFillBar(w, due).Some? && FindFillBar(w, due).value.openedAt < asOf
      {
        FillIsIt(w, due, b);
      }
      assert (forall b :: FirstTradable(s, due, b) ==> b in w) <==> FillIsRead(r, m, cfg, asOf);
    }
  }

  /**
   * The walk stops at a suspected split that was not read, and the time exit closes without a price all the
   * same: no bar to fill at was read, the waiting time is over, and there is no usable current price.
   */
  ghost predicate ClosesUnpriced(r: Row, m: Market, cfg: Config, asOf: int) {
    var due := Due(r, m, cfg);
    && (due.Some? ==>
          && asOf - due.value > PENDING_ENTRY_EXPIRY_MS
          && forall b :: b in Slice(m.table, due.value, asOf) && WasRead(m.table, due.value, asOf, b) ==>
               !Tradable(b, due.value))
    && Unsplit(r, cfg, CurrentPrice(m.table, asOf)).None?
  }

  lemma NoFillRead(r: Row, m: Market, cfg: Config, asOf: int)
    requires Good(m) && Due(r, m, cfg).Some?
    ensures DueFill(r, m, cfg, asOf).None? <==>
            var due := Due(r, m, cfg).value;
            forall b :: b in Slice(m.table, due, asOf) && WasRead(m.table, due, asOf, b) ==> !Tradable(b, due)
  {
    hide Window, Slice, Good, FindFillBar, Reaches, ReachesDay, Due, AllBars, Tradable;
    var due := Due(r, m, cfg).value;
    var w := Window(m.table, due, asOf, INTRADAY_ROW_CAP, DAILY_ROW_CAP);
    GoodTable(m);
    FillIsFirstTradable(w, due);
    forall b ensures b in w <==> b in Slice(m.table, due, asOf) && WasRead(m.table, due, asOf, b) {
      WindowMembersCut(m.table, due, asOf, INTRADAY_ROW_CAP, DAILY_ROW_CAP, b);
      InSlice(m.table, due, asOf, b);
    }
  }

  /** In terms of the stored bars: when a check, its reads cut off or not, closes as one that reads everything. */
  ghost predicate ClosesAlike(r: Row, m: Market, cfg: Config, asOf: int) {
    var until := Until(r, m, cfg, asOf);
    if Walks(r) && !WalkTo(r, m, cfg, until).value.Going? then
      EndIsRead(r, m, cfg, until) || (WalkTo(r, m, cfg, until).value.Halted? && ClosesUnpriced(r, m, cfg, asOf))
    else FillIsRead(r, m, cfg, asOf)
  }

  /** Two fills, one found because the other was not read, close differently; the same one alike. */
  lemma FillTells(r: Row, m: Market, cfg: Config, asOf: int, cut: Option<Fill>, whole: Option<Fill>)
    requires cut.Some? && cut != whole ==> whole.Some? && whole.value.openedAt < cut.value.openedAt
    requires whole.Some? ==> Due(r, m, cfg).Some? && whole.value.openedAt < asOf
    ensures TimeClosure(r, m, cfg, asOf, cut) == TimeClosure(r, m, cfg, asOf, whole) <==> cut == whole
  {
    hide Due, CurrentPrice, Unsplit;
  }

  /** A closing by time is that of a suspected split exactly when nothing prices it. */
  lemma UnpricedIff(r: Row, m: Market, cfg: Config, asOf: int, fill: Option<Fill>)
    requires fill.Some? ==> Due(r, m, cfg).Some? && fill.value.openedAt < asOf
    ensures TimeClosure(r, m, cfg, asOf, fill) == Some(Closure(asOf, TimeBased, None)) <==>
            && fill.None? && (Due(r, m, cfg).Some? ==> asOf - Due(r, m, cfg).value > PENDING_ENTRY_EXPIRY_MS)
            && Unsplit(r, cfg, CurrentPrice(m.table, asOf)).None?
  {
    hide Due, CurrentPrice, Unsplit;
  }

  lemma TimeClosesByTime(r: Row, m: Market, cfg: Config, asOf: int, fill: Option<Fill>)
    ensures TimeClosure(r, m, cfg, asOf, fill).Some? ==> TimeClosure(r, m, cfg, asOf, fill).value.reason.TimeBased?
  {
    hide Due, CurrentPrice, Unsplit;
  }

  lemma LateFillIsPast(r: Row, m: Market, cfg: Config, asOf: int)
    requires Good(m)
    ensures LateFill(r, m, cfg, asOf).Some? ==> Due(r, m, cfg).Some? && LateFill(r, m, cfg, asOf).value.openedAt < asOf
  {
    if LateFill(r, m, cfg, asOf).Some? {
      FillOpensOnGrid(r, m, cfg, asOf);
    }
  }

  /** Once the hold is over, a check closes as one that reads everything exactly when what decides was read. */
  lemma CutCheckAgreesIff(r: Row, m: Market, cfg: Config, asOf: int)
    requires Good(m) && Fit(r) && OpenAsOf(r, asOf) && HoldOver(r, m, cfg, asOf)
    requires FullDays(m.table, Anchor(r).ms, Until(r, m, cfg, asOf), DAILY_ROW_CAP)
    ensures Check(r, m, cfg, asOf).closure == LateCheck(r, m, cfg, asOf).closure <==> ClosesAlike(r, m, cfg, asOf)
  {
    hide Check, LateCheck, Good, FullDays, HoldOver, Until, LateFill, DueFill, Due, FillIsRead, TimeClosure, EndIsRead,
         WalkTo, CutWalk,
         OpenAsOf, ClosesUnpriced, CurrentPrice;
    var until := Until(r, m, cfg, asOf);
    var cut, whole := DueFill(r, m, cfg, asOf), LateFill(r, m, cfg, asOf);
    CutFill(r, m, cfg, asOf);
    LateFillIsPast(r, m, cfg, asOf);
    FillTells(r, m, cfg, asOf, cut, whole);
    ClosuresAre(r, m, cfg, asOf);
    if Walks(r) {
      CutWalkEnds(r, m, cfg, until);
      TimeClosesByTime(r, m, cfg, asOf, cut);
      if WalkTo(r, m, cfg, until).value.Exited? {
        ExitIsNoTimeExit(r, m, cfg, until);
      } else if WalkTo(r, m, cfg, until).value.Halted? {
        CutFillNeedsDue(r, m, cfg, asOf);
        UnpricedIff(r, m, cfg, asOf, cut);
        UnpricedMeans(r, m, cfg, asOf);
      }
    }
  }

  lemma CutFillNeedsDue(r: Row, m: Market, cfg: Config, asOf: int)
    ensures DueFill(r, m, cfg, asOf).Some? ==> Due(r, m, cfg).Some?
  {
  }

  lemma UnpricedMeans(r: Row, m: Market, cfg: Config, asOf: int)
    requires Good(m)
    ensures ClosesUnpriced(r, m, cfg, asOf) <==>
            && DueFill(r, m, cfg, asOf).None?
            && (Due(r, m, cfg).Some? ==> asOf - Due(r, m, cfg).value > PENDING_ENTRY_EXPIRY_MS)
            && Unsplit(r, cfg, CurrentPrice(m.table, asOf)).None?
  {
    if Due(r, m, cfg).Some? {
      NoFillRead(r, m, cfg, asOf);
    }
    hide Good, CurrentPrice, Unsplit, Due, Slice, WasRead, Tradable;
  }

  lemma ClosuresAre(r: Row, m: Market, cfg: Config, asOf: int)
    requires Fit(r) && OpenAsOf(r, asOf) && HoldOver(r, m, cfg, asOf)
    ensures var cut, whole := DueFill(r, m, cfg, asOf), LateFill(r, m, cfg, asOf);
            var until := Until(r, m, cfg, asOf);
            var c, l := Check(r, m, cfg, asOf).closure, LateCheck(r, m, cfg, asOf).closure;
            if Walks(r) then
              && WalkTo(r, m, cfg, until).Some?
              && c == AfterHold(r, m, cfg, asOf, CutWalk(r, m, cfg, until), cut)
              && l == AfterHold(r, m, cfg, asOf, WalkTo(r, m, cfg, until).value, whole)
            else c == TimeClosure(r, m, cfg, asOf, cut) && l == TimeClosure(r, m, cfg, asOf, whole)
  {
    SameWalk(r, m, cfg, asOf, asOf);
    hide Check, LateCheck, HoldOver, LateFill, DueFill, TimeClosure, Window, Slice, OpenAsOf, WalkOver, Until;
    if Walks(r) {
      CheckParts(r, m, cfg, asOf);
      LateParts(r, m, cfg, asOf);
    } else {
      UnwalkedParts(r, m, cfg, asOf);
      UnwalkedCheck(r, m, cfg, asOf);
    }
  }

  /** How a walk closes a position whose hold is over. */
  function AfterHold(r: Row, m: Market, cfg: Config, asOf: int, w: Walked, fill: Option<Fill>): Option<Closure> {
    if w.Exited? then Some(Closure(w.exit.closedAt, w.exit.reason, Some(w.exit.exitPrice)))
    else if w.Halted? then Some(Closure(asOf, TimeBased, None))
    else TimeClosure(r, m, cfg, asOf, fill)
  }

  lemma UnwalkedCheck(r: Row, m: Market, cfg: Config, asOf: int)
    requires Fit(r) && OpenAsOf(r, asOf) && !Walks(r) && HoldOver(r, m, cfg, asOf)
    ensures Check(r, m, cfg, asOf).closure == TimeClosure(r, m, cfg, asOf, DueFill(r, m, cfg, asOf))
  {
    hide TimeClosure, DueFill, HoldOver;
  }

  // ---- The example --------------------------------------------------------------------------

  const FLAT := Ohlc(Some(10.0), Some(10.0), Some(10.0), Some(10.0))
  const DIP := Ohlc(Some(10.0), Some(10.0), Some(1.0), Some(10.0))

  const TERMS := Terms(Long, Some(10.0), Some(0.5), None)
  const OFF := Knobs(None, None, None, false, None)
  const ROW := Row(0, TERMS, OFF, At(0), None, None, None, None, None, None)
  const CFG := Config(0.0, false, Some(25))

  /** Flat bars up to the row cap, then one that dips through the stop. */
  function Before(): seq<IntradayRow> {
    seq(INTRADAY_ROW_CAP, i requires 0 <= i < INTRADAY_ROW_CAP => IntradayRow(i * BAR_MS, FLAT))
    + [IntradayRow(INTRADAY_ROW_CAP * BAR_MS, DIP)]
  }

  /** And, once the hold is over, a bar to fill at. */
  function DueRow(): IntradayRow {
    IntradayRow(25 * DAY_MS, FLAT)
  }

  function MARKET(): Market {
    Market(BarTable(Before() + [DueRow()], []), true)
  }

  lemma {:induction false} EveryDayCounts(n: nat)
    ensures HoldDays(0, n, true) == n
  {
    if n > 0 {
      EveryDayCounts(n - 1);
    }
  }

  lemma DueAfterTwentyFive()
    ensures Due(ROW, MARKET(), CFG) == Some(25 * DAY_MS)
    ensures HoldOver(ROW, MARKET(), CFG, 25 * DAY_MS + BAR_MS)
    ensures Until(ROW, MARKET(), CFG, 25 * DAY_MS + BAR_MS) == 25 * DAY_MS
  {
    hide DueDay, HoldDays;
    EveryDayCounts(25);
    EveryDayCounts(24);
    DueIsTheFirstInstant(0, 25, true, 25 * DAY_MS);
    DueIsTheFirstInstant(0, 25, true, 25 * DAY_MS - 1);
  }

  lemma RowsAre(r: IntradayRow)
    ensures r in MARKET().table.intraday <==>
            || (exists i :: 0 <= i < INTRADAY_ROW_CAP && r == IntradayRow(i * BAR_MS, FLAT))
            || r == IntradayRow(INTRADAY_ROW_CAP * BAR_MS, DIP) || r == DueRow()
  {
    var rows := MARKET().table.intraday;
    forall i | 0 <= i < INTRADAY_ROW_CAP ensures IntradayRow(i * BAR_MS, FLAT) in rows {
      assert rows[i] == IntradayRow(i * BAR_MS, FLAT);
    }
    assert rows[INTRADAY_ROW_CAP] == IntradayRow(INTRADAY_ROW_CAP * BAR_MS, DIP);
    assert rows[INTRADAY_ROW_CAP + 1] == DueRow();
  }

  lemma Stamp(i: nat)
    requires i < INTRADAY_ROW_CAP + 2
    ensures |MARKET().table.intraday| == INTRADAY_ROW_CAP + 2
    ensures MARKET().table.intraday[i].ts == if i <= INTRADAY_ROW_CAP then i * BAR_MS else 25 * DAY_MS
  {
  }

  lemma OnTheGrid(i: nat)
    ensures (i * BAR_MS) % BAR_MS == 0 && (i * BAR_MS) % SECOND_MS == 0
  {
    WholeBars(i);
    assert i * BAR_MS == (i * 300) * SECOND_MS;
    WholeSeconds(i * 300);
  }

  lemma WholeBars(i: nat)
    ensures (i * BAR_MS) % BAR_MS == 0
  {
  }

  lemma WholeSeconds(i: nat)
    ensures (i * SECOND_MS) % SECOND_MS == 0
  {
  }

  lemma TableIsValid()
    ensures ValidTable(MARKET().table) && OnGrid(MARKET().table)
  {
    var rows := MARKET().table.intraday;
    Stamp(0);
    hide MARKET, Before, DueRow;
    forall i, j | 0 <= i < j < |rows| ensures rows[i].ts < rows[j].ts {
      Stamp(i);
      Stamp(j);
    }
    forall r | r in rows ensures r.ts % SECOND_MS == 0 && r.ts % BAR_MS == 0 {
      var i :| 0 <= i < |rows| && rows[i] == r;
      Stamp(i);
      OnTheGrid(i);
    }
    NoDaily();
  }

  lemma NoDaily()
    ensures MARKET().table.daily == []
  {
  }

  lemma BeforeSpan()
    ensures |Before()| == INTRADAY_ROW_CAP + 1 && Before()[INTRADAY_ROW_CAP - 1].ts == (INTRADAY_ROW_CAP - 1) * BAR_MS
    ensures forall r :: r in Before() ==> 0 <= r.ts <= INTRADAY_ROW_CAP * BAR_MS
  {
    forall r | r in Before() ensures 0 <= r.ts <= INTRADAY_ROW_CAP * BAR_MS {
      var i :| 0 <= i < |Before()| && Before()[i] == r;
      assert i < INTRADAY_ROW_CAP ==> r.ts == i * BAR_MS;
    }
  }

  /** The read up to the due instant is cut off just before the dip. */
  lemma ReadIsCut()
    ensures var v := VisibleIntraday(MARKET().table, 0, 25 * DAY_MS);
            |v| > INTRADAY_ROW_CAP && v[INTRADAY_ROW_CAP - 1].ts == (INTRADAY_ROW_CAP - 1) * BAR_MS
  {
    hide Before;
    BeforeSpan();
    var p := (r: IntradayRow) => CeilToSecond(0) <= r.ts <= IntradayCutoff(25 * DAY_MS);
    assert CeilToSecond(0) == 0 && IntradayCutoff(25 * DAY_MS) == 25 * DAY_MS - BAR_MS;
    hide CeilToSecond, IntradayCutoff;
    FilterConcat(Before(), [DueRow()], p);
    FilterAll(Before(), p);
    FilterNone([DueRow()], p);
    assert VisibleIntraday(MARKET().table, 0, 25 * DAY_MS) == Filter(MARKET().table.intraday, p) == Before();
  }

  lemma BarsOfTheTable(b: Bar)
    ensures b in AllBars(MARKET().table) <==> exists r :: r in MARKET().table.intraday && b == FromIntraday(r)
  {
    TableIsValid();
    AllBarsAre(MARKET().table, b);
  }

  /**
   * The stop is touched before the position's hold is over, but the check made then, whose read was cut off,
   * closes it by time; a check without the cap would have stopped it out.
   */
  lemma CutReadMissesTheStop()
    ensures var asOf := 25 * DAY_MS + BAR_MS;
            && Fit(ROW) && !Whole(ROW, MARKET(), CFG, asOf)
            && Check(ROW, MARKET(), CFG, asOf).closure.Some?
            && Check(ROW, MARKET(), CFG, asOf).closure.value.reason.TimeBased?
            && LateCheck(ROW, MARKET(), CFG, asOf).closure.Some?
            && LateCheck(ROW, MARKET(), CFG, asOf).closure.value.reason.StopLoss?
  {
    hide Window, AllBars, VisibleIntraday, Check, LateCheck, Before, Walk, BarSequence;
    var asOf, t := 25 * DAY_MS + BAR_MS, MARKET().table;
    DueAfterTwentyFive();
    TableIsValid();
    ReadIsCut();
    ReadPartIsFlat();
    CheckReads(asOf);
    DipIsInTheSpan();
    DueBarFills();
    hide Due, HoldOver, Until, PriceWalk, LateWalk, DueFill, WholeReads;
    CutWalkClosesByTime(ROW, MARKET(), CFG, asOf);
  }

  lemma ReadPartIsFlat()
    requires var v := VisibleIntraday(MARKET().table, 0, 25 * DAY_MS);
             |v| > INTRADAY_ROW_CAP && v[INTRADAY_ROW_CAP - 1].ts == (INTRADAY_ROW_CAP - 1) * BAR_MS
    ensures WalkOver(ROW, CFG, Window(MARKET().table, 0, 25 * DAY_MS, INTRADAY_ROW_CAP, DAILY_ROW_CAP)).Going?
  {
    hide AllBars, VisibleIntraday, Before, BarSequence, Window, Walk, MARKET, TouchesStatic, Suspect, FullDays, StepBar;
    var w := Window(MARKET().table, 0, 25 * DAY_MS, INTRADAY_ROW_CAP, DAILY_ROW_CAP);
    forall b | b in w ensures !TouchesStatic(TERMS, b) && !Suspect(TERMS, PolicyOf(ROW, CFG), b) {
      ReadIsFlat(b);
      FlatTouchesNothing(b);
    }
    GoingIsUntouched(TERMS, PolicyOf(ROW, CFG), Start(PolicyOf(ROW, CFG), None), w);
  }

  /** What the check at the end of the hold reads and walks. */
  lemma CheckReads(asOf: int)
    requires Until(ROW, MARKET(), CFG, asOf) == 25 * DAY_MS
    ensures PriceWalk(ROW, MARKET(), CFG, asOf)
         == Some(WalkOver(ROW, CFG, Window(MARKET().table, 0, 25 * DAY_MS, INTRADAY_ROW_CAP, DAILY_ROW_CAP)))
    ensures |VisibleIntraday(MARKET().table, 0, 25 * DAY_MS)| > INTRADAY_ROW_CAP ==> !Whole(ROW, MARKET(), CFG, asOf)
  {
    hide VisibleIntraday, Until, Due, Window, WalkOver, MARKET, FullDays;
  }

  lemma ReadIsFlat(b: Bar)
    requires var v := VisibleIntraday(MARKET().table, 0, 25 * DAY_MS);
             |v| > INTRADAY_ROW_CAP && v[INTRADAY_ROW_CAP - 1].ts == (INTRADAY_ROW_CAP - 1) * BAR_MS
    requires b in Window(MARKET().table, 0, 25 * DAY_MS, INTRADAY_ROW_CAP, DAILY_ROW_CAP)
    ensures b.px == FLAT
  {
    hide AllBars, VisibleIntraday, Before, BarSequence, Window, MARKET, FullDays;
    TableIsValid();
    NoDays(0, 25 * DAY_MS);
    WindowMembers(MARKET().table, 0, 25 * DAY_MS, INTRADAY_ROW_CAP, DAILY_ROW_CAP, b);
    BarsOfTheTable(b);
    var r :| r in MARKET().table.intraday && b == FromIntraday(r);
    RowsAre(r);
  }

  lemma FlatTouchesNothing(b: Bar)
    requires b.px == FLAT
    ensures !TouchesStatic(TERMS, b) && !Suspect(TERMS, PolicyOf(ROW, CFG), b)
  {
  }

  lemma NoDays(anchor: int, asOf: int)
    ensures FullDays(MARKET().table, anchor, asOf, DAILY_ROW_CAP)
  {
  }

  lemma DipIsInTheSpan()
    ensures Until(ROW, MARKET(), CFG, 25 * DAY_MS + BAR_MS) == 25 * DAY_MS ==>
              LateWalk(ROW, MARKET(), CFG, 25 * DAY_MS + BAR_MS).value.Exited?
              && LateWalk(ROW, MARKET(), CFG, 25 * DAY_MS + BAR_MS).value.exit.reason.StopLoss?
  {
    hide AllBars, Before, BarSequence, Until, Due, Walk;
    var s := Slice(MARKET().table, 0, 25 * DAY_MS);
    var dip := IntradayRow(INTRADAY_ROW_CAP * BAR_MS, DIP);
    RowsAre(dip);
    BarsOfTheTable(FromIntraday(dip));
    assert FromIntraday(dip) in s;
    assert TouchesStatic(TERMS, FromIntraday(dip));
    var o := PolicyOf(ROW, CFG);
    GoingIsUntouched(TERMS, o, Start(o, None), s);
    NeverHalted(TERMS, o, Start(o, None), s);
    OnlyStops(TERMS, o, Start(o, None), s);
  }

  lemma {:induction false} OnlyStops(t: Terms, o: Policy, p: Progress, bars: seq<Bar>)
    requires Walkable(t) && o.trailing.None? && t.takeProfitPct.None?
    ensures Walk(t, o, p, bars).Exited? ==> Walk(t, o, p, bars).exit.reason.StopLoss?
    decreases |bars|
  {
    if bars != [] {
      OnlyStopsBar(t, o, p, bars[0]);
      hide StepBar;
      if StepBar(t, o, p, bars[0]).Going? {
        OnlyStops(t, o, StepBar(t, o, p, bars[0]).p, bars[1..]);
      }
    }
  }

  lemma OnlyStopsBar(t: Terms, o: Policy, p: Progress, b: Bar)
    requires Walkable(t) && o.trailing.None? && t.takeProfitPct.None?
    ensures StepBar(t, o, p, b).Exited? ==> StepBar(t, o, p, b).exit.reason.StopLoss?
  {
    hide SplitOf, BetterPeak, Gross, TargetResolvesFirst, FillAt;
  }

  lemma DueBarFills()
    ensures Due(ROW, MARKET(), CFG) == Some(25 * DAY_MS) ==> DueFill(ROW, MARKET(), CFG, 25 * DAY_MS + BAR_MS).Some?
  {
    hide AllBars, Before, BarSequence, Due, Window, VisibleIntraday;
    var t := MARKET().table;
    var b := FromIntraday(DueRow());
    TableIsValid();
    RowsAre(DueRow());
    BarsOfTheTable(b);
    NoDays(25 * DAY_MS, 25 * DAY_MS + BAR_MS);
    WindowMembers(t, 25 * DAY_MS, 25 * DAY_MS + BAR_MS, INTRADAY_ROW_CAP, DAILY_ROW_CAP, b);
    FewDueRows();
    FillIsFirstTradable(Window(t, 25 * DAY_MS, 25 * DAY_MS + BAR_MS, INTRADAY_ROW_CAP, DAILY_ROW_CAP), 25 * DAY_MS);
    assert Tradable(b, 25 * DAY_MS);
  }

  lemma FewDueRows()
    ensures |VisibleIntraday(MARKET().table, 25 * DAY_MS, 25 * DAY_MS + BAR_MS)| <= 1
  {
    hide Before;
    BeforeSpan();
    var p := (r: IntradayRow) => CeilToSecond(25 * DAY_MS) <= r.ts <= IntradayCutoff(25 * DAY_MS + BAR_MS);
    FilterConcat(Before(), [DueRow()], p);
    FilterNone(Before(), p);
    assert VisibleIntraday(MARKET().table, 25 * DAY_MS, 25 * DAY_MS + BAR_MS) == Filter(MARKET().table.intraday, p);
  }
}
