/**
 * Checking on any schedule gives the answer of one late check: the cursor, the extremes and the best price handed from
 * check to check lose nothing.
 */
module ExitSchedule {
  import opened BarFill
  import opened BarWindow
  import opened Calendar
  import opened Collections
  import opened EntryFill
  import opened ExitCheck
  import opened ExitWalk
  import opened HoldTime

  // ---- Resuming a walk ------------------------------------------------------------------

  /** Every usable price in the bars is positive. */
  predicate PositiveBar(b: Bar) {
    IsFiniteBar(b) ==> b.px.high.value > 0.0 && b.px.low.value > 0.0 && b.px.close.value > 0.0
  }

  ghost predicate PositiveBars(s: seq<Bar>) {
    forall b :: b in s ==> PositiveBar(b)
  }

  /** The best price of a walk is a price, and at least as good as the stored one it started from. */
  predicate PeakOk(t: Terms, o: Policy, stored: Option<real>, p: Progress) {
    && (stored.Some? ==> stored.value > 0.0)
    && (o.trailing.None? ==> p.peak.None?)
    && (o.trailing.Some? && stored.Some? ==> p.peak.Some?)
    && (p.peak.Some? ==> p.peak.value > 0.0)
    && (p.peak.Some? && stored.Some? ==>
          if t.direction.Short? then p.peak.value <= stored.value else p.peak.value >= stored.value)
  }

  function Low(x: Option<real>): real {
    Lesser(OrZero(x), 0.0)
  }

  function High(x: Option<real>): real {
    Greater(OrZero(x), 0.0)
  }

  /** `q` started afresh where `base` stood: together they carry what the unbroken `p` carries. */
  predicate Resumes(base: Progress, q: Progress, p: Progress) {
    && q.peak == p.peak
    && Low(p.mae) == Lesser(Low(base.mae), Low(q.mae)) && (p.mae.Some? <==> base.mae.Some? || q.mae.Some?)
    && High(p.mfe) == Greater(High(base.mfe), High(q.mfe)) && (p.mfe.Some? <==> base.mfe.Some? || q.mfe.Some?)
    && p.lastBarAvailableAt == (if q.lastBarAvailableAt.Some? then q.lastBarAvailableAt else base.lastBarAvailableAt)
    && p.lastClose == (if q.lastClose.Some? then q.lastClose else base.lastClose)
  }

  /** The two walks end alike: same exit, same split, and progresses that fit together. */
  predicate EndAlike(base: Progress, q: Walked, p: Walked) {
    && Resumes(base, q.p, p.p)
    && (q.Going? <==> p.Going?)
    && (q.Exited? <==> p.Exited?) && (q.Exited? ==> q.exit == p.exit)
    && (q.Halted? <==> p.Halted?)
  }

  lemma ResumedBar(t: Terms, o: Policy, base: Progress, q: Progress, p: Progress, b: Bar)
    requires Walkable(t) && IsFiniteBar(b) && Resumes(base, q, p)
    ensures Resumes(base, AfterBar(t, o, q, b), AfterBar(t, o, p, b))
  {
  }

  /** Capping at the fill, from zero or from what was seen before, agrees too. */
  lemma ResumedFill(base: Progress, q: Progress, p: Progress, atFill: real)
    requires Resumes(base, q, p)
    ensures Low(Some(Least(Some(OrZero(p.mae)), atFill))) ==
              Lesser(Low(base.mae), Low(Some(Least(Some(OrZero(q.mae)), atFill))))
    ensures High(Some(Most(Some(OrZero(p.mfe)), atFill))) ==
              Greater(High(base.mfe), High(Some(Most(Some(OrZero(q.mfe)), atFill))))
  {
  }

  lemma ResumedStep(t: Terms, o: Policy, base: Progress, q: Progress, p: Progress, b: Bar)
    requires Walkable(t) && Resumes(base, q, p)
    ensures EndAlike(base, StepBar(t, o, q, b), StepBar(t, o, p, b))
  {
    if IsFiniteBar(b) {
      ResumedBar(t, o, base, q, p, b);
      hide StopHit, TargetHit, StopRule, TargetLevel, SplitOf, Gross, Ambiguous, FillAt, AfterBar, Low, High, Least,
           Most, OrZero, IsFiniteBar;
      if SplitOf(t, o, b).None? {
        if StopHit(t, o, p.peak, b) {
          ResumedFill(base, q, p, Gross(t, StepBar(t, o, p, b).exit.exitPrice));
        } else if TargetHit(t, o, p.peak, b) {
          ResumedFill(base, q, p, Gross(t, StepBar(t, o, p, b).exit.exitPrice));
        }
      }
    }
  }

  lemma {:induction false} ResumedWalk(t: Terms, o: Policy, base: Progress, q: Progress, p: Progress, bars: seq<Bar>)
    requires Walkable(t) && Resumes(base, q, p)
    ensures EndAlike(base, Walk(t, o, q, bars), Walk(t, o, p, bars))
    decreases |bars|
  {
    if bars != [] {
      ResumedStep(t, o, base, q, p, bars[0]);
      hide StepBar, Resumes;
      var wq, wp := StepBar(t, o, q, bars[0]), StepBar(t, o, p, bars[0]);
      if wq.Going? {
        ResumedWalk(t, o, base, wq.p, wp.p, bars[1..]);
      }
    }
  }

  /** What every walk over positive prices keeps. */
  predicate Sound(t: Terms, o: Policy, stored: Option<real>, p: Progress) {
    && PeakOk(t, o, stored, p)
    && (p.mae.Some? <==> p.mfe.Some?)
    && (p.lastClose.Some? ==> p.lastClose.value > 0.0 && p.lastBarAvailableAt.Some?)
  }

  predicate SoundRow(r: Row) {
    r.peakPrice.Some? ==> r.peakPrice.value > 0.0
  }

  lemma SoundStep(t: Terms, o: Policy, stored: Option<real>, p: Progress, b: Bar)
    requires Walkable(t) && Sound(t, o, stored, p) && PositiveBar(b)
    ensures Sound(t, o, stored, StepBar(t, o, p, b).p)
  {
    if IsFiniteBar(b) {
      assert Sound(t, o, stored, AfterBar(t, o, p, b));
      hide StopHit, TargetHit, StopRule, TargetLevel, SplitOf, Ambiguous, FillAt, AfterBar, Low, High, Least, Most,
           OrZero;
    }
  }

  lemma {:induction false} SoundWalk(t: Terms, o: Policy, stored: Option<real>, p: Progress, bars: seq<Bar>)
    requires Walkable(t) && Sound(t, o, stored, p) && PositiveBars(bars)
    ensures Sound(t, o, stored, Walk(t, o, p, bars).p)
    decreases |bars|
  {
    if bars != [] {
      assert bars[0] in bars && forall b :: b in bars[1..] ==> b in bars;
      SoundStep(t, o, stored, p, bars[0]);
      hide StepBar, Sound, PositiveBar;
      SoundWalk(t, o, stored, StepBar(t, o, p, bars[0]).p, bars[1..]);
    }
  }

  /** A walk that finds no exit has walked some first part of its bars to the end. */
  lemma {:induction false} WalkedPart(t: Terms, o: Policy, p: Progress, bars: seq<Bar>) returns (k: nat)
    requires Walkable(t) && !Walk(t, o, p, bars).Exited?
    ensures k <= |bars| && Walk(t, o, p, bars[..k]) == Going(Walk(t, o, p, bars).p)
    ensures Walk(t, o, p, bars).Going? ==> k == |bars|
    ensures k == 0 ==> Walk(t, o, p, bars).p == p
    ensures k > 0 ==> Walk(t, o, p, bars).p.lastBarAvailableAt == Some(bars[k - 1].availableAt)
    decreases |bars|
  {
    StepMarksTheBar(t, o, p, if bars == [] then Bar(Daily, 0, 0, Ohlc(None, None, None, None)) else bars[0]);
    hide StepBar;
    if bars == [] {
      k := 0;
    } else {
      var w := StepBar(t, o, p, bars[0]);
      if w.Going? {
        var j := WalkedPart(t, o, w.p, bars[1..]);
        k := j + 1;
        assert bars[..k][0] == bars[0] && bars[..k][1..] == bars[1..][..j];
      } else {
        k := 0;
        assert bars[..0] == [];
      }
    }
  }

  lemma StepMarksTheBar(t: Terms, o: Policy, p: Progress, b: Bar)
    requires Walkable(t)
    ensures StepBar(t, o, p, b).Going? ==> StepBar(t, o, p, b).p.lastBarAvailableAt == Some(b.availableAt)
    ensures StepBar(t, o, p, b).Halted? ==> StepBar(t, o, p, b).p == p
  {
    hide StopHit, TargetHit, StopRule, TargetLevel, SplitOf, Ambiguous, FillAt, Low, High, Least, Most, OrZero, Gross;
  }

  // ---- Handing a row on ---------------------------------------------------------------------

  /** The row after a check that found nothing: extremes recorded, cursor, mark and best price moved. */
  function Carry(r: Row, p: Progress): Row {
    Moved(Recorded(r, Some(Going(p))), Some(Going(p)))
  }

  /** The progress is ahead of the row's cursor. */
  predicate Ahead(r: Row, p: Progress) {
    p.lastBarAvailableAt.Some? && (r.lastCheckedAt.Some? ==> r.lastCheckedAt.value < p.lastBarAvailableAt.value)
  }

  /** What the next check starts from resumes what this one reached. */
  lemma HandOff(r: Row, cfg: Config, p: Progress)
    requires r.closure.None? && SoundRow(r) && Ahead(r, p) && Sound(r.terms, PolicyOf(r, cfg), r.peakPrice, p)
    ensures SoundRow(Carry(r, p)) && Carry(r, p).closure.None? && Carry(r, p).lastCheckedAt == p.lastBarAvailableAt
    ensures PolicyOf(Carry(r, p), cfg) == PolicyOf(r, cfg) && Carry(r, p).terms == r.terms
            && Carry(r, p).openedAt == r.openedAt
    ensures Resumes(p, Start(PolicyOf(r, cfg), Carry(r, p).peakPrice), p)
    ensures Sound(r.terms, PolicyOf(r, cfg), Carry(r, p).peakPrice, Start(PolicyOf(r, cfg), Carry(r, p).peakPrice))
  {
    hide ResolveTrailingConfig;
  }

  lemma Fresh(r: Row, cfg: Config)
    requires SoundRow(r)
    ensures Sound(r.terms, PolicyOf(r, cfg), r.peakPrice, Start(PolicyOf(r, cfg), r.peakPrice))
  {
    hide ResolveTrailingConfig;
  }

  /** Two rows say the same: same closing and extremes, and, while open, the same row. */
  predicate SameOutcome(a: Row, b: Row) {
    && a.closure == b.closure && a.maePct == b.maePct && a.mfePct == b.mfePct
    && (a.closure.None? ==> a == b)
  }

  lemma CarriedExcursion(r: Row, p: Progress, q: Progress, whole: Progress)
    requires r.closure.None? && Resumes(p, q, whole)
    requires (p.mae.Some? <==> p.mfe.Some?) && (q.mae.Some? <==> q.mfe.Some?)
    ensures var a, b := Recorded(Carry(r, p), Some(Going(q))), Recorded(r, Some(Going(whole)));
            a.maePct == b.maePct && a.mfePct == b.mfePct
  {
  }

  lemma CarriedCursor(r: Row, o: Policy, p: Progress, q: Progress, whole: Progress)
    requires r.closure.None? && SoundRow(r) && Ahead(r, p) && Ahead(r, whole) && Resumes(p, q, whole)
    requires q.lastBarAvailableAt.Some? ==> Ahead(Carry(r, p), q)
    requires Sound(r.terms, o, r.peakPrice, p) && Sound(r.terms, o, r.peakPrice, whole)
             && Sound(r.terms, o, Carry(r, p).peakPrice, q)
    requires q.lastBarAvailableAt.None? ==> whole == p
    ensures Carry(Carry(r, p), q).lastCheckedAt == Carry(r, whole).lastCheckedAt
    ensures Carry(Carry(r, p), q).lastPrice == Carry(r, whole).lastPrice
    ensures Carry(Carry(r, p), q).peakPrice == Carry(r, whole).peakPrice
  {
    hide Low, High;
  }

  lemma SettleAgrees(r: Row, m: Market, cfg: Config, asOf: int, p: Progress, wq: Walked, wp: Walked, fill: Option<Fill>)
    requires r.closure.None? && SoundRow(r) && Ahead(r, p) && Ahead(r, wp.p) && EndAlike(p, wq, wp)
    requires wq.p.lastBarAvailableAt.Some? ==> Ahead(Carry(r, p), wq.p)
    requires wq.p.lastBarAvailableAt.None? ==> wp.p == p
    requires Sound(r.terms, PolicyOf(r, cfg), r.peakPrice, p) && Sound(r.terms, PolicyOf(r, cfg), r.peakPrice, wp.p)
    requires Sound(r.terms, PolicyOf(r, cfg), Carry(r, p).peakPrice, wq.p)
    ensures SameOutcome(Settle(Carry(r, p), m, cfg, asOf, Some(wq), fill), Settle(r, m, cfg, asOf, Some(wp), fill))
  {
    CarriedExcursion(r, p, wq.p, wp.p);
    CarriedCursor(r, PolicyOf(r, cfg), p, wq.p, wp.p);
    SettleParts(r, m, cfg, asOf, wp, fill);
    SettleParts(Carry(r, p), m, cfg, asOf, wq, fill);
    CarryKeeps(r, p);
    CarryKeeps(r, wp.p);
    CarryKeeps(Carry(r, p), wq.p);
    SameRules(r, Carry(r, p), m, cfg, asOf, fill);
    hide Carry, Settle, Recorded, Sound, Resumes, Ahead, TimeClosure, HoldOver;
  }

  /** What a check leaves: its closing, if any, on top of the recorded extremes; else the carried row. */
  lemma SettleParts(r: Row, m: Market, cfg: Config, asOf: int, w: Walked, fill: Option<Fill>)
    requires r.closure.None?
    ensures var s := Settle(r, m, cfg, asOf, Some(w), fill);
            && s.closure == ClosureOf(r, m, cfg, asOf, w, fill)
            && s.maePct == Recorded(r, Some(Going(w.p))).maePct && s.mfePct == Recorded(r, Some(Going(w.p))).mfePct
            && (s.closure.None? ==> s == Carry(r, w.p))
  {
    hide TimeClosure, HoldOver, Low, High;
  }

  function ClosureOf(r: Row, m: Market, cfg: Config, asOf: int, w: Walked, fill: Option<Fill>): Option<Closure> {
    if w.Exited? then Some(Closure(w.exit.closedAt, w.exit.reason, Some(w.exit.exitPrice)))
    else if !HoldOver(r, m, cfg, asOf) then None
    else if w.Halted? then Some(Closure(asOf, TimeBased, None))
    else TimeClosure(r, m, cfg, asOf, fill)
  }

  lemma CarryKeeps(r: Row, p: Progress)
    requires r.closure.None?
    ensures var s := Carry(r, p);
            && s.ticker == r.ticker && s.terms == r.terms && s.knobs == r.knobs && s.openedAt == r.openedAt
            && s.closure.None?
            && s.maePct == Recorded(r, Some(Going(p))).maePct && s.mfePct == Recorded(r, Some(Going(p))).mfePct
  {
  }

  lemma SameRules(r: Row, s: Row, m: Market, cfg: Config, asOf: int, fill: Option<Fill>)
    requires s.terms == r.terms && s.openedAt == r.openedAt
    ensures HoldOver(s, m, cfg, asOf) == HoldOver(r, m, cfg, asOf) && Due(s, m, cfg) == Due(r, m, cfg)
    ensures Until(s, m, cfg, asOf) == Until(r, m, cfg, asOf)
    ensures TimeClosure(s, m, cfg, asOf, fill) == TimeClosure(r, m, cfg, asOf, fill)
  {
    hide TimeExitDue, HoldDays, CurrentPrice, DetectSplitJump;
  }

  // ---- One late check -------------------------------------------------------------------------

  ghost predicate Good(m: Market) {
    ValidTable(m.table) && OnGrid(m.table) && PositiveBars(AllBars(m.table))
  }

  ghost function LateWalk(r: Row, m: Market, cfg: Config, asOf: int): Option<Walked> {
    if Walks(r) then Some(WalkOver(r, cfg, Slice(m.table, Anchor(r).ms, Until(r, m, cfg, asOf)))) else None
  }

  ghost function LateFill(r: Row, m: Market, cfg: Config, asOf: int): Option<Fill> {
    if Due(r, m, cfg).Some? then FindFillBar(Slice(m.table, Due(r, m, cfg).value, asOf), Due(r, m, cfg).value) else None
  }

  /** One check at `asOf` that reads everything since the row's cursor, without row caps. */
  ghost function LateCheck(r: Row, m: Market, cfg: Config, asOf: int): Row {
    if OpenAsOf(r, asOf) then Settle(r, m, cfg, asOf, LateWalk(r, m, cfg, asOf), LateFill(r, m, cfg, asOf)) else r
  }

  lemma PositiveSlice(m: Market, anchor: int, asOf: int)
    requires Good(m)
    ensures PositiveBars(Slice(m.table, anchor, asOf))
  {
    hide AllBars, PositiveBar;
  }

  /**
   * A row handed on after walking some first part of its bars gives, at any later time, what the row itself would have
   * given then.
   */
  lemma CarriedRowAgrees(r: Row, m: Market, cfg: Config, asOf: int, u: int, done: seq<Bar>, p: Progress)
    requires Good(m) && SoundRow(r) && r.closure.None? && Walks(r) && OpenAsOf(r, asOf)
    requires u <= Until(r, m, cfg, asOf) && done != [] && done <= Slice(m.table, Anchor(r).ms, u)
    requires WalkOver(r, cfg, done) == Going(p)
    ensures SameOutcome(LateCheck(Carry(r, p), m, cfg, asOf), LateCheck(r, m, cfg, asOf))
    ensures OpenAsOf(Carry(r, p), asOf) && SoundRow(Carry(r, p)) && Carry(r, p).closure.None?
    ensures Walks(Carry(r, p)) && Anchor(Carry(r, p)).ms >= Anchor(r).ms
  {
    hide Slice, Settle, StepBar, Sound, Until, Carry, Resumes, Recorded, Ahead, SameOutcome, PositiveBars, Good,
         SoundRow;
    var t, o, a, until := r.terms, PolicyOf(r, cfg), Anchor(r).ms, Until(r, m, cfg, asOf);
    var cursor := done[|done| - 1].availableAt;
    var rest := Slice(m.table, cursor, until);
    var s := Carry(r, p);
    GoodSplit(m, a, u, until, done);
    var start := Start(o, r.peakPrice);
    WalkConcat(t, o, start, done, rest);
    var k := WalkedPart(t, o, start, done);
    Fresh(r, cfg);
    SoundWalk(t, o, r.peakPrice, start, done);
    AheadOf(r, p, a);
    HandOff(r, cfg, p);
    var again := Start(o, s.peakPrice);
    ResumedWalk(t, o, p, again, p, rest);
    var wq, wp := Walk(t, o, again, rest), Walk(t, o, p, rest);
    SoundWalk(t, o, r.peakPrice, p, rest);
    SoundWalk(t, o, s.peakPrice, again, rest);
    LaterProgress(t, o, p, again, rest, cursor, s);
    AheadStays(r, p, wp.p);
    SettleAgrees(r, m, cfg, asOf, p, wq, wp, LateFill(r, m, cfg, asOf));
    SameRules(r, s, m, cfg, asOf, None);
    assert WalkOver(r, cfg, done + rest) == wp;
    assert WalkOver(s, cfg, rest) == wq;
  }

  /** And its walk up to any later instant ends as the row's own does. */
  lemma CarriedWalkEnds(r: Row, m: Market, cfg: Config, target: int, u: int, done: seq<Bar>, p: Progress)
    requires Good(m) && SoundRow(r) && r.closure.None? && Walks(r)
    requires u <= target && done != [] && done <= Slice(m.table, Anchor(r).ms, u)
    requires WalkOver(r, cfg, done) == Going(p)
    ensures Walks(Carry(r, p))
    ensures EndAlike(p, WalkOver(Carry(r, p), cfg, Slice(m.table, Anchor(Carry(r, p)).ms, target)),
                     WalkOver(r, cfg, Slice(m.table, Anchor(r).ms, target)))
  {
    hide Slice, Settle, StepBar, Sound, Carry, Resumes, Recorded, Ahead, PositiveBars, Good, SoundRow;
    var t, o, a := r.terms, PolicyOf(r, cfg), Anchor(r).ms;
    var cursor := done[|done| - 1].availableAt;
    var rest := Slice(m.table, cursor, target);
    var start := Start(o, r.peakPrice);
    GoodSplit(m, a, u, target, done);
    WalkConcat(t, o, start, done, rest);
    var k := WalkedPart(t, o, start, done);
    Fresh(r, cfg);
    SoundWalk(t, o, r.peakPrice, start, done);
    AheadOf(r, p, a);
    HandOff(r, cfg, p);
    ResumedWalk(t, o, p, Start(o, Carry(r, p).peakPrice), p, rest);
    assert WalkOver(r, cfg, done + rest) == Walk(t, o, p, rest);
    assert WalkOver(Carry(r, p), cfg, rest) == Walk(t, o, Start(o, Carry(r, p).peakPrice), rest);
  }

  lemma GoodSplit(m: Market, anchor: int, u: int, until: int, done: seq<Bar>)
    requires Good(m) && u <= until && done != [] && done <= Slice(m.table, anchor, u)
    ensures Slice(m.table, anchor, until) == done + Slice(m.table, done[|done| - 1].availableAt, until)
    ensures PositiveBars(done) && PositiveBars(Slice(m.table, done[|done| - 1].availableAt, until))
    ensures anchor < done[|done| - 1].availableAt
    ensures forall b :: b in Slice(m.table, done[|done| - 1].availableAt, until) ==>
              done[|done| - 1].availableAt < b.availableAt
  {
    SplitAtCursor(m.table, anchor, u, until, done);
    PositiveSlice(m, anchor, until);
    PositiveSlice(m, done[|done| - 1].availableAt, until);
    hide AllBars, PositiveBar;
    var last := done[|done| - 1];
    assert last in Slice(m.table, anchor, u);
    ApartInTime(m.table, last, last);
    forall b | b in Slice(m.table, last.availableAt, until) ensures last.availableAt < b.availableAt {
      ApartInTime(m.table, b, b);
    }
    assert forall b :: b in done ==> b in Slice(m.table, anchor, until);
  }

  lemma AheadOf(r: Row, p: Progress, anchor: int)
    requires Anchor(r) == At(anchor) && p.lastBarAvailableAt.Some? && p.lastBarAvailableAt.value > anchor
    ensures Ahead(r, p)
  {
  }

  lemma AheadStays(r: Row, p: Progress, q: Progress)
    requires Ahead(r, p) && q.lastBarAvailableAt.Some? && q.lastBarAvailableAt.value >= p.lastBarAvailableAt.value
    ensures Ahead(r, q)
  {
  }

  /** Walking on from the cursor moves it forward, or walks nothing. */
  lemma {:induction false} LaterProgress(t: Terms, o: Policy, p: Progress, again: Progress, rest: seq<Bar>, cursor: int,
                                         s: Row)
    requires Walkable(t) && p.lastBarAvailableAt == Some(cursor) && again.lastBarAvailableAt.None?
             && Resumes(p, again, p)
    requires forall b :: b in rest ==> cursor < b.availableAt
    requires s.lastCheckedAt == Some(cursor)
    ensures var wq, wp := Walk(t, o, again, rest), Walk(t, o, p, rest);
            && (wq.p.lastBarAvailableAt.Some? ==> Ahead(s, wq.p))
            && (wq.p.lastBarAvailableAt.None? ==> wp.p == p)
            && wp.p.lastBarAvailableAt.Some? && wp.p.lastBarAvailableAt.value >= cursor
  {
    ResumedWalk(t, o, p, again, p, rest);
    MarkComesFromBars(t, o, p, rest);
    MarkComesFromBars(t, o, again, rest);
    hide StepBar;
  }

  lemma {:induction false} MarkComesFromBars(t: Terms, o: Policy, p: Progress, bars: seq<Bar>)
    requires Walkable(t)
    ensures var q := Walk(t, o, p, bars).p;
            q == p || exists b :: b in bars && q.lastBarAvailableAt == Some(b.availableAt)
    decreases |bars|
  {
    if bars != [] {
      var w := StepBar(t, o, p, bars[0]);
      StepMarks(t, o, p, bars[0]);
      hide StepBar;
      assert bars[0] in bars && forall b :: b in bars[1..] ==> b in bars;
      if w.Going? {
        MarkComesFromBars(t, o, w.p, bars[1..]);
      }
    }
  }

  lemma StepMarks(t: Terms, o: Policy, p: Progress, b: Bar)
    requires Walkable(t)
    ensures StepBar(t, o, p, b).p == p || StepBar(t, o, p, b).p.lastBarAvailableAt == Some(b.availableAt)
  {
    hide StopHit, TargetHit, StopRule, TargetLevel, SplitOf, Ambiguous, FillAt, Low, High, Least, Most, OrZero, Gross;
  }

  // ---- Any schedule -----------------------------------------------------------------------------

  /** The first instant at which the hold rule holds. */
  function RuleStart(r: Row, m: Market, cfg: Config): int
    requires r.openedAt.At? && cfg.maxHoldDays.Some?
  {
    HoldStart(r.openedAt.ms, cfg.maxHoldDays.value, m.sevenDay)
  }

  /** The walk over everything up to the hold rule's start. */
  ghost function WalkTo(r: Row, m: Market, cfg: Config, until: int): Option<Walked> {
    if Walks(r) then Some(WalkOver(r, cfg, Slice(m.table, Anchor(r).ms, until))) else None
  }

  /** A bar to fill a due time exit at closes within the waiting time. */
  ghost predicate FillsInTime(m: Market, due: int) {
    FindFillBar(Slice(m.table, due, due + PENDING_ENTRY_EXPIRY_MS), due).Some?
  }

  /**
   * The time of the check that closes does not show: the hold rule does not hold before the last check, or the
   * price exit comes first, or no suspected split stops the walk and the due exit fills in time (or only the
   * last check itself comes after the waiting time).
   */
  ghost predicate Timely(r: Row, m: Market, cfg: Config, asOf: int) {
    HoldOver(r, m, cfg, asOf) ==>
      var start := RuleStart(r, m, cfg);
      var w := WalkTo(r, m, cfg, start);
      || asOf <= start
      || (w.Some? && w.value.Exited?)
      || (&& Due(r, m, cfg).Some? && !(w.Some? && w.value.Halted?)
          && (asOf - start <= PENDING_ENTRY_EXPIRY_MS + 1 || FillsInTime(m, start)))
  }

  /** The rows this is about: open, dated, and with a usable best price. */
  predicate Fit(r: Row) {
    r.closure.None? && r.openedAt.At? && SoundRow(r)
  }

  /** Where the hold rule starts, and where the price walk stops. */
  lemma RuleStarts(r: Row, m: Market, cfg: Config, asOf: int)
    requires r.openedAt.At? && cfg.maxHoldDays.Some? && r.openedAt.ms <= asOf
    ensures RuleStart(r, m, cfg) >= r.openedAt.ms
    ensures HoldOver(r, m, cfg, asOf) <==> asOf >= RuleStart(r, m, cfg)
    ensures Due(r, m, cfg).Some? ==> Due(r, m, cfg).value == RuleStart(r, m, cfg) && RuleStart(r, m, cfg) % DAY_MS == 0
    ensures Due(r, m, cfg).None? ==> Until(r, m, cfg, asOf) == asOf
  {
    hide HoldStart, HoldDays;
    HoldStartIsFirst(r.openedAt.ms, cfg.maxHoldDays.value, m.sevenDay, asOf);
  }

  lemma DueOrNot(r: Row, m: Market, cfg: Config, now: int, asOf: int)
    requires r.openedAt.At? && r.openedAt.ms <= now <= asOf
    ensures !HoldOver(r, m, cfg, now) ==> Until(r, m, cfg, now) == now <= Until(r, m, cfg, asOf)
    ensures !HoldOver(r, m, cfg, now) && cfg.maxHoldDays.Some? ==> now < RuleStart(r, m, cfg)
    ensures HoldOver(r, m, cfg, now) ==> HoldOver(r, m, cfg, asOf) && RuleStart(r, m, cfg) <= Until(r, m, cfg, now)
    ensures Until(r, m, cfg, now) <= Until(r, m, cfg, asOf) && Until(r, m, cfg, now) <= now
    ensures HoldOver(r, m, cfg, now) && Due(r, m, cfg).Some? ==>
              Until(r, m, cfg, now) == Until(r, m, cfg, asOf) == Due(r, m, cfg).value == RuleStart(r, m, cfg)
  {
    if cfg.maxHoldDays.Some? {
      RuleStarts(r, m, cfg, now);
      RuleStarts(r, m, cfg, asOf);
    }
    hide TimeExitDue, HoldStart, HoldDays;
  }

  lemma {:induction false} ClosedLate(r: Row, m: Market, cfg: Config, asOf: int)
    requires r.closure.Some?
    ensures LateCheck(r, m, cfg, asOf) == r
  {
    hide LateWalk, LateFill, TimeClosure, HoldOver;
  }

  /** What carries over from one check to the next. */
  ghost predicate Continues(r: Row, s: Row, m: Market, cfg: Config, asOf: int)
    requires Anchor(r).At?
  {
    && SameOutcome(LateCheck(s, m, cfg, asOf), LateCheck(r, m, cfg, asOf))
    && (s.closure.None? ==>
          && Fit(s) && OpenAsOf(s, asOf) && Anchor(s).ms >= Anchor(r).ms
          && s.terms == r.terms && s.knobs == r.knobs && s.openedAt == r.openedAt
          && (Timely(r, m, cfg, asOf) ==> Timely(s, m, cfg, asOf)))
  }

  lemma CarriedContinues(r: Row, m: Market, cfg: Config, asOf: int, u: int, done: seq<Bar>, p: Progress)
    requires Good(m) && Fit(r) && Walks(r) && OpenAsOf(r, asOf)
    requires u <= Until(r, m, cfg, asOf) && (HoldOver(r, m, cfg, asOf) ==> u <= RuleStart(r, m, cfg))
    requires done != [] && done <= Slice(m.table, Anchor(r).ms, u)
    requires WalkOver(r, cfg, done) == Going(p)
    ensures Continues(r, Carry(r, p), m, cfg, asOf)
  {
    CarriedRowAgrees(r, m, cfg, asOf, u, done, p);
    if HoldOver(r, m, cfg, asOf) {
      CarriedWalkEnds(r, m, cfg, RuleStart(r, m, cfg), u, done, p);
    }
    CarryKeeps(r, p);
    SameRules(r, Carry(r, p), m, cfg, asOf, None);
    hide Carry, LateCheck, WalkOver, Good, SameOutcome, Resumes, Slice;
  }

  lemma StaysPut(r: Row, m: Market, cfg: Config, asOf: int)
    requires Fit(r) && OpenAsOf(r, asOf)
    ensures Continues(r, r, m, cfg, asOf)
  {
    hide LateCheck, Timely;
  }

  lemma CheckParts(r: Row, m: Market, cfg: Config, asOf: int)
    requires r.closure.None? && OpenAsOf(r, asOf) && Walks(r)
    ensures var w, fill := PriceWalk(r, m, cfg, asOf).value, DueFill(r, m, cfg, asOf);
            var s := Check(r, m, cfg, asOf);
            && s.closure == ClosureOf(r, m, cfg, asOf, w, fill)
            && s.maePct == Recorded(r, Some(Going(w.p))).maePct && s.mfePct == Recorded(r, Some(Going(w.p))).mfePct
            && (s.closure.None? ==> s == Carry(r, w.p))
  {
    SettleParts(r, m, cfg, asOf, PriceWalk(r, m, cfg, asOf).value, DueFill(r, m, cfg, asOf));
    hide Settle, ClosureOf, Recorded, Carry, PriceWalk, DueFill;
  }

  lemma LateParts(r: Row, m: Market, cfg: Config, asOf: int)
    requires r.closure.None? && OpenAsOf(r, asOf) && Walks(r)
    ensures var w, fill := LateWalk(r, m, cfg, asOf).value, LateFill(r, m, cfg, asOf);
            var s := LateCheck(r, m, cfg, asOf);
            && s.closure == ClosureOf(r, m, cfg, asOf, w, fill)
            && s.maePct == Recorded(r, Some(Going(w.p))).maePct && s.mfePct == Recorded(r, Some(Going(w.p))).mfePct
  {
    SettleParts(r, m, cfg, asOf, LateWalk(r, m, cfg, asOf).value, LateFill(r, m, cfg, asOf));
    hide Settle, ClosureOf, Recorded, Carry, LateWalk, LateFill;
  }

  /** A row whose walk, over any first part of its bars, ended without an exit is carried, or unchanged. */
  lemma PartContinues(r: Row, m: Market, cfg: Config, asOf: int, u: int, bars: seq<Bar>)
    requires Good(m) && Fit(r) && Walks(r) && OpenAsOf(r, asOf)
    requires u <= Until(r, m, cfg, asOf) && (HoldOver(r, m, cfg, asOf) ==> u <= RuleStart(r, m, cfg))
    requires bars <= Slice(m.table, Anchor(r).ms, u)
    requires !WalkOver(r, cfg, bars).Exited?
    ensures Continues(r, Carry(r, WalkOver(r, cfg, bars).p), m, cfg, asOf)
  {
    var p := WalkOver(r, cfg, bars).p;
    var k := WalkedPart(r.terms, PolicyOf(r, cfg), Start(PolicyOf(r, cfg), r.peakPrice), bars);
    if k == 0 {
      assert Carry(r, p) == r;
      StaysPut(r, m, cfg, asOf);
    } else {
      hide Continues, Slice, Carry, Until, Good, HoldOver, RuleStart;
      assert bars[..k] <= Slice(m.table, Anchor(r).ms, u);
      CarriedContinues(r, m, cfg, asOf, u, bars[..k], p);
    }
  }

  /** A price exit found early is the one found late. */
  lemma EarlyExit(r: Row, m: Market, cfg: Config, now: int, asOf: int, bars: seq<Bar>)
    requires Good(m) && Fit(r) && Walks(r) && OpenAsOf(r, now) && now <= asOf
             && Until(r, m, cfg, now) <= Until(r, m, cfg, asOf)
    requires bars <= Slice(m.table, Anchor(r).ms, Until(r, m, cfg, now))
    requires WalkOver(r, cfg, bars).Exited? && PriceWalk(r, m, cfg, now) == Some(WalkOver(r, cfg, bars))
    ensures Continues(r, Check(r, m, cfg, now), m, cfg, asOf)
  {
    hide Slice, Check, LateCheck, Recorded, Until, Good, PriceWalk;
    SlicesGrow(m.table, Anchor(r).ms, Until(r, m, cfg, now), Until(r, m, cfg, asOf)) by {
      assert ValidTable(m.table) && OnGrid(m.table) by {
        GoodTable(m);
      }
    }
    var whole := Slice(m.table, Anchor(r).ms, Until(r, m, cfg, asOf));
    assert whole == bars + whole[|bars|..];
    WalkConcat(r.terms, PolicyOf(r, cfg), Start(PolicyOf(r, cfg), r.peakPrice), bars, whole[|bars|..]);
    CheckParts(r, m, cfg, now);
    LateParts(r, m, cfg, asOf);
    ClosedLate(Check(r, m, cfg, now), m, cfg, asOf);
  }

  lemma GoodTable(m: Market)
    requires Good(m)
    ensures ValidTable(m.table) && OnGrid(m.table)
  {
  }

  /**
   * A check before the time exit is due, even one whose read was cut off, changes nothing of what a later one
   * finds.
   */
  lemma {:induction false} CheckBeforeDue(r: Row, m: Market, cfg: Config, now: int, asOf: int)
    requires Good(m) && Fit(r) && OpenAsOf(r, now) && now <= asOf && !HoldOver(r, m, cfg, now)
    requires FullDays(m.table, Anchor(r).ms, now, DAILY_ROW_CAP)
    ensures Continues(r, Check(r, m, cfg, now), m, cfg, asOf)
  {
    OpenSince(r, now);
    DueOrNot(r, m, cfg, now, asOf);
    if Walks(r) {
      var bars := Window(m.table, Anchor(r).ms, now, INTRADAY_ROW_CAP, DAILY_ROW_CAP);
      hide Continues, Good, Window, Slice, Until, HoldOver, FullDays, RuleStart;
      GoodTable(m);
      WindowIsSlice(m.table, Anchor(r).ms, now, INTRADAY_ROW_CAP, DAILY_ROW_CAP);
      if WalkOver(r, cfg, bars).Exited? {
        EarlyExit(r, m, cfg, now, asOf, bars);
      } else {
        PartContinues(r, m, cfg, asOf, now, bars);
        CheckParts(r, m, cfg, now);
      }
    } else {
      NoWalkNoChange(r, m, cfg, now);
      StaysPut(r, m, cfg, asOf);
    }
  }

  lemma NoWalkNoChange(r: Row, m: Market, cfg: Config, now: int)
    requires !Walks(r) && !HoldOver(r, m, cfg, now)
    ensures Check(r, m, cfg, now) == r
  {
    hide HoldOver, TimeClosure, DueFill;
  }

  /** Every bar the check needs is within its row caps. */
  ghost predicate Whole(r: Row, m: Market, cfg: Config, asOf: int)
    requires Anchor(r).At?
  {
    && WholeReads(m.table, Anchor(r).ms, Until(r, m, cfg, asOf))
    && (Due(r, m, cfg).Some? ==> WholeReads(m.table, Due(r, m, cfg).value, asOf))
  }

  /** A check that reads everything is the late check. */
  lemma WholeCheckIsLate(r: Row, m: Market, cfg: Config, asOf: int)
    requires Good(m) && Anchor(r).At? && Whole(r, m, cfg, asOf)
    ensures Check(r, m, cfg, asOf) == LateCheck(r, m, cfg, asOf)
    ensures PriceWalk(r, m, cfg, asOf) == LateWalk(r, m, cfg, asOf)
            && DueFill(r, m, cfg, asOf) == LateFill(r, m, cfg, asOf)
  {
    hide Window, Slice, Settle, WholeReads, WalkOver, FindFillBar, Good, Until, Due;
    GoodTable(m);
    WholeReadsBefore(m.table, Anchor(r).ms, Until(r, m, cfg, asOf), Until(r, m, cfg, asOf));
    if Due(r, m, cfg).Some? {
      WholeReadsBefore(m.table, Due(r, m, cfg).value, asOf, asOf);
    }
  }

  /** A fill found for a due time exit is the one found later. */
  lemma FillStays(r: Row, m: Market, cfg: Config, now: int, asOf: int)
    requires Good(m) && now <= asOf && LateFill(r, m, cfg, now).Some?
    ensures LateFill(r, m, cfg, asOf) == LateFill(r, m, cfg, now)
  {
    var due := Due(r, m, cfg).value;
    hide Slice, Due, Good;
    GoodTable(m);
    SlicesGrow(m.table, due, now, asOf);
    var a, s := Slice(m.table, due, now), Slice(m.table, due, asOf);
    assert s == a + s[|a|..];
    FillExtends(a, s[|a|..], due);
  }

  /** Without a fill, an exit that fills in time is still within its waiting time. */
  lemma StillWaiting(r: Row, m: Market, cfg: Config, now: int)
    requires Good(m) && Due(r, m, cfg).Some? && FillsInTime(m, Due(r, m, cfg).value) && LateFill(r, m, cfg, now).None?
    ensures now - Due(r, m, cfg).value <= PENDING_ENTRY_EXPIRY_MS
  {
    var due := Due(r, m, cfg).value;
    if now - due > PENDING_ENTRY_EXPIRY_MS {
      hide Slice, LateWalk, Good, HoldOver, Due;
      GoodTable(m);
      SlicesGrow(m.table, due, due + PENDING_ENTRY_EXPIRY_MS, now);
      var a, s := Slice(m.table, due, due + PENDING_ENTRY_EXPIRY_MS), Slice(m.table, due, now);
      assert s == a + s[|a|..];
      FillExtends(a, s[|a|..], due);
    }
  }

  lemma OpenSince(r: Row, asOf: int)
    requires Fit(r) && OpenAsOf(r, asOf)
    ensures r.openedAt.ms <= asOf
  {
  }

  lemma SameWalk(r: Row, m: Market, cfg: Config, now: int, asOf: int)
    requires Until(r, m, cfg, now) == Until(r, m, cfg, asOf)
    ensures LateWalk(r, m, cfg, now) == LateWalk(r, m, cfg, asOf) == WalkTo(r, m, cfg, Until(r, m, cfg, now))
  {
  }

  /** A walk that has not exited has not exited earlier either. */
  lemma NoExitBefore(r: Row, m: Market, cfg: Config, early: int, late: int)
    requires Good(m) && early <= late && Walks(r) && !WalkTo(r, m, cfg, late).value.Exited?
    ensures !WalkTo(r, m, cfg, early).value.Exited?
  {
    hide Slice, Good;
    GoodTable(m);
    var a, s := Slice(m.table, Anchor(r).ms, early), Slice(m.table, Anchor(r).ms, late);
    SlicesGrow(m.table, Anchor(r).ms, early, late);
    assert s == a + s[|a|..];
    WalkConcat(r.terms, PolicyOf(r, cfg), Start(PolicyOf(r, cfg), r.peakPrice), a, s[|a|..]);
  }

  /** A row that closes by time before the last check closes at its fill. */
  lemma TimelyFills(r: Row, m: Market, cfg: Config, now: int, asOf: int)
    requires Good(m) && Fit(r) && OpenAsOf(r, now) && now < asOf && HoldOver(r, m, cfg, now) && Timely(r, m, cfg, asOf)
    requires Walks(r) ==> !WalkTo(r, m, cfg, Until(r, m, cfg, now)).value.Exited?
    ensures Due(r, m, cfg).Some? && Until(r, m, cfg, now) == Until(r, m, cfg, asOf)
    ensures Walks(r) ==> WalkTo(r, m, cfg, Until(r, m, cfg, now)).value.Going?
    ensures LateFill(r, m, cfg, now).None? ==> now - Due(r, m, cfg).value <= PENDING_ENTRY_EXPIRY_MS
  {
    OpenSince(r, now);
    DueOrNot(r, m, cfg, now, asOf);
    RuleStarts(r, m, cfg, now);
    hide Good, Until, Due, HoldOver, WalkTo, LateFill, RuleStart, FillsInTime;
    if Walks(r) {
      NoExitBefore(r, m, cfg, RuleStart(r, m, cfg), Until(r, m, cfg, now));
    }
    if LateFill(r, m, cfg, now).None? && FillsInTime(m, RuleStart(r, m, cfg)) {
      StillWaiting(r, m, cfg, now);
    }
  }

  /** A whole check at or after the hold rule's start either closes for good or waits without losing anything. */
  lemma CheckAfterDue(r: Row, m: Market, cfg: Config, now: int, asOf: int)
    requires Good(m) && Fit(r) && OpenAsOf(r, now) && now <= asOf && HoldOver(r, m, cfg, now)
    requires Whole(r, m, cfg, now) && Timely(r, m, cfg, asOf)
    ensures Continues(r, Check(r, m, cfg, now), m, cfg, asOf)
  {
    OpenSince(r, now);
    DueOrNot(r, m, cfg, now, asOf);
    hide Continues, Check, LateCheck, Good, Timely, Whole, HoldOver, Until, Due, LateFill, DueFill, Slice;
    WholeCheckIsLate(r, m, cfg, now);
    StillOpen(r, now, asOf);
    if Walks(r) {
      var bars := Slice(m.table, Anchor(r).ms, Until(r, m, cfg, now));
      if WalkOver(r, cfg, bars).Exited? {
        EarlyExit(r, m, cfg, now, asOf, bars);
      } else {
        WalkedAfterDue(r, m, cfg, now, asOf, bars);
      }
    } else {
      UnwalkedAfterDue(r, m, cfg, now, asOf);
    }
  }

  lemma WaitsOnly(r: Row, m: Market, cfg: Config, now: int, w: Walked, fill: Option<Fill>)
    requires HoldOver(r, m, cfg, now) && ClosureOf(r, m, cfg, now, w, fill).None?
    ensures w.Going? && fill.None? && Due(r, m, cfg).Some?
  {
    hide HoldOver, Due, CurrentPrice, Unsplit;
  }

  /**
   * The closing of a walk that goes on, at its fill, is the same at any later check; without a fill it waits
   * its time.
   */
  lemma FilledAlike(r: Row, m: Market, cfg: Config, now: int, asOf: int, w: Walked, fill: Option<Fill>)
    requires w.Going? && HoldOver(r, m, cfg, now) && HoldOver(r, m, cfg, asOf) && Due(r, m, cfg).Some?
    requires fill.None? ==> now - Due(r, m, cfg).value <= PENDING_ENTRY_EXPIRY_MS
    requires ClosureOf(r, m, cfg, now, w, fill).Some?
    ensures fill.Some? && ClosureOf(r, m, cfg, asOf, w, fill) == ClosureOf(r, m, cfg, now, w, fill)
  {
    hide HoldOver, Due, CurrentPrice, Unsplit;
  }

  lemma WalkedAfterDue(r: Row, m: Market, cfg: Config, now: int, asOf: int, bars: seq<Bar>)
    requires Good(m) && Fit(r) && OpenAsOf(r, now) && OpenAsOf(r, asOf) && now <= asOf && HoldOver(r, m, cfg, now)
             && Walks(r)
    requires Timely(r, m, cfg, asOf) && bars == Slice(m.table, Anchor(r).ms, Until(r, m, cfg, now))
             && !WalkOver(r, cfg, bars).Exited?
    requires Check(r, m, cfg, now) == LateCheck(r, m, cfg, now)
    requires PriceWalk(r, m, cfg, now) == LateWalk(r, m, cfg, now)
             && DueFill(r, m, cfg, now) == LateFill(r, m, cfg, now)
    ensures Continues(r, Check(r, m, cfg, now), m, cfg, asOf)
  {
    if Check(r, m, cfg, now).closure.None? {
      WalkedWaits(r, m, cfg, now, asOf, bars);
    } else {
      WalkedCloses(r, m, cfg, now, asOf, bars);
    }
    hide *;
  }

  lemma WalkedWaits(r: Row, m: Market, cfg: Config, now: int, asOf: int, bars: seq<Bar>)
    requires Good(m) && Fit(r) && OpenAsOf(r, now) && OpenAsOf(r, asOf) && now <= asOf && HoldOver(r, m, cfg, now)
             && Walks(r)
    requires Timely(r, m, cfg, asOf) && bars == Slice(m.table, Anchor(r).ms, Until(r, m, cfg, now))
             && !WalkOver(r, cfg, bars).Exited?
    requires Check(r, m, cfg, now) == LateCheck(r, m, cfg, now)
    requires PriceWalk(r, m, cfg, now) == LateWalk(r, m, cfg, now)
             && DueFill(r, m, cfg, now) == LateFill(r, m, cfg, now)
    requires Check(r, m, cfg, now).closure.None?
    ensures Continues(r, Check(r, m, cfg, now), m, cfg, asOf)
  {
    var s, w, fill := Check(r, m, cfg, now), WalkOver(r, cfg, bars), LateFill(r, m, cfg, now);
    OpenSince(r, now);
    DueOrNot(r, m, cfg, now, asOf);
    SameWalk(r, m, cfg, now, now);
    CheckParts(r, m, cfg, now);
    hide Check, LateCheck, Good, Timely, HoldOver, Until, Due, LateFill, DueFill, Slice, PriceWalk, LateWalk, WalkOver,
         Recorded, Carry, ClosureOf, RuleStart;
    WaitsOnly(r, m, cfg, now, w, fill);
    PartContinues(r, m, cfg, asOf, Until(r, m, cfg, now), bars);
  }

  lemma WalkedCloses(r: Row, m: Market, cfg: Config, now: int, asOf: int, bars: seq<Bar>)
    requires Good(m) && Fit(r) && OpenAsOf(r, now) && OpenAsOf(r, asOf) && now <= asOf && HoldOver(r, m, cfg, now)
             && Walks(r)
    requires Timely(r, m, cfg, asOf) && bars == Slice(m.table, Anchor(r).ms, Until(r, m, cfg, now))
             && !WalkOver(r, cfg, bars).Exited?
    requires Check(r, m, cfg, now) == LateCheck(r, m, cfg, now)
    requires PriceWalk(r, m, cfg, now) == LateWalk(r, m, cfg, now)
             && DueFill(r, m, cfg, now) == LateFill(r, m, cfg, now)
    requires Check(r, m, cfg, now).closure.Some?
    ensures Continues(r, Check(r, m, cfg, now), m, cfg, asOf)
  {
    var s, w, fill := Check(r, m, cfg, now), WalkOver(r, cfg, bars), LateFill(r, m, cfg, now);
    OpenSince(r, now);
    DueOrNot(r, m, cfg, now, asOf);
    SameWalk(r, m, cfg, now, now);
    CheckParts(r, m, cfg, now);
    hide Check, LateCheck, Good, Timely, HoldOver, Until, Due, LateFill, DueFill, Slice, PriceWalk, LateWalk, WalkOver,
         Recorded, Carry, ClosureOf, RuleStart;
    ClosedLate(s, m, cfg, asOf);
    if now < asOf {
      TimelyFills(r, m, cfg, now, asOf);
      FilledAlike(r, m, cfg, now, asOf, w, fill);
      FillStays(r, m, cfg, now, asOf);
      SameWalk(r, m, cfg, now, asOf);
      LateParts(r, m, cfg, asOf);
    }
  }

  /** A position without computable levels: only the time exit is left. */
  lemma UnwalkedAfterDue(r: Row, m: Market, cfg: Config, now: int, asOf: int)
    requires Good(m) && Fit(r) && OpenAsOf(r, now) && OpenAsOf(r, asOf) && now <= asOf && HoldOver(r, m, cfg, now)
             && !Walks(r)
    requires Timely(r, m, cfg, asOf) && Check(r, m, cfg, now) == LateCheck(r, m, cfg, now)
    ensures Continues(r, Check(r, m, cfg, now), m, cfg, asOf)
  {
    var s := Check(r, m, cfg, now);
    OpenSince(r, now);
    DueOrNot(r, m, cfg, now, asOf);
    UnwalkedParts(r, m, cfg, now);
    UnwalkedParts(r, m, cfg, asOf);
    hide Check, LateCheck, Good, Timely, HoldOver, Until, Due, LateFill, TimeClosure;
    if s.closure.None? {
      StaysPut(r, m, cfg, asOf);
    } else {
      ClosedLate(s, m, cfg, asOf);
      if now < asOf {
        TimelyFills(r, m, cfg, now, asOf);
        FillDecides(r, m, cfg, now, asOf, LateFill(r, m, cfg, now));
        FillStays(r, m, cfg, now, asOf);
      }
    }
  }

  lemma UnwalkedParts(r: Row, m: Market, cfg: Config, asOf: int)
    requires Fit(r) && OpenAsOf(r, asOf) && !Walks(r) && HoldOver(r, m, cfg, asOf)
    ensures var c := TimeClosure(r, m, cfg, asOf, LateFill(r, m, cfg, asOf));
            LateCheck(r, m, cfg, asOf) == if c.Some? then WithClosure(r, c.value) else r
  {
    hide TimeClosure, LateFill, HoldOver;
  }

  lemma FillDecides(r: Row, m: Market, cfg: Config, now: int, asOf: int, fill: Option<Fill>)
    requires Due(r, m, cfg).Some? && TimeClosure(r, m, cfg, now, fill).Some?
    requires fill.None? ==> now - Due(r, m, cfg).value <= PENDING_ENTRY_EXPIRY_MS
    ensures fill.Some? && TimeClosure(r, m, cfg, asOf, fill) == TimeClosure(r, m, cfg, now, fill)
  {
    hide Due, CurrentPrice, Unsplit;
  }

  /** One row over a run of checks. */
  ghost function RunChecks(r: Row, m: Market, cfg: Config, ticks: seq<int>): Row
    decreases |ticks|
  {
    if ticks == [] then r else RunChecks(Check(r, m, cfg, ticks[0]), m, cfg, ticks[1..])
  }

  /**
   * The reads of a run: daily reads never cut off, and a check at or after the due instant, and the last one,
   * whole.
   */
  ghost predicate RunReads(r: Row, m: Market, cfg: Config, ticks: seq<int>)
    decreases |ticks|
  {
    ticks == [] || r.closure.Some? ||
    (&& Anchor(r).At?
     && FullDays(m.table, Anchor(r).ms, Until(r, m, cfg, ticks[0]), DAILY_ROW_CAP)
     && (HoldOver(r, m, cfg, ticks[0]) || |ticks| == 1 ==> Whole(r, m, cfg, ticks[0]))
     && RunReads(Check(r, m, cfg, ticks[0]), m, cfg, ticks[1..]))
  }

  /**
   * Checks on any schedule, some of them cut off at the row cap, leave a position exactly as one check at the
   * last moment that reads every bar: the same exit or none, the same extremes, and while it is open the same
   * row.
   */
  lemma {:induction false} ScheduleIsOneCheck(r: Row, m: Market, cfg: Config, ticks: seq<int>, last: int)
    requires Good(m) && Fit(r) && Ticks(ticks, last) && OpenAsOf(r, ticks[0])
    requires RunReads(r, m, cfg, ticks) && Timely(r, m, cfg, last)
    ensures SameOutcome(RunChecks(r, m, cfg, ticks), LateCheck(r, m, cfg, last))
    decreases |ticks|
  {
    hide Check, LateCheck, Good, Timely, HoldOver, Until, Whole, FullDays, OpenAsOf, Due;
    var s := Check(r, m, cfg, ticks[0]);
    if |ticks| == 1 {
      WholeCheckIsLate(r, m, cfg, last);
      assert RunChecks(s, m, cfg, ticks[1..]) == s;
    } else {
      FirstCheckContinues(r, m, cfg, ticks, last);
      assert ticks[1..][|ticks| - 2] == last;
      assert RunChecks(r, m, cfg, ticks) == RunChecks(s, m, cfg, ticks[1..]);
      if s.closure.None? {
        StillOpen(s, ticks[0], ticks[1]);
        ScheduleIsOneCheck(s, m, cfg, ticks[1..], last);
      } else {
        ClosedRun(s, m, cfg, ticks[1..]);
        ClosedLate(s, m, cfg, last);
      }
    }
  }

  lemma {:induction false} FirstCheckContinues(r: Row, m: Market, cfg: Config, ticks: seq<int>, last: int)
    requires Good(m) && Fit(r) && Ticks(ticks, last) && OpenAsOf(r, ticks[0])
    requires RunReads(r, m, cfg, ticks) && Timely(r, m, cfg, last)
    ensures Continues(r, Check(r, m, cfg, ticks[0]), m, cfg, last)
    ensures Check(r, m, cfg, ticks[0]).closure.None? ==> OpenAsOf(Check(r, m, cfg, ticks[0]), ticks[0])
  {
    hide Check, LateCheck, Good, Timely, HoldOver, Whole, FullDays, Due;
    var now := ticks[0];
    OpenSince(r, now);
    DueOrNot(r, m, cfg, now, now);
    if HoldOver(r, m, cfg, now) {
      CheckAfterDue(r, m, cfg, now, last);
    } else {
      CheckBeforeDue(r, m, cfg, now, last);
    }
  }

  lemma StillOpen(r: Row, now: int, next: int)
    requires r.closure.None? && OpenAsOf(r, now) && now <= next
    ensures OpenAsOf(r, next)
  {
  }

  lemma {:induction false} ClosedRun(r: Row, m: Market, cfg: Config, ticks: seq<int>)
    requires r.closure.Some?
    ensures RunChecks(r, m, cfg, ticks) == r
    decreases |ticks|
  {
    if ticks != [] {
      ClosedForGood(r, m, cfg, ticks[0]);
      ClosedRun(r, m, cfg, ticks[1..]);
    }
  }

  lemma {:induction false} FewerFit<T(!new)>(s: seq<T>, p: T -> bool, q: T -> bool)
    requires forall x :: x in s && p(x) ==> q(x)
    ensures |Filter(s, p)| <= |Filter(s, q)|
  {
    if s != [] {
      assert s[0] in s && forall x :: x in s[1..] ==> x in s;
      FewerFit(s[1..], p, q);
    }
  }

  lemma LaterStartReadsFewer(t: BarTable, from: int, later: int, asOf: int)
    requires from <= later
    ensures |VisibleIntraday(t, later, asOf)| <= |VisibleIntraday(t, from, asOf)|
  {
    var p := (r: IntradayRow) => CeilToSecond(later) <= r.ts <= IntradayCutoff(asOf);
    var q := (r: IntradayRow) => CeilToSecond(from) <= r.ts <= IntradayCutoff(asOf);
    assert CeilToSecond(from) <= CeilToSecond(later);
    FewerFit(t.intraday, p, q);
    assert VisibleIntraday(t, later, asOf) == Filter(t.intraday, p)
           && VisibleIntraday(t, from, asOf) == Filter(t.intraday, q);
  }

  lemma LaterStartReadsFewerDays(t: BarTable, from: int, later: int, asOf: int)
    requires from <= later
    ensures |VisibleDaily(t, later, asOf)| <= |VisibleDaily(t, from, asOf)|
  {
    var p := (d: DailyRow) => DailyFrom(later) <= d.date < DayOf(asOf);
    var q := (d: DailyRow) => DailyFrom(from) <= d.date < DayOf(asOf);
    assert DailyFrom(from) <= DailyFrom(later);
    FewerFit(t.daily, p, q);
    assert VisibleDaily(t, later, asOf) == Filter(t.daily, p) && VisibleDaily(t, from, asOf) == Filter(t.daily, q);
  }

  /** A window that starts later reads no more rows. */
  lemma LaterStartReadsLess(t: BarTable, from: int, later: int, asOf: int)
    requires from <= later && WholeReads(t, from, asOf)
    ensures WholeReads(t, later, asOf)
  {
    hide VisibleIntraday, VisibleDaily;
    LaterStartReadsFewer(t, from, later, asOf);
    LaterStartReadsFewerDays(t, from, later, asOf);
  }

  lemma WholeThen(r: Row, m: Market, cfg: Config, now: int, last: int)
    requires Good(m) && Fit(r) && OpenAsOf(r, now) && now <= last && Whole(r, m, cfg, last)
    ensures Whole(r, m, cfg, now) && FullDays(m.table, Anchor(r).ms, Until(r, m, cfg, now), DAILY_ROW_CAP)
  {
    OpenSince(r, now);
    DueOrNot(r, m, cfg, now, last);
    assert Until(r, m, cfg, now) <= Until(r, m, cfg, last);
    GoodTable(m);
    hide Good, Until, Due, Window, Slice;
    WholeReadsBefore(m.table, Anchor(r).ms, Until(r, m, cfg, now), Until(r, m, cfg, last));
    if Due(r, m, cfg).Some? {
      WholeReadsBefore(m.table, Due(r, m, cfg).value, now, last);
    }
    hide VisibleIntraday, VisibleDaily;
  }

  /** When one check over everything fits the row caps, so does every check of every schedule. */
  lemma {:induction false} RunFits(r: Row, m: Market, cfg: Config, ticks: seq<int>, last: int)
    requires Good(m) && Fit(r) && Ticks(ticks, last) && OpenAsOf(r, ticks[0])
    requires Whole(r, m, cfg, last) && Timely(r, m, cfg, last)
    ensures RunReads(r, m, cfg, ticks)
    decreases |ticks|
  {
    hide Check, LateCheck, Good, Timely, HoldOver, OpenAsOf, Due, Until, WholeReads, FullDays;
    var now := ticks[0];
    WholeThen(r, m, cfg, now, last);
    var s := Check(r, m, cfg, now);
    if |ticks| > 1 {
      WholeCheckContinues(r, m, cfg, now, last);
      assert ticks[1..][|ticks| - 2] == last;
      if s.closure.None? {
        StillOpen(s, now, ticks[1]);
        WholeFrom(r, s, m, cfg, last);
        RunFits(s, m, cfg, ticks[1..], last);
      }
    } else {
      assert ticks[1..] == [];
    }
  }

  lemma WholeFrom(r: Row, s: Row, m: Market, cfg: Config, last: int)
    requires Fit(r) && Fit(s) && Anchor(s).ms >= Anchor(r).ms && s.terms == r.terms && s.openedAt == r.openedAt
    requires Whole(r, m, cfg, last)
    ensures Whole(s, m, cfg, last)
  {
    SameRules(r, s, m, cfg, last, None);
    LaterStartReadsLess(m.table, Anchor(r).ms, Anchor(s).ms, Until(r, m, cfg, last));
    hide WholeReads, Due, Until;
  }

  lemma {:induction false} WholeCheckContinues(r: Row, m: Market, cfg: Config, now: int, last: int)
    requires Good(m) && Fit(r) && OpenAsOf(r, now) && now <= last && Whole(r, m, cfg, now) && Timely(r, m, cfg, last)
    requires FullDays(m.table, Anchor(r).ms, Until(r, m, cfg, now), DAILY_ROW_CAP)
    ensures Continues(r, Check(r, m, cfg, now), m, cfg, last)
    ensures Check(r, m, cfg, now).closure.None? ==> OpenAsOf(Check(r, m, cfg, now), now)
  {
    hide Check, LateCheck, Good, Timely, HoldOver, Whole, FullDays, Due;
    OpenSince(r, now);
    DueOrNot(r, m, cfg, now, now);
    if HoldOver(r, m, cfg, now) {
      CheckAfterDue(r, m, cfg, now, last);
    } else {
      CheckBeforeDue(r, m, cfg, now, last);
    }
  }

  /** So any two schedules with the same last check, and that check alone, come to the same outcome. */
  lemma SchedulesAgree(r: Row, m: Market, cfg: Config, ticks: seq<int>, others: seq<int>, last: int)
    requires Good(m) && Fit(r) && Ticks(ticks, last) && Ticks(others, last) && OpenAsOf(r, ticks[0])
             && OpenAsOf(r, others[0])
    requires Whole(r, m, cfg, last) && Timely(r, m, cfg, last)
    ensures SameOutcome(RunChecks(r, m, cfg, ticks), Check(r, m, cfg, last))
    ensures SameOutcome(RunChecks(r, m, cfg, ticks), RunChecks(r, m, cfg, others))
  {
    hide Check, LateCheck, Good, Timely, Whole, RunChecks, RunReads, OpenAsOf;
    RunFits(r, m, cfg, ticks, last);
    RunFits(r, m, cfg, others, last);
    ScheduleIsOneCheck(r, m, cfg, ticks, last);
    ScheduleIsOneCheck(r, m, cfg, others, last);
    WholeCheckIsLate(r, m, cfg, last);
  }

  // ---- When the schedule shows -------------------------------------------------------------------

  lemma TwoTicks(x: int, last: int)
    requires x <= last
    ensures Ticks([x, last], last)
  {
  }

  /**
   * A row closed at `x` by time, and differently at the last check, tells the schedule with that check from the
   * last alone.
   */
  lemma ClosedThere(r: Row, m: Market, cfg: Config, x: int, last: int)
    requires Check(r, m, cfg, x).closure.Some? && Check(r, m, cfg, x).closure != Check(r, m, cfg, last).closure
    ensures !SameOutcome(RunChecks(r, m, cfg, [x, last]), Check(r, m, cfg, last))
  {
    hide Check;
    var s := Check(r, m, cfg, x);
    assert [x, last][1..] == [last];
    ClosedRun(s, m, cfg, [last]);
  }

  /** What a whole check closes with. */
  lemma WholeClosure(r: Row, m: Market, cfg: Config, asOf: int)
    requires Good(m) && Fit(r) && OpenAsOf(r, asOf) && Whole(r, m, cfg, asOf) && HoldOver(r, m, cfg, asOf)
    ensures var w := WalkTo(r, m, cfg, Until(r, m, cfg, asOf));
            Check(r, m, cfg, asOf).closure ==
            if w.Some? then ClosureOf(r, m, cfg, asOf, w.value, LateFill(r, m, cfg, asOf))
            else TimeClosure(r, m, cfg, asOf, LateFill(r, m, cfg, asOf))
  {
    hide Check, LateCheck, Good, Whole, OpenAsOf, HoldOver, TimeClosure, LateFill, ClosureOf, Until;
    WholeCheckIsLate(r, m, cfg, asOf);
    SameWalk(r, m, cfg, asOf, asOf);
    if Walks(r) {
      LateParts(r, m, cfg, asOf);
    } else {
      UnwalkedParts(r, m, cfg, asOf);
    }
  }

  lemma ExitReason(t: Terms, o: Policy, p: Progress, bars: seq<Bar>)
    requires Walkable(t) && Walk(t, o, p, bars).Exited?
    ensures !Walk(t, o, p, bars).exit.reason.TimeBased?
  {
    ExitIsTradable(t, o, p, bars);
    hide Walk, FairExit, CappedAtFill;
    var k :| 0 <= k < |bars| && Walk(t, o, p, bars[..k]).Going?
      && FairExit(t, o, Walk(t, o, p, bars[..k]).p.peak, bars[k], Walk(t, o, p, bars).exit);
    FairReason(t, o, Walk(t, o, p, bars[..k]).p.peak, bars[k], Walk(t, o, p, bars).exit);
  }

  lemma FairReason(t: Terms, o: Policy, peak: Option<real>, b: Bar, e: Exit)
    requires Walkable(t) && FairExit(t, o, peak, b, e)
    ensures !e.reason.TimeBased?
  {
    if !e.reason.TakeProfit? {
      RuleReason(t, o, peak);
    }
    hide StopRule, TargetLevel, SplitOf;
  }

  lemma RuleReason(t: Terms, o: Policy, peak: Option<real>)
    requires Walkable(t) && StopRule(t, o, peak).Some?
    ensures !StopRule(t, o, peak).value.reason.TimeBased?
  {
  }

  /** Closing by time at two checks differs once the closing carries the time of the first. */
  lemma LateTimeTells(r: Row, m: Market, cfg: Config, x: int, last: int)
    requires Good(m) && Fit(r) && OpenAsOf(r, x) && x < last && HoldOver(r, m, cfg, x) && Whole(r, m, cfg, last)
    requires Check(r, m, cfg, x).closure.Some? && Check(r, m, cfg, x).closure.value.reason.TimeBased?
    requires Check(r, m, cfg, x).closure.value.closedAt == x
    requires LateFill(r, m, cfg, last).Some? ==>
               LateFill(r, m, cfg, last).value.openedAt != x || WalkHalts(r, m, cfg, last)
    ensures Check(r, m, cfg, x).closure != Check(r, m, cfg, last).closure
  {
    OpenSince(r, x);
    DueOrNot(r, m, cfg, x, last);
    StillOpen(r, x, last);
    hide Check, Good, Whole, HoldOver, LateFill, Until, WalkTo, OpenAsOf;
    WholeClosure(r, m, cfg, last);
    if WalkExits(r, m, cfg, last) {
      ExitIsNoTimeExit(r, m, cfg, Until(r, m, cfg, last));
    }
    LateClosingIs(r, m, cfg, last);
  }

  ghost predicate WalkHalts(r: Row, m: Market, cfg: Config, asOf: int) {
    var w := WalkTo(r, m, cfg, Until(r, m, cfg, asOf));
    w.Some? && w.value.Halted?
  }

  ghost predicate WalkExits(r: Row, m: Market, cfg: Config, asOf: int) {
    var w := WalkTo(r, m, cfg, Until(r, m, cfg, asOf));
    w.Some? && w.value.Exited?
  }

  lemma ExitIsNoTimeExit(r: Row, m: Market, cfg: Config, until: int)
    requires WalkTo(r, m, cfg, until).Some? && WalkTo(r, m, cfg, until).value.Exited?
    ensures !WalkTo(r, m, cfg, until).value.exit.reason.TimeBased?
  {
    hide Slice;
    ExitReason(r.terms, PolicyOf(r, cfg), Start(PolicyOf(r, cfg), r.peakPrice), Slice(m.table, Anchor(r).ms, until));
  }

  /** A closing by time carries the time of the check, or of the fill. */
  lemma LateClosingIs(r: Row, m: Market, cfg: Config, asOf: int)
    requires HoldOver(r, m, cfg, asOf)
    ensures var w, fill := WalkTo(r, m, cfg, Until(r, m, cfg, asOf)), LateFill(r, m, cfg, asOf);
            var c := if w.Some? then ClosureOf(r, m, cfg, asOf, w.value, fill) else TimeClosure(r, m, cfg, asOf, fill);
            c.Some? && !WalkExits(r, m, cfg, asOf) ==>
              c.value.closedAt == asOf
              || (!WalkHalts(r, m, cfg, asOf) && fill.Some? && c.value.closedAt == fill.value.openedAt)
  {
    hide HoldOver, Due, CurrentPrice, Unsplit, LateFill, WalkTo, Until;
  }

  /** No bar of the grid closes in the millisecond after a midnight. */
  lemma NothingNew(t: BarTable, due: int, days: nat)
    requires ValidTable(t) && OnGrid(t) && due % DAY_MS == 0
    ensures Slice(t, due, due + days * DAY_MS + 1) == Slice(t, due, due + days * DAY_MS)
  {
    hide Slice, AllBars;
    var x := due + days * DAY_MS;
    var a, b := Slice(t, due, x + 1), Slice(t, due, x);
    SliceOrdered(t, due, x + 1);
    SliceOrdered(t, due, x);
    forall c ensures c in a <==> c in b {
      InSlice(t, due, x + 1, c);
      InSlice(t, due, x, c);
      if c in AllBars(t) {
        OnFiveMinutes(t, c);
        MidnightAfter(due, days);
      }
    }
    OneOrder(a, b);
  }

  lemma MidnightAfter(due: int, days: int)
    requires due % DAY_MS == 0
    ensures (due + days * DAY_MS) % BAR_MS == 0
  {
    var k := due / DAY_MS;
    assert due + days * DAY_MS == ((k + days) * 288) * BAR_MS;
    WholeMultiple((k + days) * 288);
  }

  lemma WholeMultiple(n: int)
    ensures (n * BAR_MS) % BAR_MS == 0
  {
  }

  /** Bars of a grid table open and close on the grid. */
  lemma OnFiveMinutes(t: BarTable, b: Bar)
    requires ValidTable(t) && OnGrid(t) && b in AllBars(t)
    ensures b.openMs % BAR_MS == 0 && b.availableAt % BAR_MS == 0
  {
    hide AllBars, DayOf;
    AllBarsAre(t, b);
    if r :| r in t.intraday && b == FromIntraday(r) {
      FiveMinutesOn(r.ts);
    } else {
      var d :| d in t.daily && b == FromDaily(d);
      MidnightAfter(0, d.date);
      MidnightAfter(0, d.date + 1);
    }
  }

  lemma FiveMinutesOn(ts: int)
    requires ts % BAR_MS == 0
    ensures (ts + BAR_MS) % BAR_MS == 0
  {
  }

  lemma FillOpensOnGrid(r: Row, m: Market, cfg: Config, asOf: int)
    requires Good(m) && LateFill(r, m, cfg, asOf).Some?
    ensures LateFill(r, m, cfg, asOf).value.openedAt % BAR_MS == 0 && LateFill(r, m, cfg, asOf).value.openedAt < asOf
  {
    var due := Due(r, m, cfg).value;
    var s := Slice(m.table, due, asOf);
    FillIsFirstTradable(s, due);
    hide AllBars, FindFillBar, Due;
    var k :| 0 <= k < |s| && Tradable(s[k], due) && IsFill(FindFillBar(s, due).value, s[k])
        && forall i :: 0 <= i < k ==> !Tradable(s[i], due);
    assert s[k] in s;
    OnFiveMinutes(m.table, s[k]);
    ApartInTime(m.table, s[k], s[k]);
  }

  /** A check that closes by time, without a fill, at a time before the last check. */
  lemma TellingCheck(r: Row, m: Market, cfg: Config, last: int) returns (x: int)
    requires Good(m) && Fit(r) && OpenAsOf(r, last) && Whole(r, m, cfg, last) && !Timely(r, m, cfg, last)
    ensures OpenAsOf(r, x) && x < last && HoldOver(r, m, cfg, x)
    ensures Check(r, m, cfg, x).closure.Some? && Check(r, m, cfg, x).closure.value.reason.TimeBased?
    ensures Check(r, m, cfg, x).closure.value.closedAt == x
    ensures LateFill(r, m, cfg, last).Some? ==>
              LateFill(r, m, cfg, last).value.openedAt != x || WalkHalts(r, m, cfg, last)
  {
    var start := RuleStart(r, m, cfg);
    OpenSince(r, last);
    RuleStarts(r, m, cfg, last);
    var w := WalkTo(r, m, cfg, start);
    if Due(r, m, cfg).None? || (w.Some? && w.value.Halted?) {
      x := start;
      TellingStart(r, m, cfg, last);
    } else {
      x := start + PENDING_ENTRY_EXPIRY_MS + 1;
      TellingWait(r, m, cfg, x, last);
    }
  }

  predicate TimedOutAt(c: Option<Closure>, x: int) {
    c.Some? && c.value.reason.TimeBased? && c.value.closedAt == x
  }

  lemma OpenBetween(r: Row, x: int)
    requires Fit(r) && r.openedAt.ms <= x
    ensures OpenAsOf(r, x)
  {
  }

  lemma TellingStart(r: Row, m: Market, cfg: Config, last: int)
    requires Good(m) && Fit(r) && OpenAsOf(r, last) && Whole(r, m, cfg, last) && HoldOver(r, m, cfg, last)
    requires RuleStart(r, m, cfg) < last
    requires var w := WalkTo(r, m, cfg, RuleStart(r, m, cfg));
             !(w.Some? && w.value.Exited?) && (Due(r, m, cfg).None? || (w.Some? && w.value.Halted?))
    ensures var x := RuleStart(r, m, cfg);
            && OpenAsOf(r, x) && HoldOver(r, m, cfg, x)
            && TimedOutAt(Check(r, m, cfg, x).closure, x)
            && (LateFill(r, m, cfg, last).Some? ==> WalkHalts(r, m, cfg, last))
  {
    var x := RuleStart(r, m, cfg);
    OpenSince(r, last);
    RuleStarts(r, m, cfg, last);
    OpenBetween(r, x);
    RuleStarts(r, m, cfg, x);
    DueOrNot(r, m, cfg, x, last);
    WholeThen(r, m, cfg, x, last);
    hide Check, Good, Whole, HoldOver, Until, WalkTo, OpenAsOf, RuleStart, FullDays;
    WholeClosure(r, m, cfg, x);
    ClosesAtOnce(r, m, cfg, x);
  }

  lemma ClosesAtOnce(r: Row, m: Market, cfg: Config, x: int)
    requires HoldOver(r, m, cfg, x) && !WalkExits(r, m, cfg, x) && (Due(r, m, cfg).None? || WalkHalts(r, m, cfg, x))
    ensures var w, fill := WalkTo(r, m, cfg, Until(r, m, cfg, x)), LateFill(r, m, cfg, x);
            var c := if w.Some? then ClosureOf(r, m, cfg, x, w.value, fill) else TimeClosure(r, m, cfg, x, fill);
            TimedOutAt(c, x)
  {
    hide HoldOver, Due, CurrentPrice, Unsplit, LateFill, WalkTo, Until;
  }

  lemma TellingWait(r: Row, m: Market, cfg: Config, x: int, last: int)
    requires Good(m) && Fit(r) && OpenAsOf(r, last) && Whole(r, m, cfg, last) && HoldOver(r, m, cfg, last)
             && Due(r, m, cfg).Some?
    requires x == RuleStart(r, m, cfg) + PENDING_ENTRY_EXPIRY_MS + 1 < last && !FillsInTime(m, RuleStart(r, m, cfg))
    requires var w := WalkTo(r, m, cfg, RuleStart(r, m, cfg)); w.Some? ==> w.value.Going?
    ensures OpenAsOf(r, x) && HoldOver(r, m, cfg, x)
    ensures TimedOutAt(Check(r, m, cfg, x).closure, x)
    ensures LateFill(r, m, cfg, last).Some? ==> LateFill(r, m, cfg, last).value.openedAt != x
  {
    WaitIsOver(r, m, cfg, x, last);
    NoFillThen(r, m, cfg, x, last);
    hide *;
    WholeClosure(r, m, cfg, x);
    ClosesUnfilled(r, m, cfg, x);
  }

  /** The waiting time is over between two bars. */
  lemma NoFillThen(r: Row, m: Market, cfg: Config, x: int, last: int)
    requires Good(m) && Due(r, m, cfg).Some?
    requires x == RuleStart(r, m, cfg) + PENDING_ENTRY_EXPIRY_MS + 1 && RuleStart(r, m, cfg) % DAY_MS == 0
    ensures LateFill(r, m, cfg, last).Some? ==> LateFill(r, m, cfg, last).value.openedAt != x
  {
    AfterMidnight(RuleStart(r, m, cfg));
    hide *;
    if LateFill(r, m, cfg, last).Some? {
      FillOpensOnGrid(r, m, cfg, last);
    }
  }

  /** Just past the waiting time: the hold is over, the read is whole, the walk goes on and there is no fill. */
  lemma WaitIsOver(r: Row, m: Market, cfg: Config, x: int, last: int)
    requires Good(m) && Fit(r) && OpenAsOf(r, last) && Whole(r, m, cfg, last) && HoldOver(r, m, cfg, last)
             && Due(r, m, cfg).Some?
    requires x == RuleStart(r, m, cfg) + PENDING_ENTRY_EXPIRY_MS + 1 < last && !FillsInTime(m, RuleStart(r, m, cfg))
    requires var w := WalkTo(r, m, cfg, RuleStart(r, m, cfg)); w.Some? ==> w.value.Going?
    ensures RuleStart(r, m, cfg) == Due(r, m, cfg).value && RuleStart(r, m, cfg) % DAY_MS == 0
    ensures OpenAsOf(r, x) && HoldOver(r, m, cfg, x) && Whole(r, m, cfg, x)
    ensures !WalkExits(r, m, cfg, x) && !WalkHalts(r, m, cfg, x) && LateFill(r, m, cfg, x).None?
  {
    OpenSince(r, last);
    RuleStarts(r, m, cfg, last);
    OpenBetween(r, x);
    RuleStarts(r, m, cfg, x);
    DueOrNot(r, m, cfg, x, last);
    WholeThen(r, m, cfg, x, last);
    hide Good, Whole, HoldOver, Until, WalkTo, OpenAsOf, RuleStart, FullDays, Slice, Due;
    GoodTable(m);
    NothingNew(m.table, Due(r, m, cfg).value, 5);
    UnfilledAt(r, m, cfg, x);
  }

  lemma UnfilledAt(r: Row, m: Market, cfg: Config, x: int)
    requires Due(r, m, cfg).Some? && !FillsInTime(m, Due(r, m, cfg).value)
    requires Slice(m.table, Due(r, m, cfg).value, x)
          == Slice(m.table, Due(r, m, cfg).value, Due(r, m, cfg).value + PENDING_ENTRY_EXPIRY_MS)
    ensures LateFill(r, m, cfg, x).None?
  {
    hide Slice, Due;
  }

  lemma AfterMidnight(start: int)
    requires start % DAY_MS == 0
    ensures (start + PENDING_ENTRY_EXPIRY_MS + 1) % BAR_MS != 0
  {
    MidnightAfter(start, 5);
  }

  lemma ClosesUnfilled(r: Row, m: Market, cfg: Config, x: int)
    requires HoldOver(r, m, cfg, x) && !WalkExits(r, m, cfg, x) && !WalkHalts(r, m, cfg, x) && Due(r, m, cfg).Some?
    requires LateFill(r, m, cfg, x).None? && x - Due(r, m, cfg).value > PENDING_ENTRY_EXPIRY_MS
    ensures var w, fill := WalkTo(r, m, cfg, Until(r, m, cfg, x)), LateFill(r, m, cfg, x);
            var c := if w.Some? then ClosureOf(r, m, cfg, x, w.value, fill) else TimeClosure(r, m, cfg, x, fill);
            TimedOutAt(c, x)
  {
    hide HoldOver, Due, CurrentPrice, Unsplit, LateFill, WalkTo, Until;
  }

  /** Every schedule with the same last check comes to that check's outcome exactly when the closing is timely. */
  lemma SchedulesAgreeIff(r: Row, m: Market, cfg: Config, last: int)
    requires Good(m) && Fit(r) && OpenAsOf(r, last) && Whole(r, m, cfg, last)
    ensures (forall ticks :: Ticks(ticks, last) && OpenAsOf(r, ticks[0]) ==>
              SameOutcome(RunChecks(r, m, cfg, ticks), Check(r, m, cfg, last)))
       <==> Timely(r, m, cfg, last)
  {
    hide Check, Good, Timely, Whole, RunChecks, OpenAsOf, Fit, SameOutcome, HoldOver, LateFill;
    if Timely(r, m, cfg, last) {
      forall ticks | Ticks(ticks, last) && OpenAsOf(r, ticks[0])
        ensures SameOutcome(RunChecks(r, m, cfg, ticks), Check(r, m, cfg, last))
      {
        SchedulesAgree(r, m, cfg, ticks, ticks, last);
      }
    } else {
      var x := TellingCheck(r, m, cfg, last);
      LateTimeTells(r, m, cfg, x, last);
      ClosedThere(r, m, cfg, x, last);
      TwoTicks(x, last);
      assert [x, last][0] == x;
    }
  }

  /** `s`, written at `asOf`, holds nothing of the future, and a price exit of it lies after the row's cursor. */
  predicate Knowable(r: Row, s: Row, asOf: int)
    requires Anchor(r).At?
  {
    && (s.closure.Some? ==> s.closure.value.closedAt <= asOf)
    && (s.closure.Some? && !s.closure.value.reason.TimeBased? ==> s.closure.value.closedAt > Anchor(r).ms)
    && (s.lastCheckedAt != r.lastCheckedAt ==> s.lastCheckedAt.Some? && s.lastCheckedAt.value <= asOf)
  }

  /** Nothing a check writes lies in the future of that check, and a price exit never predates the window. */
  lemma ExitIsKnowable(r: Row, m: Market, cfg: Config, asOf: int)
    requires Good(m) && Fit(r) && OpenAsOf(r, asOf) && Whole(r, m, cfg, asOf)
    ensures Knowable(r, Check(r, m, cfg, asOf), asOf)
  {
    hide Check, LateCheck, Good, Whole, OpenAsOf, LateWalk, LateFill, PriceWalk, DueFill, Knowable;
    WholeCheckIsLate(r, m, cfg, asOf);
    FillWithin(r, m, cfg, asOf);
    if Walks(r) {
      WalkWithin(r, m, cfg, asOf);
      WalkedIsKnowable(r, m, cfg, asOf);
    } else {
      UnwalkedIsKnowable(r, m, cfg, asOf);
    }
  }

  lemma {:induction false} WalkedIsKnowable(r: Row, m: Market, cfg: Config, asOf: int)
    requires Fit(r) && OpenAsOf(r, asOf) && Walks(r)
    requires PriceWalk(r, m, cfg, asOf) == LateWalk(r, m, cfg, asOf)
             && DueFill(r, m, cfg, asOf) == LateFill(r, m, cfg, asOf)
    requires LateFill(r, m, cfg, asOf).Some? ==> LateFill(r, m, cfg, asOf).value.openedAt <= asOf
    requires var w := LateWalk(r, m, cfg, asOf).value;
             && (w.Exited? ==> Anchor(r).ms < w.exit.closedAt <= asOf)
             && (w.p.lastBarAvailableAt.Some? ==> w.p.lastBarAvailableAt.value <= asOf)
    ensures Knowable(r, Check(r, m, cfg, asOf), asOf)
  {
    CheckParts(r, m, cfg, asOf);
    hide Slice, Check, LateFill, PriceWalk, DueFill, Recorded, Until, Due, CurrentPrice, Unsplit, HoldOver, OpenAsOf;
  }

  lemma UnwalkedIsKnowable(r: Row, m: Market, cfg: Config, asOf: int)
    requires Fit(r) && OpenAsOf(r, asOf) && !Walks(r)
    requires DueFill(r, m, cfg, asOf) == LateFill(r, m, cfg, asOf)
    requires LateFill(r, m, cfg, asOf).Some? ==> LateFill(r, m, cfg, asOf).value.openedAt <= asOf
    ensures Knowable(r, Check(r, m, cfg, asOf), asOf)
  {
    hide LateFill, DueFill, Due, CurrentPrice, Unsplit, HoldOver, OpenAsOf;
  }

  lemma UntilIsPast(r: Row, m: Market, cfg: Config, asOf: int)
    ensures Until(r, m, cfg, asOf) <= asOf
  {
    hide Due;
  }

  lemma FillWithin(r: Row, m: Market, cfg: Config, asOf: int)
    requires Good(m)
    ensures LateFill(r, m, cfg, asOf).Some? ==> LateFill(r, m, cfg, asOf).value.openedAt <= asOf
  {
    if LateFill(r, m, cfg, asOf).Some? {
      var due := Due(r, m, cfg).value;
      var s := Slice(m.table, due, asOf);
      FillIsFirstTradable(s, due);
      hide AllBars, FindFillBar, Due;
      var k :| 0 <= k < |s| && Tradable(s[k], due) && IsFill(FindFillBar(s, due).value, s[k])
          && forall i :: 0 <= i < k ==> !Tradable(s[i], due);
      assert s[k] in s;
      ApartInTime(m.table, s[k], s[k]);
    }
  }

  lemma WalkWithin(r: Row, m: Market, cfg: Config, asOf: int)
    requires Good(m) && Walks(r)
    ensures var w := LateWalk(r, m, cfg, asOf).value;
            && (w.Exited? ==> Anchor(r).ms < w.exit.closedAt <= asOf)
            && (w.p.lastBarAvailableAt.Some? ==> w.p.lastBarAvailableAt.value <= asOf)
  {
    var bars := Slice(m.table, Anchor(r).ms, Until(r, m, cfg, asOf));
    var o := PolicyOf(r, cfg);
    UntilIsPast(r, m, cfg, asOf);
    MarkComesFromBars(r.terms, o, Start(o, r.peakPrice), bars);
    hide AllBars, Until, Walk;
    forall b | b in bars ensures Anchor(r).ms <= b.openMs < b.availableAt <= asOf {
      ApartInTime(m.table, b, b);
    }
    if LateWalk(r, m, cfg, asOf).value.Exited? {
      ExitIsTradable(r.terms, o, Start(o, r.peakPrice), bars);
    }
  }

  // ---- What is handed on ------------------------------------------------------------------------

  /**
   * The best price handed on is the one walked exactly when that is a price: a short's non-positive low is not stored,
   * so the next check goes back to the price before it.
   */
  lemma BestPriceIsHandedOnIff(r: Row, cfg: Config, p: Progress)
    requires r.closure.None? && SoundRow(r) && Ahead(r, p) && PolicyOf(r, cfg).trailing.Some?
    requires r.peakPrice.Some? ==> BetterPeak(r.terms.direction, r.peakPrice, p.peak) == p.peak
    ensures Start(PolicyOf(r, cfg), Carry(r, p).peakPrice).peak == p.peak <==> (p.peak.Some? ==> p.peak.value > 0.0)
  {
    hide ResolveTrailingConfig;
  }
}
