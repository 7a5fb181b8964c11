/**
 * How the ratcheted stop moves with the best price (src/agents/risk_mgmt/trailing.js), and the stops it starts from
 * (src/agents/risk_mgmt/risk.js).
 */
module TrailingStops {
  import opened Collections
  import opened ExitWalk
  import opened Returns

  /** The stop never loosens the initial one. */
  lemma NeverLooserThanInitial(t: Terms, peak: Option<real>, tr: Trailing)
    requires SoundTrailing(tr) && RatchetedStop(t, peak, tr).Some?
    ensures ExitLevels(t).Some? && ExitLevels(t).value.stop.Some?
    ensures !Better(t, ExitLevels(t).value.stop.value, RatchetedStop(t, peak, tr).value.level)
  {
  }

  lemma ScaleUp(x: real, y: real, f: real)
    requires x <= y && f >= 0.0
    ensures x * f <= y * f
  {
  }

  lemma DivideUp(x: real, y: real, e: real)
    requires x <= y && e > 0.0
    ensures x / e <= y / e
  {
  }

  lemma TightenKeepsOrder(t: Terms, a: Rule, b: Rule, onA: bool, onB: bool, la: real, lb: real, reason: Reason)
    requires !Better(t, b.level, a.level)
    requires onB ==> onA && (Better(t, lb, b.level) ==> !Better(t, lb, la))
    ensures !Better(t, Tighten(t, b, onB, lb, reason).level, Tighten(t, a, onA, la, reason).level)
  {
  }

  lemma GrossFollowsPeak(t: Terms, a: Option<real>, b: Option<real>)
    requires Walkable(t) && PeakAtLeast(t, a, b)
    ensures Gross(t, PeakOrEntry(t, a)) >= Gross(t, PeakOrEntry(t, b))
  {
    var e, x, y := t.entryPrice.value, PeakOrEntry(t, a), PeakOrEntry(t, b);
    if t.direction.Long? {
      DivideUp(y - e, x - e, e);
    } else {
      DivideUp(e - y, e - x, e);
    }
  }

  lemma LongTrail(x: real, y: real, gap: real)
    requires x >= y > 0.0 && gap >= 0.0
    ensures gap <= 1.0 ==> x * (1.0 - gap) >= y * (1.0 - gap)
    ensures gap > 1.0 ==> y * (1.0 - gap) <= 0.0
  {
    if gap <= 1.0 {
      ScaleUp(y, x, 1.0 - gap);
    } else {
      ScaleUp(1.0 - gap, 0.0, y);
      assert y * (1.0 - gap) == (1.0 - gap) * y;
    }
  }

  /** A better peak gives a tighter trail, unless the gap is wider than the whole price and the trail is below zero. */
  lemma TrailFollowsPeak(t: Terms, a: Option<real>, b: Option<real>, gap: real)
    requires Walkable(t) && PeakAtLeast(t, a, b) && gap >= 0.0
    ensures var x, y := TrailLevel(t, PeakOrEntry(t, a), gap), TrailLevel(t, PeakOrEntry(t, b), gap);
            !Better(t, y, x) || (t.direction.Long? && gap > 1.0 && y <= 0.0)
  {
    var x, y := PeakOrEntry(t, a), PeakOrEntry(t, b);
    assert x > 0.0 && y > 0.0;
    if t.direction.Long? {
      LongTrail(x, y, gap);
    } else {
      ScaleUp(x, y, 1.0 + gap);
    }
  }

  /**
   * As the peak improves the stop only tightens: always for a short; for a long at least when the initial stop or the
   * trailing gap is at most the whole price.
   */
  lemma StopOnlyTightens(t: Terms, a: Option<real>, b: Option<real>, tr: Trailing)
    requires SoundTrailing(tr) && RatchetedStop(t, a, tr).Some? && PeakAtLeast(t, a, b)
    requires t.direction.Short? || t.stopLossPct.value <= 1.0 || GapOf(t, tr) <= 1.0
    ensures !Better(t, RatchetedStop(t, b, tr).value.level, RatchetedStop(t, a, tr).value.level)
  {
    hide TrailLevel, PeakOrEntry, Gross, BreakEvenLevel, ExitLevels;
    var gap := GapOf(t, tr);
    GrossFollowsPeak(t, a, b);
    TrailFollowsPeak(t, a, b, gap);
    if t.direction.Long? && gap > 1.0 {
      InitialIsPositive(t);
    }
    var fa, fb := Gross(t, PeakOrEntry(t, a)), Gross(t, PeakOrEntry(t, b));
    var init, be := InitialStop(t), BreakEvenLevel(t, tr);
    TightenKeepsOrder(t, init, init, BreaksEven(t, fa, tr), BreaksEven(t, fb, tr), be, be, BreakEvenStop);
    var sa := Tighten(t, init, BreaksEven(t, fa, tr), be, BreakEvenStop);
    var sb := Tighten(t, init, BreaksEven(t, fb, tr), be, BreakEvenStop);
    TightenKeepsOrder(t, sa, sb, Trails(t, fa, tr), Trails(t, fb, tr),
                      TrailLevel(t, PeakOrEntry(t, a), gap), TrailLevel(t, PeakOrEntry(t, b), gap), TrailingStop);
    StopParts(t, a, tr);
    StopParts(t, b, tr);
    StopAtParts(t, PeakOrEntry(t, a), fa, tr);
    StopAtParts(t, PeakOrEntry(t, b), fb, tr);
  }

  lemma StopParts(t: Terms, a: Option<real>, tr: Trailing)
    requires Ratchets(t)
    ensures RatchetedStop(t, a, tr) == Some(StopAt(t, PeakOrEntry(t, a), Gross(t, PeakOrEntry(t, a)), tr))
  {
    hide StopAt;
  }

  lemma StopAtParts(t: Terms, peak: real, f: real, tr: Trailing)
    requires Ratchets(t)
    ensures var second := Tighten(t, InitialStop(t), BreaksEven(t, f, tr), BreakEvenLevel(t, tr), BreakEvenStop);
            StopAt(t, peak, f, tr) ==
            Tighten(t, second, Trails(t, f, tr), TrailLevel(t, peak, GapOf(t, tr)), TrailingStop)
  {
    hide Tighten;
  }

  lemma InitialLong(t: Terms)
    requires Ratchets(t) && t.direction.Long?
    ensures InitialStop(t).level == t.entryPrice.value * (1.0 - t.stopLossPct.value)
  {
  }

  lemma InitialIsPositive(t: Terms)
    requires Ratchets(t) && t.direction.Long? && t.stopLossPct.value <= 1.0
    ensures InitialStop(t).level >= 0.0
  {
    InitialLong(t);
    hide InitialStop, ExitLevels;
    PositiveProduct(t.entryPrice.value, 1.0 - t.stopLossPct.value);
  }

  lemma PositiveProduct(x: real, y: real)
    requires x >= 0.0 && y >= 0.0
    ensures x * y >= 0.0
  {
  }

  // ---- When a better price loosens the stop -----------------------------------------------------

  /** A better peak with a looser stop. */
  predicate Loosens(t: Terms, tr: Trailing, a: Option<real>, b: Option<real>)
    requires Ratchets(t)
  {
    PeakAtLeast(t, a, b) && Better(t, RatchetedStop(t, b, tr).value.level, RatchetedStop(t, a, tr).value.level)
  }

  /** A trail `gap` wide, active from a gain of `act` on, still beats a stop `r` away from the entry. */
  predicate Outruns(act: real, gap: real, r: real) {
    (1.0 + act) * (gap - 1.0) < r - 1.0
  }

  /**
   * A long whose trailing gap exceeds the whole price, whose trail once active still beats the initial stop,
   * and which is not broken even by then.
   */
  predicate CanLoosen(t: Terms, tr: Trailing)
    requires Ratchets(t)
  {
    && t.direction.Long? && GapOf(t, tr) > 1.0
    && Outruns(ActivationOf(t, tr), GapOf(t, tr), t.stopLossPct.value)
    && (tr.breakEvenTriggerR == 0.0 || tr.trailActivationR < tr.breakEvenTriggerR)
  }

  /** The stop loosens at some better price exactly for those terms. */
  lemma LoosensIff(t: Terms, tr: Trailing)
    requires SoundTrailing(tr) && Ratchets(t)
    ensures (exists a, b :: Loosens(t, tr, a, b)) <==> CanLoosen(t, tr)
  {
    hide Loosens, CanLoosen;
    if a, b :| Loosens(t, tr, a, b) {
      LoosenedTerms(t, tr, a, b);
    } else if CanLoosen(t, tr) {
      LooserPeak(t, tr);
    }
  }

  lemma LoosenedTerms(t: Terms, tr: Trailing, a: Option<real>, b: Option<real>)
    requires SoundTrailing(tr) && Ratchets(t) && Loosens(t, tr, a, b)
    ensures CanLoosen(t, tr)
  {
    assert PeakOrEntry(t, a) > 0.0 && PeakOrEntry(t, b) > 0.0;
    hide TrailLevel, PeakOrEntry, Gross, BreakEvenLevel, ExitLevels;
    var r := t.stopLossPct.value;
    var gap := GapOf(t, tr);
    if t.direction.Short? || r <= 1.0 || gap <= 1.0 {
      StopOnlyTightens(t, a, b, tr);
      assert false;
    } else {
      var x, y := PeakOrEntry(t, a), PeakOrEntry(t, b);
      var fa, fb := Gross(t, x), Gross(t, y);
      var init, be := InitialStop(t), BreakEvenLevel(t, tr);
      GrossFollowsPeak(t, a, b);
      StopParts(t, a, tr);
      StopParts(t, b, tr);
      StopAtParts(t, x, fa, tr);
      StopAtParts(t, y, fb, tr);
      var sa := Tighten(t, init, BreaksEven(t, fa, tr), be, BreakEvenStop);
      var sb := Tighten(t, init, BreaksEven(t, fb, tr), be, BreakEvenStop);
      TightenKeepsOrder(t, init, init, BreaksEven(t, fa, tr), BreaksEven(t, fb, tr), be, be, BreakEvenStop);
      assert Trails(t, fb, tr) && TrailLevel(t, y, gap) > sb.level;
      TrailBeats(t, y, fb, gap, tr);
    }
  }

  /** What it takes for the trail of a wide gap to be the stop at the best price `y`. */
  lemma TrailBeats(t: Terms, y: real, f: real, gap: real, tr: Trailing)
    requires SoundTrailing(tr) && Ratchets(t) && t.direction.Long? && gap == GapOf(t, tr) && gap > 1.0
    requires y > 0.0 && f == Gross(t, y) && Trails(t, f, tr)
    requires TrailLevel(t, y, gap) > Tighten(t, InitialStop(t), BreaksEven(t, f, tr), BreakEvenLevel(t, tr),
                                             BreakEvenStop).level
    ensures CanLoosen(t, tr)
  {
    hide Outruns;
    NotBrokenEven(t, y, f, gap, tr);
    BeatsInitial(t, y, f, gap, tr);
  }

  /** A broken-even stop lies above zero, and the trail of a wide gap never does. */
  lemma NotBrokenEven(t: Terms, y: real, f: real, gap: real, tr: Trailing)
    requires SoundTrailing(tr) && Ratchets(t) && t.direction.Long? && gap > 1.0 && y > 0.0 && Trails(t, f, tr)
    requires TrailLevel(t, y, gap) > Tighten(t, InitialStop(t), BreaksEven(t, f, tr), BreakEvenLevel(t, tr),
                                             BreakEvenStop).level
    ensures tr.breakEvenTriggerR == 0.0 || tr.trailActivationR < tr.breakEvenTriggerR
  {
    var e, r := t.entryPrice.value, t.stopLossPct.value;
    ScaleUp(1.0 - gap, 0.0, y);
    assert TrailLevel(t, y, gap) == y * (1.0 - gap) == (1.0 - gap) * y;
    ScaleUp(0.0, 1.0 + tr.costFraction, e);
    assert BreakEvenLevel(t, tr) == (1.0 + tr.costFraction) * e;
    MultiplesInOrder(t, tr);
    hide TrailLevel, BreakEvenLevel, ExitLevels, TriggerOf, ActivationOf, GapOf;
    assert !BreaksEven(t, f, tr);
  }

  lemma BeatsInitial(t: Terms, y: real, f: real, gap: real, tr: Trailing)
    requires SoundTrailing(tr) && Ratchets(t) && t.direction.Long? && gap > 1.0 && f == Gross(t, y) && Trails(t, f, tr)
    requires TrailLevel(t, y, gap) > Tighten(t, InitialStop(t), BreaksEven(t, f, tr), BreakEvenLevel(t, tr),
                                             BreakEvenStop).level
    ensures Outruns(ActivationOf(t, tr), gap, t.stopLossPct.value)
  {
    var e, r := t.entryPrice.value, t.stopLossPct.value;
    var act := ActivationOf(t, tr);
    PriceAt(e, y, act);
    InitialLong(t);
    hide BreakEvenLevel, ExitLevels, Gross, Outruns;
    Divided(e, r, y, gap, act);
  }

  lemma PriceAt(e: real, y: real, f: real)
    requires e > 0.0 && (y - e) / e >= f
    ensures y >= e * (1.0 + f)
  {
    ScaleUp(f, (y - e) / e, e);
    assert (y - e) / e * e == y - e;
  }

  lemma Divided(e: real, r: real, y: real, gap: real, act: real)
    requires e > 0.0 && gap > 1.0 && y >= e * (1.0 + act) && y * (1.0 - gap) > e * (1.0 - r)
    ensures Outruns(act, gap, r)
  {
    ScaleUp(e * (1.0 + act), y, gap - 1.0);
    var p := (1.0 + act) * (gap - 1.0);
    assert e * (1.0 + act) * (gap - 1.0) == p * e;
    assert y * (1.0 - gap) == -(y * (gap - 1.0));
    assert (r - 1.0) * e == -(e * (1.0 - r));
    SameOrder(p, r - 1.0, e);
  }

  /** The price at which such a trail starts, and one a little better. */
  lemma LooserPeak(t: Terms, tr: Trailing)
    requires SoundTrailing(tr) && Ratchets(t) && CanLoosen(t, tr)
    ensures exists a, b :: Loosens(t, tr, a, b)
  {
    MultiplesInOrder(t, tr);
    hide Loosens, Outruns, Gross, TriggerOf, ActivationOf, GapOf;
    var act := ActivationOf(t, tr);
    LooserAbove(t, tr, act, GapOf(t, tr), if tr.breakEvenTriggerR == 0.0 then 1.0 else (TriggerOf(t, tr) - act) / 2.0);
  }

  lemma LooserAbove(t: Terms, tr: Trailing, act: real, gap: real, d: real)
    requires SoundTrailing(tr) && Ratchets(t) && t.direction.Long? && act >= 0.0 && d > 0.0 && gap > 1.0
    requires act == ActivationOf(t, tr) && gap == GapOf(t, tr)
    requires Outruns(act, gap, t.stopLossPct.value)
    requires tr.breakEvenTriggerR == 0.0 || act + d < TriggerOf(t, tr)
    ensures exists a, b :: Loosens(t, tr, a, b)
  {
    hide Loosens, Gross, Outruns, TriggerOf, ActivationOf, GapOf, InitialStop, TrailLevel;
    var y, x := PriceUp(t, act), PriceUp(t, act + d);
    GrossAt(t, y, act);
    GrossAt(t, x, act + d);
    TrailFalls(t, act, d, gap);
    hide PriceUp;
    LooserPair(t, tr, act, d, y, x);
  }

  /** The price at which a long has gained `f`. */
  function PriceUp(t: Terms, f: real): real
    requires Walkable(t)
  {
    t.entryPrice.value * (1.0 + f)
  }

  lemma TrailFalls(t: Terms, act: real, d: real, gap: real)
    requires Ratchets(t) && t.direction.Long? && d > 0.0 && gap > 1.0 && Outruns(act, gap, t.stopLossPct.value)
    ensures PriceUp(t, act + d) > PriceUp(t, act)
    ensures TrailLevel(t, PriceUp(t, act), gap) > InitialStop(t).level
    ensures TrailLevel(t, PriceUp(t, act + d), gap) < TrailLevel(t, PriceUp(t, act), gap)
  {
    InitialLong(t);
    hide Outruns, InitialStop, ExitLevels;
    WiderFall(t.entryPrice.value, act, d, gap, t.stopLossPct.value, PriceUp(t, act), PriceUp(t, act + d));
  }

  /** Two best prices with the trail active and break-even not, the better one with the lower trail. */
  lemma LooserPair(t: Terms, tr: Trailing, act: real, d: real, y: real, x: real)
    requires SoundTrailing(tr) && Ratchets(t) && t.direction.Long? && d > 0.0 && x > y > 0.0
    requires Gross(t, y) == act == ActivationOf(t, tr) && Gross(t, x) == act + d
    requires tr.breakEvenTriggerR == 0.0 || act + d < TriggerOf(t, tr)
    requires GapOf(t, tr) > 1.0
    requires TrailLevel(t, y, GapOf(t, tr)) > InitialStop(t).level
    requires TrailLevel(t, x, GapOf(t, tr)) < TrailLevel(t, y, GapOf(t, tr))
    ensures Loosens(t, tr, Some(x), Some(y))
  {
    MultiplesInOrder(t, tr);
    hide Gross, ExitLevels, RatchetedStop, InitialStop, TrailLevel, TriggerOf, ActivationOf, GapOf;
    UnbrokenStop(t, y, act, tr);
    UnbrokenStop(t, x, act + d, tr);
  }

  lemma MultiplesInOrder(t: Terms, tr: Trailing)
    requires SoundTrailing(tr) && Ratchets(t)
    ensures ActivationOf(t, tr) >= 0.0 && (GapOf(t, tr) > 0.0 ==> tr.trailDistanceR > 0.0)
    ensures tr.trailActivationR < tr.breakEvenTriggerR <==> ActivationOf(t, tr) < TriggerOf(t, tr)
  {
    SameOrder(0.0, tr.trailActivationR, t.stopLossPct.value);
    SameOrder(0.0, tr.trailDistanceR, t.stopLossPct.value);
    SameOrder(tr.trailActivationR, tr.breakEvenTriggerR, t.stopLossPct.value);
  }

  lemma SameOrder(x: real, y: real, f: real)
    requires f > 0.0
    ensures x < y <==> x * f < y * f
    ensures x == y ==> x * f == y * f
    ensures 0.0 * f == 0.0
  {
    if x < y {
      ScaleLess(x, y, f);
    } else {
      ScaleUp(y, x, f);
    }
  }

  lemma GrossAt(t: Terms, y: real, f: real)
    requires Walkable(t) && t.direction.Long? && y == t.entryPrice.value * (1.0 + f) && f >= 0.0
    ensures Gross(t, y) == f && y > 0.0
  {
    var e := t.entryPrice.value;
    assert y - e == e * f;
    assert e * f / e == f;
    ScaleUp(1.0, 1.0 + f, e);
    assert (1.0 + f) * e == y;
  }

  lemma WiderFall(e: real, act: real, d: real, gap: real, r: real, y: real, x: real)
    requires e > 0.0 && d > 0.0 && gap > 1.0 && Outruns(act, gap, r)
    requires y == e * (1.0 + act) && x == e * (1.0 + (act + d))
    ensures x > y && y * (1.0 - gap) > e * (1.0 - r) && x * (1.0 - gap) < y * (1.0 - gap)
  {
    StartBeats(e, act, gap, r);
    ScaleUp(y, e * (1.0 + act), gap - 1.0);
    ScaleUp(e * (1.0 + act), y, gap - 1.0);
    assert y * (1.0 - gap) == -(y * (gap - 1.0));
    assert e * (1.0 + act) * (1.0 - gap) == -(e * (1.0 + act) * (gap - 1.0));
    var n := e * d;
    assert n > 0.0 && x == y + n;
    ScaleLess(y, x, gap - 1.0);
    assert x * (1.0 - gap) == -(x * (gap - 1.0));
  }

  lemma StartBeats(e: real, act: real, gap: real, r: real)
    requires e > 0.0 && Outruns(act, gap, r)
    ensures e * (1.0 + act) * (1.0 - gap) > e * (1.0 - r)
  {
    var p := (1.0 + act) * (gap - 1.0);
    assert e * (1.0 + act) * (1.0 - gap) == -(e * p);
    assert e * (1.0 - r) == -(e * (r - 1.0));
    ScaleLess(p, r - 1.0, e);
    assert p * e == e * p && (r - 1.0) * e == e * (r - 1.0);
  }

  lemma ScaleLess(x: real, y: real, f: real)
    requires x < y && f > 0.0
    ensures x * f < y * f
  {
  }

  /** Where the trail is active and break-even is not. */
  lemma UnbrokenStop(t: Terms, y: real, f: real, tr: Trailing)
    requires SoundTrailing(tr) && Ratchets(t) && t.direction.Long? && y > 0.0 && Gross(t, y) == f
    requires !BreaksEven(t, f, tr) && Trails(t, f, tr)
    ensures RatchetedStop(t, Some(y), tr) ==
            Some(Tighten(t, InitialStop(t), true, TrailLevel(t, y, GapOf(t, tr)), TrailingStop))
  {
    hide Gross, TrailLevel, ExitLevels;
  }

  /** There are such terms: a stop four times the price away, a trail twice the price behind. */
  lemma WideGapLoosens()
    ensures var t := Terms(Long, Some(1.0), Some(4.0), None);
            var tr := Trailing(0.0, 0.25, 0.5, false, 0.0);
            && SoundTrailing(tr) && CanLoosen(t, tr) && PeakAtLeast(t, Some(3.0), Some(2.0))
            && RatchetedStop(t, Some(2.0), tr) == Some(Rule(-2.0, TrailingStop))
            && RatchetedStop(t, Some(3.0), tr) == Some(Rule(-3.0, StopLoss))
  {
  }

  // ---- The stops the risk layer sets --------------------------------------------------------------

  const FALLBACK_STOP_LOSS_PCT := 0.03
  const FALLBACK_TAKE_PROFIT_PCT := 0.06
  const ATR_STOP_MULTIPLE := 1.5
  const REWARD_RISK_RATIO := 2.0
  const MIN_STOP_LOSS_PCT := 0.01
  const MAX_STOP_LOSS_PCT := 0.08

  function Clamp(x: real, low: real, high: real): real {
    var least := if x >= low then x else low;
    if least <= high then least else high
  }

  /** Stop and target distances from the ticker's recent range, or the fallback when it cannot be computed. */
  function ComputeStopAndTarget(atr: Option<real>, latestClose: Option<real>): (real, real) {
    if atr.None? || latestClose.None? || latestClose.value == 0.0 then
      (FALLBACK_STOP_LOSS_PCT, FALLBACK_TAKE_PROFIT_PCT)
    else
      var stop := Clamp(ATR_STOP_MULTIPLE * (atr.value / latestClose.value), MIN_STOP_LOSS_PCT, MAX_STOP_LOSS_PCT);
      (stop, stop * REWARD_RISK_RATIO)
  }

  /** Whatever the trailing knobs, no better price ever loosens a stop the risk layer set. */
  lemma SetStopsOnlyTighten(t: Terms, tr: Trailing, atr: Option<real>, latestClose: Option<real>)
    requires Walkable(t) && SoundTrailing(tr) && t.stopLossPct == Some(ComputeStopAndTarget(atr, latestClose).0)
    ensures MIN_STOP_LOSS_PCT <= t.stopLossPct.value <= MAX_STOP_LOSS_PCT && Ratchets(t)
    ensures !CanLoosen(t, tr)
    ensures forall a, b :: !Loosens(t, tr, a, b)
  {
    SetStop(atr, latestClose);
    hide ComputeStopAndTarget, Loosens;
    NarrowStop(t, tr);
    hide CanLoosen;
    LoosensIff(t, tr);
  }

  lemma SetStop(atr: Option<real>, latestClose: Option<real>)
    ensures MIN_STOP_LOSS_PCT <= ComputeStopAndTarget(atr, latestClose).0 <= MAX_STOP_LOSS_PCT
  {
  }

  lemma NarrowStop(t: Terms, tr: Trailing)
    requires SoundTrailing(tr) && Ratchets(t) && t.stopLossPct.value < 1.0
    ensures !CanLoosen(t, tr)
  {
    MultiplesInOrder(t, tr);
    hide Outruns, ActivationOf, GapOf;
    NotYetWide(t.stopLossPct.value, ActivationOf(t, tr), GapOf(t, tr));
  }

  lemma NotYetWide(r: real, act: real, gap: real)
    requires 0.0 < r < 1.0
    ensures !(gap > 1.0 && act >= 0.0 && Outruns(act, gap, r))
  {
    if gap > 1.0 && act >= 0.0 {
      ScaleUp(0.0, 1.0 + act, gap - 1.0);
    }
  }
}
