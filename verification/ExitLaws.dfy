/**
 * The exit walk in numbers (src/agents/risk_mgmt/exit_bars.js, trailing.js and src/shared/split_guard.js): where the
 * levels lie, which bar ends a walk and at what price, each said by its gross return on the entry price.
 */
module ExitLaws {
  import opened BarWindow
  import opened Collections
  import opened ExitWalk
  import opened Returns

  // ---- The levels ---------------------------------------------------------------------------

  lemma GrossAt(t: Terms, price: real, g: real)
    requires Walkable(t)
    requires price == if t.direction.Long? then t.entryPrice.value * (1.0 + g) else t.entryPrice.value * (1.0 - g)
    ensures Gross(t, price) == g
  {
    var e := t.entryPrice.value;
    var move := if t.direction.Long? then price - e else e - price;
    assert move == e * g;
    assert move / e == g;
  }

  /** A position can be walked with a direction and a positive entry price; then each set percentage gives its level. */
  lemma LevelsMean(t: Terms)
    ensures ExitLevels(t).None? <==> t.direction.NoDirection? || t.entryPrice.None? || t.entryPrice.value <= 0.0
    ensures ExitLevels(t).Some? ==>
              var l := ExitLevels(t).value;
              && (l.stop.Some? <==> t.stopLossPct.Some?) && (l.target.Some? <==> t.takeProfitPct.Some?)
              && (l.stop.Some? ==> Gross(t, l.stop.value) == -t.stopLossPct.value)
              && (l.target.Some? ==> Gross(t, l.target.value) == t.takeProfitPct.value)
  {
    if ExitLevels(t).Some? {
      var l := ExitLevels(t).value;
      if l.stop.Some? {
        GrossAt(t, l.stop.value, -t.stopLossPct.value);
      }
      if l.target.Some? {
        GrossAt(t, l.target.value, t.takeProfitPct.value);
      }
    }
  }

  /** A better price is one of a higher gross return. */
  lemma GrossOrder(t: Terms, a: real, b: real)
    requires Walkable(t)
    ensures if t.direction.Long? then a > b <==> Gross(t, a) > Gross(t, b) else a < b <==> Gross(t, a) > Gross(t, b)
    ensures a == b <==> Gross(t, a) == Gross(t, b)
  {
    var e := t.entryPrice.value;
    var x, y := if t.direction.Long? then a - e else e - a, if t.direction.Long? then b - e else e - b;
    RatioOrder(x, y, e);
  }

  lemma RatioOrder(x: real, y: real, e: real)
    requires e > 0.0
    ensures x > y <==> x / e > y / e
    ensures x == y <==> x / e == y / e
  {
    var p, q := x / e, y / e;
    assert (p - q) * e == x - y;
  }

  // ---- The stop in force ------------------------------------------------------------------------

  /** The best price so far: the stored peak, or the entry without a usable one. */
  ghost predicate IsBest(t: Terms, peak: Option<real>, best: real) {
    if peak.Some? && peak.value > 0.0 then best == peak.value else Some(best) == t.entryPrice
  }

  /**
   * The stops offered at a best price, R being the initial stop distance: the initial one R below the entry;
   * break-even, which pays for both trades, once the best price has gained its trigger; and the trail, a gap
   * behind the best price, once that has gained its activation.
   */
  ghost predicate Offered(t: Terms, tr: Trailing, best: real, rule: Rule)
    requires Walkable(t) && t.stopLossPct.Some?
  {
    var R := t.stopLossPct.value;
    match rule.reason
    case StopLoss => Gross(t, rule.level) == -R
    case BreakEvenStop =>
      tr.breakEvenTriggerR > 0.0 && Gross(t, best) >= tr.breakEvenTriggerR * R
      && Gross(t, rule.level) == tr.costFraction
    case TrailingStop =>
      && tr.trailDistanceR > 0.0 && Gross(t, best) >= tr.trailActivationR * R
      && best - rule.level ==
           (if t.direction.Long? then best * (tr.trailDistanceR * R) else -(best * (tr.trailDistanceR * R)))
    case _ => false
  }

  /** The order in which equal stops are named. */
  ghost function Rank(reason: Reason): nat {
    match reason case StopLoss => 0 case BreakEvenStop => 1 case _ => 2
  }

  /** The stop in force is the offered one that gives up least, the earlier named of equal ones. */
  ghost predicate Tightest(t: Terms, tr: Trailing, best: real, rule: Rule)
    requires Walkable(t) && t.stopLossPct.Some?
  {
    && Offered(t, tr, best, rule)
    && forall other: Rule :: Offered(t, tr, best, other) ==>
         && Gross(t, other.level) <= Gross(t, rule.level)
         && (Gross(t, other.level) == Gross(t, rule.level) ==> Rank(rule.reason) <= Rank(other.reason))
  }

  /**
   * The stop a bar is judged by: without rules in force, or without a positive stop distance to measure them in, the
   * static stop, if any; else the tightest offered at the best price so far.
   */
  lemma StopMeans(t: Terms, o: Policy, peak: Option<real>)
    requires Walkable(t)
    ensures var rule := StopRule(t, o, peak);
            if o.trailing.None? || t.stopLossPct.None? || t.stopLossPct.value <= 0.0 then
              && (rule.Some? <==> t.stopLossPct.Some?)
              && (rule.Some? ==> rule.value.reason == StopLoss && Gross(t, rule.value.level) == -t.stopLossPct.value)
            else
              rule.Some? && forall best :: IsBest(t, peak, best) ==> Tightest(t, o.trailing.value, best, rule.value)
  {
    LevelsMean(t);
    if o.trailing.Some? && t.stopLossPct.Some? && t.stopLossPct.value > 0.0 {
      RatchetMeans(t, PeakOrEntry(t, peak), o.trailing.value);
    }
  }

  lemma RatchetMeans(t: Terms, best: real, tr: Trailing)
    requires Walkable(t) && t.stopLossPct.Some? && t.stopLossPct.value > 0.0
    ensures Tightest(t, tr, best, StopAt(t, best, Gross(t, best), tr))
  {
    var init, even, trail := InitialStop(t).level, BreakEvenLevel(t, tr), TrailLevel(t, best, GapOf(t, tr));
    LevelsMean(t);
    OffersMean(t, tr, best);
    var rule := StopAt(t, best, Gross(t, best), tr);
    GrossOrder(t, even, init);
    GrossOrder(t, trail, init);
    GrossOrder(t, trail, even);
    hide Gross, TrailLevel, BreakEvenLevel, ExitLevels, BreaksEven, Trails, Offered;
    forall other: Rule | Offered(t, tr, best, other)
      ensures Gross(t, other.level) <= Gross(t, rule.level)
      ensures Gross(t, other.level) == Gross(t, rule.level) ==> Rank(rule.reason) <= Rank(other.reason)
    {
      OfferIs(t, tr, best, other);
    }
  }

  /** The three levels the code computes are the offers that apply. */
  lemma OffersMean(t: Terms, tr: Trailing, best: real)
    requires Ratchets(t)
    ensures Offered(t, tr, best, InitialStop(t))
    ensures BreaksEven(t, Gross(t, best), tr) <==>
            Offered(t, tr, best, Rule(BreakEvenLevel(t, tr), BreakEvenStop))
    ensures Trails(t, Gross(t, best), tr) <==>
            Offered(t, tr, best, Rule(TrailLevel(t, best, GapOf(t, tr)), TrailingStop))
  {
    LevelsMean(t);
    GrossAt(t, BreakEvenLevel(t, tr), tr.costFraction);
    TrailIsBehind(t, best, GapOf(t, tr));
    hide Gross, TrailLevel, BreakEvenLevel, ExitLevels;
  }

  lemma TrailIsBehind(t: Terms, best: real, gap: real)
    ensures best - TrailLevel(t, best, gap) == if t.direction.Long? then best * gap else -(best * gap)
  {
  }

  /** No other level is on offer. */
  lemma OfferIs(t: Terms, tr: Trailing, best: real, other: Rule)
    requires Ratchets(t) && Offered(t, tr, best, other)
    ensures match other.reason
            case StopLoss => other.level == InitialStop(t).level
            case BreakEvenStop => BreaksEven(t, Gross(t, best), tr) && other.level == BreakEvenLevel(t, tr)
            case TrailingStop => Trails(t, Gross(t, best), tr) && other.level == TrailLevel(t, best, GapOf(t, tr))
            case _ => false
  {
    hide Gross, TrailLevel, BreakEvenLevel, ExitLevels;
    match other.reason
    case StopLoss =>
      LevelsMean(t);
      GrossOrder(t, other.level, InitialStop(t).level);
    case BreakEvenStop =>
      GrossIsEven(t, tr);
      GrossOrder(t, other.level, BreakEvenLevel(t, tr));
    case TrailingStop =>
      TrailIsBehind(t, best, GapOf(t, tr));
    case _ =>
  }

  lemma GrossIsEven(t: Terms, tr: Trailing)
    requires Walkable(t)
    ensures Gross(t, BreakEvenLevel(t, tr)) == tr.costFraction
  {
    GrossAt(t, BreakEvenLevel(t, tr), tr.costFraction);
  }

  /** The target stands unless the trail is the stop in force and the policy lets winners run. */
  lemma TargetMeans(t: Terms, o: Policy, peak: Option<real>)
    requires Walkable(t)
    ensures var rule, target := StopRule(t, o, peak), TargetLevel(t, o, peak);
            if t.takeProfitPct.None?
               || (o.trailing.Some? && o.trailing.value.trailRemovesTarget
                   && rule.Some? && rule.value.reason == TrailingStop)
            then target.None?
            else target.Some? && Gross(t, target.value) == t.takeProfitPct.value
  {
    LevelsMean(t);
    hide StopRule, Gross;
  }

  // ---- The split guard --------------------------------------------------------------------------

  ghost predicate Near(expected: real, seen: real, tolerance: real) {
    expected * (1.0 - tolerance) <= seen <= expected * (1.0 + tolerance)
  }

  /** The price is `factor` times smaller than the entry, or larger for a reverse split, within the tolerance. */
  ghost predicate NearFactor(entry: real, price: real, tolerance: real, factor: real, reverse: bool) {
    if reverse then Near(entry * factor, price, tolerance) else Near(entry, price * factor, tolerance)
  }

  lemma {:induction false} FactorMeans(entry: real, price: real, ratio: real, tolerance: real, factors: seq<Factor>)
    requires entry > 0.0 && ratio * entry == price
    ensures var r := FirstFactor(ratio, tolerance, factors);
            if r.Some? then
              && (exists f: Factor :: f in factors && f == r.value.factor)
              && NearFactor(entry, price, tolerance, r.value.factor, r.value.reverse)
              && r.value.ratio == ratio
            else forall f: Factor, reverse :: f in factors ==> !NearFactor(entry, price, tolerance, f, reverse)
  {
    hide Matches, NearFactor;
    if factors != [] {
      var f := factors[0];
      Forward(entry, price, ratio, tolerance, f);
      Reverse(entry, price, ratio, tolerance, f);
      FactorMeans(entry, price, ratio, tolerance, factors[1..]);
      assert f in factors && forall g :: g in factors <==> g == f || g in factors[1..];
    }
  }

  lemma Forward(entry: real, price: real, ratio: real, tolerance: real, f: Factor)
    requires entry > 0.0 && ratio * entry == price
    ensures Matches(ratio, f, false, tolerance) <==> NearFactor(entry, price, tolerance, f, false)
  {
    var up := ratio * f;
    assert up * entry == price * f;
    RatioIsNear(up, entry, price * f, tolerance);
  }

  lemma Reverse(entry: real, price: real, ratio: real, tolerance: real, f: Factor)
    requires entry > 0.0 && ratio * entry == price
    ensures Matches(ratio, f, true, tolerance) <==> NearFactor(entry, price, tolerance, f, true)
  {
    var down := ratio / f;
    assert down * f == ratio;
    assert down * (entry * f) == (down * f) * entry;
    RatioIsNear(down, entry * f, price, tolerance);
  }

  lemma RatioIsNear(ratio: real, expected: real, seen: real, tolerance: real)
    requires expected > 0.0 && ratio * expected == seen
    ensures -tolerance <= ratio - 1.0 <= tolerance <==> Near(expected, seen, tolerance)
  {
    var above, below := tolerance - (ratio - 1.0), tolerance + (ratio - 1.0);
    assert above * expected == expected * (1.0 + tolerance) - seen;
    assert below * expected == seen - expected * (1.0 - tolerance);
    SignOfProduct(above, expected);
    SignOfProduct(below, expected);
  }

  lemma SignOfProduct(x: real, scale: real)
    requires scale > 0.0
    ensures x * scale >= 0.0 <==> x >= 0.0
  {
  }

  ghost const COMMON_FACTORS: seq<Factor> := [2.0, 3.0, 4.0, 5.0, 10.0]

  /** A jump is suspected exactly when the guard is on and the price lies near a common factor of the entry. */
  lemma SplitMeans(entry: Option<real>, price: Option<real>, tolerance: real)
    ensures var r := DetectSplitJump(entry, price, tolerance);
            if tolerance > 0.0 && entry.Some? && price.Some? && entry.value > 0.0 && price.value > 0.0 then
              && (r.None? ==> forall f: Factor, reverse :: f in COMMON_FACTORS ==>
                                !NearFactor(entry.value, price.value, tolerance, f, reverse))
              && (r.Some? ==>
                    && (exists f: Factor :: f in COMMON_FACTORS && f == r.value.factor)
                    && NearFactor(entry.value, price.value, tolerance, r.value.factor, r.value.reverse)
                    && r.value.ratio == price.value / entry.value)
            else r.None?
  {
    if tolerance > 0.0 && entry.Some? && price.Some? && entry.value > 0.0 && price.value > 0.0 {
      FactorMeans(entry.value, price.value, price.value / entry.value, tolerance, SPLIT_FACTORS);
      hide NearFactor, FirstFactor;
    }
  }

  // ---- The bar that ends a walk -------------------------------------------------------------------

  /** The bar's four prices, in order of open, high, low and close; any other bar is invalid. */
  ghost predicate HasPrices(b: Bar, open: real, high: real, low: real, close: real) {
    b.px == Ohlc(Some(open), Some(high), Some(low), Some(close)) && low <= high
  }

  lemma PricesMean(b: Bar)
    ensures IsFiniteBar(b) <==> exists open, high, low, close :: HasPrices(b, open, high, low, close)
  {
    if IsFiniteBar(b) {
      assert HasPrices(b, b.px.open.value, b.px.high.value, b.px.low.value, b.px.close.value);
    }
  }

  /** A valid bar that opens or closes near a common factor of the entry price. */
  ghost predicate LooksSplit(t: Terms, o: Policy, b: Bar)
    requires Walkable(t)
  {
    && o.splitTolerance > 0.0
    && exists f: Factor, reverse, price ::
         && f in COMMON_FACTORS && (b.px.open == Some(price) || b.px.close == Some(price)) && price > 0.0
         && NearFactor(t.entryPrice.value, price, o.splitTolerance, f, reverse)
  }

  lemma SuspectMeans(t: Terms, o: Policy, b: Bar)
    requires Walkable(t)
    ensures SplitOf(t, o, b).Some? <==> LooksSplit(t, o, b)
  {
    hide NearFactor;
    SplitMeans(t.entryPrice, b.px.open, o.splitTolerance);
    SplitMeans(t.entryPrice, b.px.close, o.splitTolerance);
    hide DetectSplitJump;
  }

  /** Some price in the bar's range has a gross return that low, or that high. */
  ghost predicate FellTo(t: Terms, b: Bar, gain: real)
    requires Walkable(t) && IsFiniteBar(b)
  {
    exists price :: b.px.low.value <= price <= b.px.high.value && Gross(t, price) <= gain
  }

  ghost predicate RoseTo(t: Terms, b: Bar, gain: real)
    requires Walkable(t) && IsFiniteBar(b)
  {
    exists price :: b.px.low.value <= price <= b.px.high.value && Gross(t, price) >= gain
  }

  lemma TouchMeans(t: Terms, b: Bar, level: real)
    requires Walkable(t) && IsFiniteBar(b)
    ensures StopTouched(t, b, Some(Rule(level, StopLoss))) <==> FellTo(t, b, Gross(t, level))
    ensures TargetTouched(t, b, Some(level)) <==> RoseTo(t, b, Gross(t, level))
  {
    var low, high := b.px.low.value, b.px.high.value;
    GrossOrder(t, low, level);
    GrossOrder(t, high, level);
    if FellTo(t, b, Gross(t, level)) {
      var price :| low <= price <= high && Gross(t, price) <= Gross(t, level);
      GrossOrder(t, price, level);
    }
    if RoseTo(t, b, Gross(t, level)) {
      var price :| low <= price <= high && Gross(t, price) >= Gross(t, level);
      GrossOrder(t, price, level);
    }
    assert low <= low <= high && low <= high <= high;
    hide Gross;
  }

  /**
   * From the open the price reaches the target before the stop: it opened past it, or nearer to it, and not
   * stopped.
   */
  ghost predicate OpensNearer(open: real, stop: real, target: real) {
    open > stop && (open >= target || target - open < open - stop)
  }

  lemma NearerMeans(t: Terms, open: real, stop: real, target: real)
    requires Walkable(t)
    ensures TargetResolvesFirst(t.direction.Long?, open, stop, target)
       <==> OpensNearer(Gross(t, open), Gross(t, stop), Gross(t, target))
  {
    GrossOrder(t, open, stop);
    GrossOrder(t, open, target);
    var e := t.entryPrice.value;
    var x, s, g := Gross(t, open), Gross(t, stop), Gross(t, target);
    GrossSpan(t, open, stop);
    GrossSpan(t, target, open);
    var ahead, behind := g - x, x - s;
    RatioOrder(ahead * e, behind * e, e);
    assert ahead * e / e == ahead && behind * e / e == behind;
    hide Gross;
  }

  lemma GrossSpan(t: Terms, a: real, b: real)
    requires Walkable(t)
    ensures (Gross(t, a) - Gross(t, b)) * t.entryPrice.value == if t.direction.Long? then a - b else b - a
  {
    var e := t.entryPrice.value;
    assert Gross(t, a) * e == if t.direction.Long? then a - e else e - a;
    assert Gross(t, b) * e == if t.direction.Long? then b - e else e - b;
  }

  /** The exit a bar gives when the stop in force, the target, or both were touched. */
  ghost predicate Exits(t: Terms, o: Policy, b: Bar, rule: Option<Rule>, target: Option<real>, e: Exit)
    requires Walkable(t) && IsFiniteBar(b)
  {
    var open := Gross(t, b.px.open.value);
    var stopped := rule.Some? && FellTo(t, b, Gross(t, rule.value.level));
    var won := target.Some? && RoseTo(t, b, Gross(t, target.value));
    var first := o.nearestOpen && b.kind.Daily? && stopped && won
                 && OpensNearer(open, Gross(t, rule.value.level), Gross(t, target.value));
    && e.closedAt == b.availableAt && e.barKind == b.kind && e.barOpenMs == b.openMs
    && (e.ambiguous <==> stopped && won && b.kind.Daily?)
    && if stopped && !first then
      && e.reason == rule.value.reason && (e.gapped <==> open < Gross(t, rule.value.level))
      && e.exitPrice == (if e.gapped then b.px.open.value else rule.value.level)
    else
      && won && e.reason == TakeProfit && (e.gapped <==> open > Gross(t, target.value))
      && e.exitPrice == (if e.gapped then b.px.open.value else target.value)
  }

  /**
   * What one bar does to a walk: an invalid one only counts, a suspected split halts it, a bar whose range reached the
   * stop in force or the target exits, and every other bar lets it go on.
   */
  lemma BarMeans(t: Terms, o: Policy, p: Progress, b: Bar)
    requires Walkable(t)
    ensures var rule, target, w := StopRule(t, o, p.peak), TargetLevel(t, o, p.peak), StepBar(t, o, p, b);
            if !IsFiniteBar(b) then w.Going?
            else if LooksSplit(t, o, b) then w.Halted? && w.p == p
            else if (rule.Some? && FellTo(t, b, Gross(t, rule.value.level)))
                    || (target.Some? && RoseTo(t, b, Gross(t, target.value))) then
              w.Exited? && Exits(t, o, b, rule, target, w.exit)
            else w.Going?
  {
    SuspectMeans(t, o, b);
    if IsFiniteBar(b) && !LooksSplit(t, o, b) {
      var rule, target, open := StopRule(t, o, p.peak), TargetLevel(t, o, p.peak), b.px.open.value;
      if rule.Some? {
        TouchMeans(t, b, rule.value.level);
        GrossOrder(t, open, rule.value.level);
      }
      if target.Some? {
        TouchMeans(t, b, target.value);
        GrossOrder(t, open, target.value);
        if rule.Some? {
          NearerMeans(t, open, rule.value.level, target.value);
        }
      }
      hide Gross, LooksSplit, FellTo, RoseTo, OpensNearer, TargetResolvesFirst, StopRule, TargetLevel, SplitOf,
           AfterBar;
    }
  }

  // ---- Whole walks ---------------------------------------------------------------------------------

  /** A walk goes on bar by bar and is over at the first bar that ends it. */
  lemma WalkStops(t: Terms, o: Policy, p: Progress, bars: seq<Bar>, k: nat)
    requires Walkable(t) && k < |bars| && Walk(t, o, p, bars[..k]).Going?
    ensures var w := StepBar(t, o, Walk(t, o, p, bars[..k]).p, bars[k]);
            if w.Going? then Walk(t, o, p, bars[..k + 1]) == w else Walk(t, o, p, bars) == w
  {
    hide StepBar;
    var q := Walk(t, o, p, bars[..k]).p;
    assert bars[..k + 1] == bars[..k] + [bars[k]];
    assert bars == bars[..k + 1] + bars[k + 1..];
    WalkConcat(t, o, p, bars[..k], [bars[k]]);
    WalkConcat(t, o, p, bars[..k + 1], bars[k + 1..]);
    assert [bars[k]][1..] == [];
    assert Walk(t, o, q, [bars[k]]) == StepBar(t, o, q, bars[k]) by {
      var w := StepBar(t, o, q, [bars[k]][0]);
      assert w.Going? ==> Walk(t, o, w.p, [bars[k]][1..]) == w;
    }
  }

  ghost predicate LosesStop(t: Terms, b: Bar)
    requires Walkable(t) && IsFiniteBar(b)
  {
    t.stopLossPct.Some? && FellTo(t, b, -t.stopLossPct.value)
  }

  ghost predicate GainsTarget(t: Terms, b: Bar)
    requires Walkable(t) && IsFiniteBar(b)
  {
    t.takeProfitPct.Some? && RoseTo(t, b, t.takeProfitPct.value)
  }

  /**
   * An exit without break-even or trailing, in gross returns: a stop at exactly minus the stop percentage, or
   * worse when the bar opened beyond it and then at the open; a target at exactly its percentage, or better in
   * the same way. A bar that did both is a stop, unless it is a daily bar that opened nearer to the target and
   * the policy says so.
   */
  ghost predicate StaticExit(t: Terms, o: Policy, b: Bar, e: Exit)
    requires Walkable(t) && IsFiniteBar(b)
  {
    var open, gain := Gross(t, b.px.open.value), Gross(t, e.exitPrice);
    var both := LosesStop(t, b) && GainsTarget(t, b);
    && e.closedAt == b.availableAt && e.barKind == b.kind && e.barOpenMs == b.openMs
    && (e.ambiguous <==> both && b.kind.Daily?)
    && (e.gapped ==> e.exitPrice == b.px.open.value)
    && match e.reason
       case StopLoss =>
         && LosesStop(t, b) && (e.gapped <==> open < -t.stopLossPct.value)
         && (if e.gapped then gain < -t.stopLossPct.value else gain == -t.stopLossPct.value)
         && (both ==> !(o.nearestOpen && b.kind.Daily?
                        && OpensNearer(open, -t.stopLossPct.value, t.takeProfitPct.value)))
       case TakeProfit =>
         && GainsTarget(t, b) && (e.gapped <==> open > t.takeProfitPct.value)
         && (if e.gapped then gain > t.takeProfitPct.value else gain == t.takeProfitPct.value)
         && (both ==> o.nearestOpen && b.kind.Daily?
                      && OpensNearer(open, -t.stopLossPct.value, t.takeProfitPct.value))
       case _ => false
  }

  lemma StaticBarMeans(t: Terms, o: Policy, p: Progress, b: Bar)
    requires Walkable(t) && o.trailing.None?
    ensures var w := StepBar(t, o, p, b);
            if !IsFiniteBar(b) then w.Going?
            else if LooksSplit(t, o, b) then w.Halted?
            else if LosesStop(t, b) || GainsTarget(t, b) then w.Exited? && StaticExit(t, o, b, w.exit)
            else w.Going?
  {
    BarMeans(t, o, p, b);
    StopMeans(t, o, p.peak);
    TargetMeans(t, o, p.peak);
    hide Gross, StopRule, TargetLevel, StepBar, LooksSplit, FellTo, RoseTo, OpensNearer;
  }

  /** A bar that lets a walk without trailing go on. */
  ghost predicate Passes(t: Terms, o: Policy, b: Bar)
    requires Walkable(t)
  {
    IsFiniteBar(b) ==> !LooksSplit(t, o, b) && !LosesStop(t, b) && !GainsTarget(t, b)
  }

  /**
   * The walk without break-even or trailing, in numbers: it goes on while no bar reaches the stop or the target
   * and none looks split, halts at the first that looks split and exits at the first that reached one.
   */
  lemma {:induction false} StaticWalkMeans(t: Terms, o: Policy, p: Progress, bars: seq<Bar>, k: nat)
    requires Walkable(t) && o.trailing.None? && k <= |bars|
    requires forall i :: 0 <= i < k ==> Passes(t, o, bars[i])
    ensures Walk(t, o, p, bars[..k]).Going?
    ensures k < |bars| && !Passes(t, o, bars[k]) ==>
              if LooksSplit(t, o, bars[k]) then Walk(t, o, p, bars).Halted?
              else Walk(t, o, p, bars).Exited? && StaticExit(t, o, bars[k], Walk(t, o, p, bars).exit)
  {
    hide Passes, StaticExit, LooksSplit, StepBar;
    if k > 0 {
      StaticWalkMeans(t, o, p, bars, k - 1);
      WalkStops(t, o, p, bars, k - 1);
      StaticStepOn(t, o, Walk(t, o, p, bars[..k - 1]).p, bars[k - 1]);
    } else {
      assert bars[..0] == [];
    }
    if k < |bars| {
      WalkStops(t, o, p, bars, k);
      StaticStepOn(t, o, Walk(t, o, p, bars[..k]).p, bars[k]);
    }
  }

  lemma StaticStepOn(t: Terms, o: Policy, p: Progress, b: Bar)
    requires Walkable(t) && o.trailing.None?
    ensures Passes(t, o, b) ==> StepBar(t, o, p, b).Going?
    ensures !Passes(t, o, b) ==>
              if LooksSplit(t, o, b) then StepBar(t, o, p, b).Halted?
              else IsFiniteBar(b) && StepBar(t, o, p, b).Exited? && StaticExit(t, o, b, StepBar(t, o, p, b).exit)
  {
    StaticBarMeans(t, o, p, b);
    hide StepBar, StaticExit, LooksSplit, LosesStop, GainsTarget;
  }

  // ---- What the walk carries ----------------------------------------------------------------------------

  /** Of a bar's two ends one is its worst price and the other its best. */
  lemma EndsMean(t: Terms, b: Bar)
    requires Walkable(t) && IsFiniteBar(b)
    ensures var worst, best := Adverse(t, b), Favorable(t, b);
            && ((worst == b.px.low.value && best == b.px.high.value)
                || (worst == b.px.high.value && best == b.px.low.value))
            && Gross(t, worst) <= Gross(t, best)
  {
    GrossOrder(t, b.px.low.value, b.px.high.value);
    hide Gross;
  }

  /** The worst and the best gross return in an open walk's valid bars, and of what it started with. */
  lemma ExcursionsMean(t: Terms, o: Policy, p: Progress, bars: seq<Bar>)
    requires Walkable(t) && Walk(t, o, p, bars).Going?
    ensures var q := Walk(t, o, p, bars).p;
            && (p.mae.Some? ==> q.mae.Some? && q.mae.value <= p.mae.value)
            && (p.mfe.Some? ==> q.mfe.Some? && q.mfe.value >= p.mfe.value)
            && (forall b :: b in bars && IsFiniteBar(b) ==>
                  && q.mae.Some? && q.mae.value <= Gross(t, b.px.low.value) && q.mae.value <= Gross(t, b.px.high.value)
                  && q.mfe.Some? && q.mfe.value >= Gross(t, b.px.low.value) && q.mfe.value >= Gross(t, b.px.high.value))
            && (q.mae == p.mae || exists b :: b in bars && IsFiniteBar(b)
                                    && (q.mae == Some(Gross(t, b.px.low.value))
                                        || q.mae == Some(Gross(t, b.px.high.value))))
            && (q.mfe == p.mfe || exists b :: b in bars && IsFiniteBar(b)
                                    && (q.mfe == Some(Gross(t, b.px.low.value))
                                        || q.mfe == Some(Gross(t, b.px.high.value))))
  {
    ExcursionsAreTheExtremes(t, o, p, bars);
    forall b | b in bars && IsFiniteBar(b)
      ensures Gross(t, Adverse(t, b)) <= Gross(t, b.px.low.value)
              && Gross(t, Adverse(t, b)) <= Gross(t, b.px.high.value)
      ensures Gross(t, Favorable(t, b)) >= Gross(t, b.px.low.value)
              && Gross(t, Favorable(t, b)) >= Gross(t, b.px.high.value)
      ensures Adverse(t, b) == b.px.low.value || Adverse(t, b) == b.px.high.value
      ensures Favorable(t, b) == b.px.low.value || Favorable(t, b) == b.px.high.value
    {
      EndsMean(t, b);
    }
    hide Gross, Walk, IsFiniteBar, Adverse, Favorable;
  }

  /**
   * What an exit records: the excursion on its own side is the worse, or better, of what came before, of
   * nothing, and of the fill; on the other side the exit bar counts whole.
   */
  ghost predicate RecordsExit(t: Terms, p: Progress, b: Bar, w: Walked)
    requires Walkable(t) && IsFiniteBar(b) && w.Exited?
  {
    var fill, low, high := Gross(t, w.exit.exitPrice), Gross(t, b.px.low.value), Gross(t, b.px.high.value);
    && w.p.mae.Some? && w.p.mfe.Some?
    && if w.exit.reason.TakeProfit? then
         && IsMost(w.p.mfe.value, if p.mfe.Some? then p.mfe.value else 0.0, fill)
         && (p.mae.Some? ==> w.p.mae.value <= p.mae.value) && w.p.mae.value <= low && w.p.mae.value <= high
         && (w.p.mae == p.mae || w.p.mae.value == low || w.p.mae.value == high)
       else
         && IsMost(-w.p.mae.value, if p.mae.Some? then -p.mae.value else 0.0, -fill)
         && (p.mfe.Some? ==> w.p.mfe.value >= p.mfe.value) && w.p.mfe.value >= low && w.p.mfe.value >= high
         && (w.p.mfe == p.mfe || w.p.mfe.value == low || w.p.mfe.value == high)
  }

  ghost predicate IsMost(x: real, a: real, b: real) {
    x >= a && x >= b && (x == a || x == b)
  }

  lemma ExitRecords(t: Terms, o: Policy, p: Progress, b: Bar)
    requires Walkable(t) && StepBar(t, o, p, b).Exited?
    ensures IsFiniteBar(b) && RecordsExit(t, p, b, StepBar(t, o, p, b))
  {
    ExitCapped(t, o, p, b);
    EndsMean(t, b);
    hide Gross, StepBar, IsFiniteBar, Adverse, Favorable;
  }

  ghost predicate IsLastValid(bars: seq<Bar>, k: int) {
    0 <= k < |bars| && IsFiniteBar(bars[k]) && forall j :: k < j < |bars| ==> !IsFiniteBar(bars[j])
  }

  /** What an open walk has counted, where its cursor is and the last price it saw. */
  lemma {:induction false} CountsMean(t: Terms, o: Policy, p: Progress, bars: seq<Bar>)
    requires Walkable(t) && Walk(t, o, p, bars).Going?
    ensures var q := Walk(t, o, p, bars).p;
            && q.barsWalked == p.barsWalked + |bars|
            && q.invalidBars == p.invalidBars + |Filter(bars, (b: Bar) => !IsFiniteBar(b))|
            && q.lastBarAvailableAt == (if bars == [] then p.lastBarAvailableAt else Some(bars[|bars| - 1].availableAt))
            && (forall k :: IsLastValid(bars, k) ==> q.lastClose == bars[k].px.close)
            && ((forall b :: b in bars ==> !IsFiniteBar(b)) ==> q.lastClose == p.lastClose)
    decreases |bars|
  {
    hide IsFiniteBar;
    if bars != [] {
      var n := |bars| - 1;
      var last := bars[n];
      assert bars == bars[..n] + [last];
      WalkConcat(t, o, p, bars[..n], [last]);
      CountsMean(t, o, p, bars[..n]);
      WalkStops(t, o, p, bars, n);
      StepCounts(t, o, Walk(t, o, p, bars[..n]).p, last);
      FilterNext(bars, n, (b: Bar) => !IsFiniteBar(b));
      assert bars[..n + 1] == bars && last in bars && forall b :: b in bars[..n] ==> b in bars;
      hide Walk, StepBar;
    }
  }

  lemma StepCounts(t: Terms, o: Policy, p: Progress, b: Bar)
    requires Walkable(t) && StepBar(t, o, p, b).Going?
    ensures var q := StepBar(t, o, p, b).p;
            && q.barsWalked == p.barsWalked + 1 && q.lastBarAvailableAt == Some(b.availableAt)
            && q.invalidBars == p.invalidBars + (if IsFiniteBar(b) then 0 else 1)
            && q.lastClose == if IsFiniteBar(b) then b.px.close else p.lastClose
  {
    hide StopHit, TargetHit, SplitOf, BetterPeak, Gross;
  }

  /** The peak an open walk with rules in force has reached: the best of its start, the entry and its valid bars. */
  ghost predicate BestOf(t: Terms, from: Option<real>, bars: seq<Bar>, peak: Option<real>)
    requires Walkable(t)
  {
    && (from.Some? ==> peak.Some? && Gross(t, peak.value) >= Gross(t, from.value))
    && (forall b :: b in bars && IsFiniteBar(b) ==>
          && peak.Some? && Gross(t, peak.value) >= Gross(t, t.entryPrice.value)
          && Gross(t, peak.value) >= Gross(t, b.px.low.value) && Gross(t, peak.value) >= Gross(t, b.px.high.value))
    && (peak == from || peak == t.entryPrice
        || exists b :: b in bars && IsFiniteBar(b) && (peak == b.px.low || peak == b.px.high))
  }

  lemma {:induction false} PeakMeans(t: Terms, o: Policy, p: Progress, bars: seq<Bar>)
    requires Walkable(t) && Walk(t, o, p, bars).Going?
    ensures if o.trailing.Some? then BestOf(t, p.peak, bars, Walk(t, o, p, bars).p.peak)
            else Walk(t, o, p, bars).p.peak == p.peak
    decreases |bars|
  {
    if bars != [] {
      var q := StepBar(t, o, p, bars[0]).p;
      StepPeak(t, o, p, bars[0]);
      PeakMeans(t, o, q, bars[1..]);
      hide StepBar, Gross, IsFiniteBar, BetterPeak;
      assert bars == [bars[0]] + bars[1..];
      assert forall b :: b in bars <==> b in [bars[0]] || b in bars[1..];
    }
  }

  lemma StepPeak(t: Terms, o: Policy, p: Progress, b: Bar)
    requires Walkable(t) && StepBar(t, o, p, b).Going?
    ensures if o.trailing.Some? then BestOf(t, p.peak, [b], StepBar(t, o, p, b).p.peak)
            else StepBar(t, o, p, b).p.peak == p.peak
  {
    if IsFiniteBar(b) && o.trailing.Some? {
      EndsMean(t, b);
      var best := Some(Favorable(t, b));
      PeakOfTwo(t, p.peak, best);
      PeakOfTwo(t, BetterPeak(t.direction, p.peak, best), t.entryPrice);
      assert b in [b];
      hide StopHit, TargetHit, SplitOf, BetterPeak, Gross, Adverse, Favorable;
    }
  }

  /** The better of two prices is the one of the higher gross return; a missing one loses. */
  lemma PeakOfTwo(t: Terms, a: Option<real>, b: Option<real>)
    requires Walkable(t)
    ensures var best := BetterPeak(t.direction, a, b);
            && (best == a || best == b) && (best.None? ==> a.None? && b.None?)
            && (a.Some? ==> Gross(t, best.value) >= Gross(t, a.value))
            && (b.Some? ==> Gross(t, best.value) >= Gross(t, b.value))
  {
    if a.Some? && b.Some? {
      GrossOrder(t, a.value, b.value);
      hide Gross;
    }
  }

  /** A walk starts from the stored peak while rules are in force and that is a price, and else from none. */
  lemma StartMeans(o: Policy, storedPeak: Option<real>)
    ensures var p := Start(o, storedPeak);
            && p == Progress(p.peak, None, None, None, None, 0, 0)
            && forall x :: p.peak == Some(x) <==> storedPeak == Some(x) && x > 0.0 && o.trailing.Some?
  {
  }
}
