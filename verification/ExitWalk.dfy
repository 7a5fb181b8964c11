/**
 * The price-exit walk of one position (src/agents/risk_mgmt/exit_bars.js, trailing.js and
 * src/shared/split_guard.js): bars oldest first, the first bar that touches the stop or the target ends it.
 */
module ExitWalk {
  import opened BarWindow
  import opened Collections
  import opened Returns

  /** What a position fixed at its opening. */
  datatype Terms = Terms(direction: Direction, entryPrice: Option<real>, stopLossPct: Option<real>,
                         takeProfitPct: Option<real>)

  datatype Reason = StopLoss | TakeProfit | TimeBased | BreakEvenStop | TrailingStop

  datatype Levels = Levels(stop: Option<real>, target: Option<real>)

  predicate Walkable(t: Terms) {
    !t.direction.NoDirection? && t.entryPrice.Some? && t.entryPrice.value > 0.0
  }

  function ExitLevels(t: Terms): Option<Levels> {
    if !Walkable(t) then None
    else
      var e := t.entryPrice.value;
      var sign := if t.direction.Long? then 1.0 else -1.0;
      Some(Levels(
             if t.stopLossPct.Some? then Some(e * (1.0 - sign * t.stopLossPct.value)) else None,
             if t.takeProfitPct.Some? then Some(e * (1.0 + sign * t.takeProfitPct.value)) else None))
  }

  /** Direction-aware gross return at a price. */
  function Gross(t: Terms, price: real): real
    requires Walkable(t)
  {
    GrossReturn(t.direction, t.entryPrice.value, price)
  }

  // ---- Break-even and trailing stop -----------------------------------------------------

  datatype Knobs = Knobs(breakEvenTriggerR: Option<real>, trailActivationR: Option<real>, trailDistanceR: Option<real>,
                         trailRemovesTarget: bool, tradeCostBps: Option<real>)

  datatype Trailing = Trailing(breakEvenTriggerR: real, trailActivationR: real, trailDistanceR: real,
                               trailRemovesTarget: bool, costFraction: real)

  function Positive(x: Option<real>): real {
    if IsOn(x) then x.value else 0.0
  }

  predicate IsOn(x: Option<real>) {
    x.Some? && x.value > 0.0
  }

  /** The rules in force, or None when neither break-even nor trailing is on. */
  function ResolveTrailingConfig(k: Knobs): (r: Option<Trailing>)
    ensures r.Some? <==> IsOn(k.breakEvenTriggerR) || (IsOn(k.trailActivationR) && IsOn(k.trailDistanceR))
    ensures r.Some? ==> SoundTrailing(r.value)
    ensures r.Some? ==> (r.value.trailDistanceR > 0.0 <==> IsOn(k.trailActivationR) && IsOn(k.trailDistanceR))
    ensures forall x: real :: x > 0.0 && k.breakEvenTriggerR == Some(x) ==> r.Some? && r.value.breakEvenTriggerR == x
    ensures forall x: real, y: real ::
              x > 0.0 && y > 0.0 && k.trailActivationR == Some(x) && k.trailDistanceR == Some(y) ==>
                && r.Some? && r.value.trailActivationR == x && r.value.trailDistanceR == y
                && r.value.trailRemovesTarget == k.trailRemovesTarget
    ensures r.Some? && r.value.breakEvenTriggerR != 0.0 ==> k.breakEvenTriggerR == Some(r.value.breakEvenTriggerR)
    ensures r.Some? && r.value.trailDistanceR != 0.0 ==>
              && k.trailDistanceR == Some(r.value.trailDistanceR) && r.value.trailActivationR > 0.0
              && k.trailActivationR == Some(r.value.trailActivationR)
    ensures r.Some? && r.value.trailDistanceR == 0.0 ==> r.value.trailActivationR == 0.0 && !r.value.trailRemovesTarget
    ensures r.Some? ==> r.value.costFraction * 5000.0
                        == if k.tradeCostBps.Some? && k.tradeCostBps.value > 0.0 then k.tradeCostBps.value else 0.0
  {
    var breakEven, activation, distance :=
          Positive(k.breakEvenTriggerR), Positive(k.trailActivationR), Positive(k.trailDistanceR);
    var on := activation > 0.0 && distance > 0.0;
    if breakEven == 0.0 && !on then None
    else
      Some(Trailing(breakEven, if on then activation else 0.0, if on then distance else 0.0,
                    on && k.trailRemovesTarget, RoundTripCostFraction(k.tradeCostBps)))
  }

  predicate SoundTrailing(tr: Trailing) {
    && tr.breakEvenTriggerR >= 0.0 && tr.trailActivationR >= 0.0 && tr.trailDistanceR >= 0.0 && tr.costFraction >= 0.0
    && (tr.trailActivationR > 0.0 <==> tr.trailDistanceR > 0.0)
    && (tr.breakEvenTriggerR > 0.0 || tr.trailDistanceR > 0.0)
  }

  datatype Rule = Rule(level: real, reason: Reason)

  predicate Better(t: Terms, a: real, b: real) {
    if t.direction.Long? then a > b else a < b
  }

  /** Takes over the stop when the new level applies and is more protective. */
  function Tighten(t: Terms, was: Rule, applies: bool, level: real, reason: Reason): Rule {
    if applies && Better(t, level, was.level) then Rule(level, reason) else was
  }

  function PeakOrEntry(t: Terms, peakPrice: Option<real>): real
    requires Walkable(t)
  {
    if peakPrice.Some? && peakPrice.value > 0.0 then peakPrice.value else t.entryPrice.value
  }

  function TrailLevel(t: Terms, peak: real, gap: real): real {
    if t.direction.Long? then peak * (1.0 - gap) else peak * (1.0 + gap)
  }

  predicate Ratchets(t: Terms) {
    Walkable(t) && t.stopLossPct.Some? && t.stopLossPct.value > 0.0
  }

  function InitialStop(t: Terms): Rule
    requires Ratchets(t)
  {
    Rule(ExitLevels(t).value.stop.value, StopLoss)
  }

  function BreakEvenLevel(t: Terms, tr: Trailing): real
    requires Walkable(t)
  {
    if t.direction.Long? then t.entryPrice.value * (1.0 + tr.costFraction)
    else t.entryPrice.value * (1.0 - tr.costFraction)
  }

  /** The knobs are multiples of the initial risk, the stop distance. */
  function TriggerOf(t: Terms, tr: Trailing): real
    requires Ratchets(t)
  {
    tr.breakEvenTriggerR * t.stopLossPct.value
  }

  function ActivationOf(t: Terms, tr: Trailing): real
    requires Ratchets(t)
  {
    tr.trailActivationR * t.stopLossPct.value
  }

  function GapOf(t: Terms, tr: Trailing): real
    requires Ratchets(t)
  {
    tr.trailDistanceR * t.stopLossPct.value
  }

  predicate BreaksEven(t: Terms, favorable: real, tr: Trailing)
    requires Ratchets(t)
  {
    tr.breakEvenTriggerR > 0.0 && favorable >= TriggerOf(t, tr)
  }

  predicate Trails(t: Terms, favorable: real, tr: Trailing)
    requires Ratchets(t)
  {
    tr.trailDistanceR > 0.0 && favorable >= ActivationOf(t, tr)
  }

  function StopAt(t: Terms, peak: real, favorable: real, tr: Trailing): Rule
    requires Ratchets(t)
  {
    var second := Tighten(t, InitialStop(t), BreaksEven(t, favorable, tr), BreakEvenLevel(t, tr), BreakEvenStop);
    Tighten(t, second, Trails(t, favorable, tr), TrailLevel(t, peak, GapOf(t, tr)), TrailingStop)
  }

  /** The most protective of the initial, break-even and trailing stops at the best price so far. */
  function RatchetedStop(t: Terms, peakPrice: Option<real>, tr: Trailing): Option<Rule> {
    if !Ratchets(t) then None
    else
      var peak := PeakOrEntry(t, peakPrice);
      Some(StopAt(t, peak, Gross(t, peak), tr))
  }

  function BetterPeak(d: Direction, a: Option<real>, b: Option<real>): Option<real> {
    if a.None? then b
    else if b.None? then a
    else if d.Short? then (if a.value <= b.value then a else b)
    else (if a.value >= b.value then a else b)
  }

  /** `a` is at least as favourable a peak as `b`; no peak yet counts as the entry price. */
  predicate PeakAtLeast(t: Terms, a: Option<real>, b: Option<real>)
    requires Walkable(t)
  {
    if t.direction.Long? then PeakOrEntry(t, a) >= PeakOrEntry(t, b) else PeakOrEntry(t, a) <= PeakOrEntry(t, b)
  }

  // ---- The split guard ------------------------------------------------------------------

  type Factor = f: real | f > 0.0 witness 1.0

  const SPLIT_FACTORS: seq<Factor> := [2.0, 3.0, 4.0, 5.0, 10.0]

  datatype Split = Split(reverse: bool, factor: real, ratio: real)

  function Abs(x: real): real {
    if x < 0.0 then -x else x
  }

  predicate Matches(ratio: real, factor: Factor, reverse: bool, tolerance: real) {
    Abs((if reverse then ratio / factor else ratio * factor) - 1.0) <= tolerance
  }

  function FirstFactor(ratio: real, tolerance: real, factors: seq<Factor>): Option<Split> {
    if factors == [] then None
    else if Matches(ratio, factors[0], false, tolerance) then Some(Split(false, factors[0], ratio))
    else if Matches(ratio, factors[0], true, tolerance) then Some(Split(true, factors[0], ratio))
    else FirstFactor(ratio, tolerance, factors[1..])
  }

  /** Whether `price` sits at a common split ratio of the entry price; a tolerance of zero turns the guard off. */
  function DetectSplitJump(entry: Option<real>, price: Option<real>, tolerance: real): Option<Split> {
    if tolerance <= 0.0 || entry.None? || price.None? || entry.value <= 0.0 || price.value <= 0.0 then None
    else FirstFactor(price.value / entry.value, tolerance, SPLIT_FACTORS)
  }

  // ---- One bar ----------------------------------------------------------------------------

  datatype Policy = Policy(splitTolerance: real, trailing: Option<Trailing>, nearestOpen: bool)

  /** What a walk carries from bar to bar. */
  datatype Progress = Progress(peak: Option<real>, mae: Option<real>, mfe: Option<real>,
                               lastBarAvailableAt: Option<int>,
                               lastClose: Option<real>, barsWalked: nat, invalidBars: nat)

  datatype Exit = Exit(reason: Reason, exitPrice: real, closedAt: int, gapped: bool, barKind: Kind, barOpenMs: int,
                       ambiguous: bool)

  /** How a walk stands: still going, ended by an exit, or stopped before a suspected split. */
  datatype Walked = Going(p: Progress) | Exited(p: Progress, exit: Exit) | Halted(p: Progress, split: Split)

  predicate IsFiniteBar(b: Bar) {
    && b.px.open.Some? && b.px.high.Some? && b.px.low.Some? && b.px.close.Some?
    && b.px.high.value >= b.px.low.value
  }

  function SplitOf(t: Terms, o: Policy, b: Bar): Option<Split> {
    var atOpen := DetectSplitJump(t.entryPrice, b.px.open, o.splitTolerance);
    if atOpen.Some? then atOpen else DetectSplitJump(t.entryPrice, b.px.close, o.splitTolerance)
  }

  function Adverse(t: Terms, b: Bar): real
    requires IsFiniteBar(b)
  {
    if t.direction.Long? then b.px.low.value else b.px.high.value
  }

  function Favorable(t: Terms, b: Bar): real
    requires IsFiniteBar(b)
  {
    if t.direction.Long? then b.px.high.value else b.px.low.value
  }

  function Least(a: Option<real>, x: real): real {
    if a.Some? && a.value <= x then a.value else x
  }

  function Most(a: Option<real>, x: real): real {
    if a.Some? && a.value >= x then a.value else x
  }

  function OrZero(a: Option<real>): real {
    if a.Some? then a.value else 0.0
  }

  /** The rule in force on the next bar: the ratcheted stop when trailing is on and computable, else the static stop. */
  function StopRule(t: Terms, o: Policy, peak: Option<real>): Option<Rule>
    requires Walkable(t)
  {
    var ratcheted := if o.trailing.Some? then RatchetedStop(t, peak, o.trailing.value) else None;
    if ratcheted.Some? then ratcheted
    else
      var stop := ExitLevels(t).value.stop;
      if stop.Some? then Some(Rule(stop.value, StopLoss)) else None
  }

  /** The target, unless the trail is the binding stop and the policy lets winners run. */
  function TargetLevel(t: Terms, o: Policy, peak: Option<real>): Option<real>
    requires Walkable(t)
  {
    var rule := StopRule(t, o, peak);
    if o.trailing.Some? && o.trailing.value.trailRemovesTarget && rule.Some? && rule.value.reason.TrailingStop? then
      None
    else ExitLevels(t).value.target
  }

  predicate StopTouched(t: Terms, b: Bar, stop: Option<Rule>)
    requires IsFiniteBar(b)
  {
    stop.Some? && if t.direction.Long? then b.px.low.value <= stop.value.level else b.px.high.value >= stop.value.level
  }

  predicate TargetTouched(t: Terms, b: Bar, target: Option<real>)
    requires IsFiniteBar(b)
  {
    target.Some? && if t.direction.Long? then b.px.high.value >= target.value else b.px.low.value <= target.value
  }

  /** On a bar that touched both levels: whether the target was reached first, judged from the open. */
  predicate TargetResolvesFirst(isLong: bool, open: real, stop: real, target: real) {
    if (if isLong then open <= stop else open >= stop) then false
    else if (if isLong then open >= target else open <= target) then true
    else Abs(target - open) < Abs(open - stop)
  }

  predicate Ambiguous(t: Terms, o: Policy, peak: Option<real>, b: Bar)
    requires Walkable(t) && IsFiniteBar(b)
  {
    StopTouched(t, b, StopRule(t, o, peak)) && TargetTouched(t, b, TargetLevel(t, o, peak)) && b.kind.Daily?
  }

  predicate StopHit(t: Terms, o: Policy, peak: Option<real>, b: Bar)
    requires Walkable(t) && IsFiniteBar(b)
  {
    && StopTouched(t, b, StopRule(t, o, peak))
    && !(o.nearestOpen && Ambiguous(t, o, peak, b)
         && TargetResolvesFirst(t.direction.Long?, b.px.open.value, StopRule(t, o, peak).value.level,
                                TargetLevel(t, o, peak).value))
  }

  predicate TargetHit(t: Terms, o: Policy, peak: Option<real>, b: Bar)
    requires Walkable(t) && IsFiniteBar(b)
  {
    !StopHit(t, o, peak, b) && TargetTouched(t, b, TargetLevel(t, o, peak))
  }

  /** Where a level fills on a bar that touched it: at the level, or at the open when the bar opened beyond it. */
  function FillAt(open: real, level: real, beyondIsBelow: bool): real {
    if beyondIsBelow then (if open <= level then open else level) else (if open >= level then open else level)
  }

  function AfterBar(t: Terms, o: Policy, p: Progress, b: Bar): Progress
    requires Walkable(t) && IsFiniteBar(b)
  {
    var folded := BetterPeak(t.direction, BetterPeak(t.direction, p.peak, Some(Favorable(t, b))), t.entryPrice);
    Progress(if o.trailing.Some? then folded else p.peak,
             Some(Least(p.mae, Gross(t, Adverse(t, b)))), Some(Most(p.mfe, Gross(t, Favorable(t, b)))),
             Some(b.availableAt), b.px.close, p.barsWalked + 1, p.invalidBars)
  }

  /** What one bar does to a walk. */
  function StepBar(t: Terms, o: Policy, p: Progress, b: Bar): Walked
    requires Walkable(t)
  {
    if !IsFiniteBar(b) then
      Going(p.(invalidBars := p.invalidBars + 1, barsWalked := p.barsWalked + 1,
               lastBarAvailableAt := Some(b.availableAt)))
    else if SplitOf(t, o, b).Some? then Halted(p, SplitOf(t, o, b).value)
    else
      var q := AfterBar(t, o, p, b);
      var isLong, open := t.direction.Long?, b.px.open.value;
      if StopHit(t, o, p.peak, b) then
        var rule := StopRule(t, o, p.peak).value;
        var price := FillAt(open, rule.level, isLong);
        Exited(q.(mae := Some(Least(Some(OrZero(p.mae)), Gross(t, price)))),
               Exit(rule.reason, price, b.availableAt, if isLong then open < rule.level else open > rule.level, b.kind,
                    b.openMs,
                    Ambiguous(t, o, p.peak, b)))
      else if TargetHit(t, o, p.peak, b) then
        var level := TargetLevel(t, o, p.peak).value;
        var price := FillAt(open, level, !isLong);
        Exited(q.(mfe := Some(Most(Some(OrZero(p.mfe)), Gross(t, price)))),
               Exit(TakeProfit, price, b.availableAt, if isLong then open > level else open < level, b.kind, b.openMs,
                    Ambiguous(t, o, p.peak, b)))
      else Going(q)
  }

  /** The walk over a whole sequence. */
  function Walk(t: Terms, o: Policy, p: Progress, bars: seq<Bar>): Walked
    requires Walkable(t)
    decreases |bars|
  {
    if bars == [] then Going(p)
    else
      var w := StepBar(t, o, p, bars[0]);
      if w.Going? then Walk(t, o, w.p, bars[1..]) else w
  }

  /** Where a walk starts: the stored peak counts only while trailing is on and the peak is a price. */
  function Start(o: Policy, storedPeak: Option<real>): Progress {
    Progress(if o.trailing.Some? && storedPeak.Some? && storedPeak.value > 0.0 then storedPeak else None,
             None, None, None, None, 0, 0)
  }

  /** Walks the bars one by one until one of them ends the walk. */
  method WalkBarsForExit(t: Terms, o: Policy, storedPeak: Option<real>, bars: seq<Bar>) returns (r: Walked)
    requires Walkable(t)
    ensures r == Walk(t, o, Start(o, storedPeak), bars)
  {
    hide SplitOf, StopRule, TargetLevel, Gross, Ambiguous, TargetResolvesFirst, BetterPeak;
    var isLong := t.direction.Long?;
    var peak := Start(o, storedPeak).peak;
    var mae, mfe: Option<real> := None, None;
    var lastBarAvailableAt: Option<int>, lastClose: Option<real> := None, None;
    var walked, invalid := 0, 0;
    ghost var p := Start(o, storedPeak);
    assert bars[0..] == bars;
    for i := 0 to |bars|
      invariant p == Progress(peak, mae, mfe, lastBarAvailableAt, lastClose, walked, invalid)
      invariant walked >= 0 && invalid >= 0
      invariant Walk(t, o, Start(o, storedPeak), bars) == Walk(t, o, p, bars[i..])
    {
      var b := bars[i];
      assert bars[i..][0] == b && bars[i..][1..] == bars[i + 1..];
      ghost var step := StepBar(t, o, p, b);
      if !IsFiniteBar(b) {
        invalid, walked, lastBarAvailableAt := invalid + 1, walked + 1, Some(b.availableAt);
        p := step.p;
        continue;
      }
      var split := SplitOf(t, o, b);
      if split.Some? {
        return Halted(Progress(peak, mae, mfe, lastBarAvailableAt, lastClose, walked, invalid), split.value);
      }
      var prevMae, prevMfe, prevPeak := mae, mfe, peak;
      mae := Some(Least(mae, Gross(t, Adverse(t, b))));
      mfe := Some(Most(mfe, Gross(t, Favorable(t, b))));
      walked, lastBarAvailableAt, lastClose := walked + 1, Some(b.availableAt), b.px.close;
      var rule, target := StopRule(t, o, prevPeak), TargetLevel(t, o, prevPeak);
      if o.trailing.Some? {
        peak := BetterPeak(t.direction, BetterPeak(t.direction, peak, Some(Favorable(t, b))), t.entryPrice);
      }
      var open := b.px.open.value;
      if StopHit(t, o, prevPeak, b) {
        var price := FillAt(open, rule.value.level, isLong);
        mae := Some(Least(Some(OrZero(prevMae)), Gross(t, price)));
        return Exited(Progress(peak, mae, mfe, lastBarAvailableAt, lastClose, walked, invalid),
                      Exit(rule.value.reason, price, b.availableAt,
                           if isLong then open < rule.value.level else open > rule.value.level,
                           b.kind, b.openMs, Ambiguous(t, o, prevPeak, b)));
      }
      if TargetHit(t, o, prevPeak, b) {
        var price := FillAt(open, target.value, !isLong);
        mfe := Some(Most(Some(OrZero(prevMfe)), Gross(t, price)));
        return Exited(Progress(peak, mae, mfe, lastBarAvailableAt, lastClose, walked, invalid),
                      Exit(TakeProfit, price, b.availableAt,
                           if isLong then open > target.value else open < target.value,
                           b.kind, b.openMs, Ambiguous(t, o, prevPeak, b)));
      }
      p := step.p;
    }
    assert bars[|bars|..] == [];
    return Going(Progress(peak, mae, mfe, lastBarAvailableAt, lastClose, walked, invalid));
  }

  // ---- What the walk promises ---------------------------------------------------------------

  /** Walking on after a part without an exit is one walk over both. */
  lemma {:induction false} WalkConcat(t: Terms, o: Policy, p: Progress, a: seq<Bar>, b: seq<Bar>)
    requires Walkable(t)
    ensures Walk(t, o, p, a + b) == if Walk(t, o, p, a).Going? then Walk(t, o, Walk(t, o, p, a).p, b)
                                    else Walk(t, o, p, a)
    decreases |a|
  {
    hide StepBar;
    if a == [] {
      assert a + b == b;
    } else {
      assert (a + b)[0] == a[0] && (a + b)[1..] == a[1..] + b;
      var w := StepBar(t, o, p, a[0]);
      if w.Going? {
        WalkConcat(t, o, w.p, a[1..], b);
      }
    }
  }

  /** A bar whose prices are consistent. */
  predicate Consistent(b: Bar) {
    IsFiniteBar(b) && b.px.low.value <= b.px.open.value <= b.px.high.value
  }

  /**
   * An order resting at `level`: filled there, unless the bar opened past it; then at the open, the first price
   * there was.
   */
  predicate FillsLevel(e: Exit, open: real, level: real, below: bool) {
    && (e.gapped <==> if below then open < level else open > level)
    && e.exitPrice == (if e.gapped then open else level)
  }

  /**
   * What an exit on bar `b` promises, `peak` being the best price of the bars before it: stamped with the bar's close,
   * within its range, never better than the stop asked for and never worse than the target; the target only where the
   * stop was not touched, or on a daily bar under the nearest-open policy.
   */
  predicate FairExit(t: Terms, o: Policy, peak: Option<real>, b: Bar, e: Exit)
    requires Walkable(t)
  {
    && IsFiniteBar(b) && SplitOf(t, o, b).None?
    && e.closedAt == b.availableAt && e.barOpenMs == b.openMs && e.barKind == b.kind
    && (Consistent(b) ==> b.px.low.value <= e.exitPrice <= b.px.high.value)
    && var rule, target := StopRule(t, o, peak), TargetLevel(t, o, peak);
       if e.reason.TakeProfit? then
         && TargetTouched(t, b, target) && !Better(t, target.value, e.exitPrice)
         && FillsLevel(e, b.px.open.value, target.value, t.direction.Short?)
         && (StopTouched(t, b, rule) ==> o.nearestOpen && e.ambiguous)
       else
         && StopTouched(t, b, rule) && e.reason == rule.value.reason && !Better(t, e.exitPrice, rule.value.level)
         && FillsLevel(e, b.px.open.value, rule.value.level, t.direction.Long?)
  }

  /**
   * On the exit bar the excursion on the exit's side goes no further than the fill; the other side is the whole
   * bar's.
   */
  predicate CappedAtFill(t: Terms, before: Progress, b: Bar, w: Walked)
    requires Walkable(t) && IsFiniteBar(b) && w.Exited?
  {
    var fill := Gross(t, w.exit.exitPrice);
    if w.exit.reason.TakeProfit? then
      w.p.mfe == Some(Most(Some(OrZero(before.mfe)), fill))
      && w.p.mae == Some(Least(before.mae, Gross(t, Adverse(t, b))))
    else
      w.p.mae == Some(Least(Some(OrZero(before.mae)), fill))
      && w.p.mfe == Some(Most(before.mfe, Gross(t, Favorable(t, b))))
  }

  /** `low` and `high` are the extremes of `low0`, `high0` and the prices of the valid bars walked. */
  ghost predicate Extremes(t: Terms, bars: seq<Bar>, low0: Option<real>, high0: Option<real>, low: Option<real>,
                           high: Option<real>)
    requires Walkable(t)
  {
    && (low0.Some? ==> low.Some? && low.value <= low0.value)
    && (high0.Some? ==> high.Some? && high.value >= high0.value)
    && (forall b :: b in bars && IsFiniteBar(b) ==>
          && low.Some? && low.value <= Gross(t, Adverse(t, b))
          && high.Some? && high.value >= Gross(t, Favorable(t, b)))
    && (low == low0 || exists b :: b in bars && IsFiniteBar(b) && low == Some(Gross(t, Adverse(t, b))))
    && (high == high0 || exists b :: b in bars && IsFiniteBar(b) && high == Some(Gross(t, Favorable(t, b))))
  }

  /** The excursions recorded are the true extremes of the bars walked. */
  lemma {:induction false} ExcursionsAreTheExtremes(t: Terms, o: Policy, p: Progress, bars: seq<Bar>)
    requires Walkable(t) && Walk(t, o, p, bars).Going?
    ensures Extremes(t, bars, p.mae, p.mfe, Walk(t, o, p, bars).p.mae, Walk(t, o, p, bars).p.mfe)
    decreases |bars|
  {
    if bars != [] {
      var q := StepBar(t, o, p, bars[0]).p;
      StepExtremes(t, o, p, bars[0]);
      ExcursionsAreTheExtremes(t, o, q, bars[1..]);
      var r := Walk(t, o, p, bars).p;
      hide StepBar, Walk, Gross, IsFiniteBar;
      ExtremesJoin(t, bars, p, q, r);
    }
  }

  lemma StepExtremes(t: Terms, o: Policy, p: Progress, b: Bar)
    requires Walkable(t) && StepBar(t, o, p, b).Going?
    ensures Extremes(t, [b], p.mae, p.mfe, StepBar(t, o, p, b).p.mae, StepBar(t, o, p, b).p.mfe)
  {
    hide StopHit, TargetHit, SplitOf, BetterPeak, Gross;
    assert b in [b];
  }

  lemma ExtremesJoin(t: Terms, bars: seq<Bar>, p: Progress, q: Progress, r: Progress)
    requires Walkable(t) && bars != []
    requires Extremes(t, [bars[0]], p.mae, p.mfe, q.mae, q.mfe) && Extremes(t, bars[1..], q.mae, q.mfe, r.mae, r.mfe)
    ensures Extremes(t, bars, p.mae, p.mfe, r.mae, r.mfe)
  {
    hide Gross, IsFiniteBar, Adverse, Favorable;
    assert bars == [bars[0]] + bars[1..];
    assert forall b :: b in bars <==> b in [bars[0]] || b in bars[1..];
  }

  /** An exit is at the first bar that gives one, judged by the stop that the bars before it had ratcheted. */
  lemma {:induction false} ExitIsTradable(t: Terms, o: Policy, p: Progress, bars: seq<Bar>)
    requires Walkable(t) && Walk(t, o, p, bars).Exited?
    ensures exists k :: 0 <= k < |bars| && Walk(t, o, p, bars[..k]).Going?
              && FairExit(t, o, Walk(t, o, p, bars[..k]).p.peak, bars[k], Walk(t, o, p, bars).exit)
              && CappedAtFill(t, Walk(t, o, p, bars[..k]).p, bars[k], Walk(t, o, p, bars))
    decreases |bars|
  {
    var w := StepBar(t, o, p, bars[0]);
    if w.Going? {
      ExitIsTradable(t, o, w.p, bars[1..]);
      hide StepBar, FairExit, CappedAtFill;
      var k :| 0 <= k < |bars[1..]| && Walk(t, o, w.p, bars[1..][..k]).Going?
        && FairExit(t, o, Walk(t, o, w.p, bars[1..][..k]).p.peak, bars[1..][k], Walk(t, o, w.p, bars[1..]).exit)
        && CappedAtFill(t, Walk(t, o, w.p, bars[1..][..k]).p, bars[1..][k], Walk(t, o, w.p, bars[1..]));
      assert bars[..k + 1][0] == bars[0] && bars[..k + 1][1..] == bars[1..][..k];
      assert bars[k + 1] == bars[1..][k];
      assert Walk(t, o, p, bars[..k + 1]).Going?;
    } else {
      BarExitIsTradable(t, o, p, bars[0]);
      hide StepBar, FairExit, CappedAtFill;
      assert bars[..0] == [];
      assert Walk(t, o, p, bars[..0]).Going?;
    }
  }

  lemma BarExitIsTradable(t: Terms, o: Policy, p: Progress, b: Bar)
    requires Walkable(t) && StepBar(t, o, p, b).Exited?
    ensures FairExit(t, o, p.peak, b, StepBar(t, o, p, b).exit)
    ensures CappedAtFill(t, p, b, StepBar(t, o, p, b))
  {
    ExitCapped(t, o, p, b);
    hide CappedAtFill;
    hide StopRule, TargetLevel, SplitOf, BetterPeak, Gross, TargetResolvesFirst, FillAt, AfterBar, FairExit,
         StopTouched, TargetTouched, Ambiguous;
    if StopHit(t, o, p.peak, b) {
      StopIsTradable(t, o, p.peak, b, StepBar(t, o, p, b).exit);
    } else {
      TargetIsTradable(t, o, p.peak, b, StepBar(t, o, p, b).exit);
    }
  }

  lemma ExitCapped(t: Terms, o: Policy, p: Progress, b: Bar)
    requires Walkable(t) && StepBar(t, o, p, b).Exited?
    ensures IsFiniteBar(b) && CappedAtFill(t, p, b, StepBar(t, o, p, b))
  {
    if StopHit(t, o, p.peak, b) {
      StopReason(t, o, p.peak);
    }
    hide StopRule, TargetLevel, SplitOf, BetterPeak, Gross, TargetResolvesFirst, FillAt, StopTouched, TargetTouched,
         Ambiguous;
  }

  lemma StopIsTradable(t: Terms, o: Policy, peak: Option<real>, b: Bar, e: Exit)
    requires Walkable(t) && IsFiniteBar(b) && SplitOf(t, o, b).None? && StopTouched(t, b, StopRule(t, o, peak))
    requires var rule, isLong, open := StopRule(t, o, peak).value, t.direction.Long?, b.px.open.value;
             e == Exit(rule.reason, FillAt(open, rule.level, isLong), b.availableAt,
                       if isLong then open < rule.level
                       else open > rule.level, b.kind, b.openMs, Ambiguous(t, o, peak, b))
    ensures FairExit(t, o, peak, b, e)
  {
    StopReason(t, o, peak);
    hide StopRule, TargetLevel, SplitOf, Ambiguous;
  }

  lemma TargetIsTradable(t: Terms, o: Policy, peak: Option<real>, b: Bar, e: Exit)
    requires Walkable(t) && IsFiniteBar(b) && SplitOf(t, o, b).None? && TargetHit(t, o, peak, b)
    requires var level, isLong, open := TargetLevel(t, o, peak).value, t.direction.Long?, b.px.open.value;
             e == Exit(TakeProfit, FillAt(open, level, !isLong), b.availableAt,
                       if isLong then open > level else open < level, b.kind, b.openMs, Ambiguous(t, o, peak, b))
    ensures FairExit(t, o, peak, b, e)
  {
    hide StopRule, TargetLevel, SplitOf, TargetResolvesFirst;
  }

  lemma StopReason(t: Terms, o: Policy, peak: Option<real>)
    requires Walkable(t) && StopRule(t, o, peak).Some?
    ensures !StopRule(t, o, peak).value.reason.TakeProfit?
  {
  }

  /** A static stop: nothing trails, so the levels never move. */
  predicate TouchesStatic(t: Terms, b: Bar)
    requires Walkable(t)
  {
    && IsFiniteBar(b)
    && (StopTouched(t, b,
                    if ExitLevels(t).value.stop.Some? then Some(Rule(ExitLevels(t).value.stop.value, StopLoss))
                    else None)
        || TargetTouched(t, b, ExitLevels(t).value.target))
  }

  predicate Suspect(t: Terms, o: Policy, b: Bar) {
    IsFiniteBar(b) && SplitOf(t, o, b).Some?
  }

  /**
   * Without trailing the walk exits exactly when some bar touches a level before any suspected split, and then at the
   * first such bar.
   */
  lemma {:induction false} FirstTouchExits(t: Terms, o: Policy, p: Progress, bars: seq<Bar>, k: nat)
    requires Walkable(t) && o.trailing.None? && k < |bars|
    requires forall i :: 0 <= i < k ==> !TouchesStatic(t, bars[i]) && !Suspect(t, o, bars[i])
    ensures Walk(t, o, p, bars[..k]).Going?
    ensures TouchesStatic(t, bars[k]) && !Suspect(t, o, bars[k]) ==>
              Walk(t, o, p, bars).Exited? && Walk(t, o, p, bars).exit.closedAt == bars[k].availableAt
    ensures Suspect(t, o, bars[k]) ==> Walk(t, o, p, bars).Halted?
    decreases |bars|
  {
    StaticStep(t, o, p, bars[0]);
    hide StepBar, TouchesStatic, Suspect;
    var w := StepBar(t, o, p, bars[0]);
    if k > 0 {
      assert bars[..k][0] == bars[0] && bars[..k][1..] == bars[1..][..k - 1];
      FirstTouchExits(t, o, w.p, bars[1..], k - 1);
    }
  }

  lemma StaticStep(t: Terms, o: Policy, p: Progress, b: Bar)
    requires Walkable(t) && o.trailing.None?
    ensures StepBar(t, o, p, b).Halted? <==> Suspect(t, o, b)
    ensures StepBar(t, o, p, b).Exited? <==> TouchesStatic(t, b) && !Suspect(t, o, b)
    ensures StepBar(t, o, p, b).Exited? ==> StepBar(t, o, p, b).exit.closedAt == b.availableAt
  {
    hide SplitOf, BetterPeak, Gross, TargetResolvesFirst;
  }
}
