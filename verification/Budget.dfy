/**
 * The per-invocation subrequest budget (src/backtest/subrequestBudget.js): a class whose
 * methods charge operations before they are sent, and the laws every sequence of charges obeys.
 */
module Budget {
  import opened Collections

  datatype Kind = Item | Exits | Score

  datatype Channel = External | D1 | Kv | KvRead | KvWrite

  datatype Cost = Cost(external: int, total: int)

  datatype Limits = Limits(external: int, total: int)

  /** What the budget remembers between two calls. `depth` counts nested unenforced regions. */
  datatype Counters = Counters(
    external: nat, total: nat, d1: nat, kv: nat, kvReads: nat, kvWrites: nat,
    halted: bool, depth: nat, units: nat,
    unitCounts: map<Kind, nat>, estimates: map<Kind, Cost>, observed: map<Kind, Cost>)

  const DEFAULT_ESTIMATES: map<Kind, Cost> :=
    map[Item := Cost(21, 35), Exits := Cost(2, 13), Score := Cost(0, 25)]

  const FRESH := Counters(0, 0, 0, 0, 0, 0, false, 0, 0, map[], DEFAULT_ESTIMATES, map[])

  predicate Refuses(l: Limits, b: Counters, ch: Channel) {
    if ch.External? then
      b.halted || (b.depth == 0 && (b.external + 1 > l.external || b.total + 1 > l.total))
    else
      b.depth == 0 && b.total + 1 > l.total
  }

  /** The counters after one charge: a refused charge only halts, an accepted one is counted. */
  function Charged(l: Limits, b: Counters, ch: Channel): Counters {
    if Refuses(l, b, ch) then b.(halted := true)
    else
      var c := b.(total := b.total + 1);
      match ch
      case External => c.(external := b.external + 1)
      case D1 => c.(d1 := b.d1 + 1)
      case Kv => c.(kv := b.kv + 1)
      case KvRead => c.(kv := b.kv + 1, kvReads := b.kvReads + 1)
      case KvWrite => c.(kv := b.kv + 1, kvWrites := b.kvWrites + 1)
  }

  function Recorded(b: Counters, k: Kind, before: Cost): Counters {
    var cost := Cost(b.external - before.external, b.total - before.total);
    var seen := if k in b.observed
                then Cost(Max(b.observed[k].external, cost.external), Max(b.observed[k].total, cost.total))
                else cost;
    b.(observed := b.observed[k := seen], units := b.units + 1,
       unitCounts := b.unitCounts[k := (if k in b.unitCounts then b.unitCounts[k] else 0) + 1])
  }

  function EstimateOf(b: Counters, k: Kind): Cost {
    if k in b.observed then b.observed[k]
    else if k in b.estimates then b.estimates[k]
    else Cost(0, 0)
  }

  function Remaining(l: Limits, b: Counters): Cost {
    Cost(Max(0, l.external - b.external), Max(0, l.total - b.total))
  }

  predicate Fits(l: Limits, b: Counters, k: Kind) {
    && !b.halted
    && (b.units == 0
        || (&& Remaining(l, b).external >= EstimateOf(b, k).external
            && Remaining(l, b).total >= EstimateOf(b, k).total))
  }

  class SubrequestBudget {
    const limits: Limits
    var external: nat
    var total: nat
    var d1: nat
    var kv: nat
    var kvReads: nat
    var kvWrites: nat
    var halted: bool
    var suspendDepth: nat
    var unitsCompleted: nat
    var unitCounts: map<Kind, nat>
    var estimates: map<Kind, Cost>
    var observed: map<Kind, Cost>

    function View(): Counters
      reads this
    {
      Counters(external, total, d1, kv, kvReads, kvWrites, halted, suspendDepth, unitsCompleted,
               unitCounts, estimates, observed)
    }

    constructor (l: Limits)
      ensures limits == l && View() == FRESH
      ensures external == 0 && total == 0 && d1 == 0 && kv == 0 && kvReads == 0 && kvWrites == 0
      ensures !halted && suspendDepth == 0 && unitsCompleted == 0 && unitCounts == map[] && observed == map[]
      ensures estimates == map[Item := Cost(21, 35), Exits := Cost(2, 13), Score := Cost(0, 25)]
    {
      limits := l;
      external, total, d1, kv, kvReads, kvWrites := 0, 0, 0, 0, 0, 0;
      halted, suspendDepth, unitsCompleted := false, 0, 0;
      unitCounts, estimates, observed := map[], DEFAULT_ESTIMATES, map[];
    }

    /** The constructor's own validation: both limits must be positive integers. */
    static method Create(l: Limits) returns (b: SubrequestBudget?)
      ensures b == null <==> l.external < 1 || l.total < 1
      ensures b != null ==> fresh(b) && b.limits == l && b.View() == FRESH
    {
      if l.external < 1 || l.total < 1 {
        return null;
      }
      b := new SubrequestBudget(l);
    }

    /** One outbound fetch; `ok` is false when it is refused (and then not sent). */
    method ChargeExternal() returns (ok: bool)
      modifies this
      ensures ok == !Refuses(limits, old(View()), External)
      ensures View() == Charged(limits, old(View()), External)
      ensures ok <==> !old(halted) && (suspendDepth > 0
                                       || (old(external) < limits.external && old(total) < limits.total))
      ensures external == old(external) + (if ok then 1 else 0) && total == old(total) + (if ok then 1 else 0)
      ensures halted == (old(halted) || !ok)
      ensures unchanged(`d1, `kv, `kvReads, `kvWrites, `suspendDepth, `unitsCompleted, `unitCounts,
                        `estimates, `observed)
    {
      if halted {
        return false;
      }
      if suspendDepth == 0 {
        if external + 1 > limits.external || total + 1 > limits.total {
          halted := true;
          return false;
        }
      }
      external := external + 1;
      total := total + 1;
      ok := true;
    }

    /** One D1 or KV operation. */
    method ChargeInternal(ch: Channel) returns (ok: bool)
      requires !ch.External?
      modifies this
      ensures ok == !Refuses(limits, old(View()), ch)
      ensures View() == Charged(limits, old(View()), ch)
      ensures ok <==> suspendDepth > 0 || old(total) < limits.total
      ensures total == old(total) + (if ok then 1 else 0) && halted == (old(halted) || !ok)
      ensures d1 == old(d1) + (if ok && ch.D1? then 1 else 0) && kv == old(kv) + (if ok && !ch.D1? then 1 else 0)
      ensures kvReads == old(kvReads) + (if ok && ch.KvRead? then 1 else 0)
      ensures kvWrites == old(kvWrites) + (if ok && ch.KvWrite? then 1 else 0)
      ensures unchanged(`external, `suspendDepth, `unitsCompleted, `unitCounts, `estimates, `observed)
    {
      if suspendDepth == 0 && total + 1 > limits.total {
        halted := true;
        return false;
      }
      total := total + 1;
      match ch {
        case Kv => kv := kv + 1;
        case KvRead => kv := kv + 1; kvReads := kvReads + 1;
        case KvWrite => kv := kv + 1; kvWrites := kvWrites + 1;
        case D1 => d1 := d1 + 1;
      }
      ok := true;
    }

    method Suspend()
      modifies this
      ensures View() == old(View()).(depth := old(suspendDepth) + 1)
    {
      suspendDepth := suspendDepth + 1;
    }

    method Resume()
      modifies this
      ensures View() == old(View()).(depth := Max(0, old(suspendDepth) - 1))
    {
      suspendDepth := Max(0, suspendDepth - 1);
    }

    method SetEstimate(k: Kind, c: Cost)
      modifies this
      ensures View() == old(View()).(estimates := old(estimates)[k := c])
    {
      estimates := estimates[k := c];
    }

    function Mark(): Cost
      reads this
    {
      Cost(external, total)
    }

    method RecordUnit(k: Kind, before: Cost)
      modifies this
      ensures View() == Recorded(old(View()), k, before)
      ensures unitsCompleted == old(unitsCompleted) + 1
      ensures unitCounts == old(unitCounts)[k := (if k in old(unitCounts) then old(unitCounts)[k] else 0) + 1]
      ensures k in observed && observed == old(observed)[k := observed[k]]
      ensures observed[k].external >= external - before.external && observed[k].total >= total - before.total
      ensures k in old(observed) ==>
                && observed[k].external in {old(observed)[k].external, external - before.external}
                && observed[k].total in {old(observed)[k].total, total - before.total}
                && observed[k].external >= old(observed)[k].external && observed[k].total >= old(observed)[k].total
      ensures k !in old(observed) ==> observed[k] == Cost(external - before.external, total - before.total)
      ensures unchanged(`external, `total, `d1, `kv, `kvReads, `kvWrites, `halted, `suspendDepth, `estimates)
    {
      var cost := Cost(external - before.external, total - before.total);
      if k in observed {
        var seen := observed[k];
        observed := observed[k := Cost(Max(seen.external, cost.external), Max(seen.total, cost.total))];
      } else {
        observed := observed[k := cost];
      }
      unitsCompleted := unitsCompleted + 1;
      unitCounts := unitCounts[k := (if k in unitCounts then unitCounts[k] else 0) + 1];
    }

    method CanStart(k: Kind) returns (yes: bool)
      ensures yes == Fits(limits, View(), k)
      ensures var need := if k in observed then observed[k] else if k in estimates then estimates[k] else Cost(0, 0);
              yes <==> !halted && (unitsCompleted == 0
                                   || (&& (need.external <= 0 || need.external <= limits.external - external)
                                       && (need.total <= 0 || need.total <= limits.total - total)))
    {
      if halted {
        return false;
      }
      if unitsCompleted == 0 {
        return true;
      }
      var estimate := EstimateOf(View(), k);
      var left := Remaining(limits, View());
      return left.external >= estimate.external && left.total >= estimate.total;
    }

    /** Charges a list of operations, stopping at the first refusal (which throws in the original). */
    method ChargeAll(chs: seq<Channel>) returns (ok: bool)
      modifies this
      ensures View() == ChargedAll(limits, old(View()), chs)
      ensures ok == AllAccepted(limits, old(View()), chs)
    {
      var i := 0;
      while i < |chs|
        invariant 0 <= i <= |chs|
        invariant ChargedAll(limits, View(), chs[i..]) == ChargedAll(limits, old(View()), chs)
        invariant AllAccepted(limits, View(), chs[i..]) == AllAccepted(limits, old(View()), chs)
      {
        assert chs[i..][1..] == chs[i + 1..];
        var accepted;
        if chs[i].External? {
          accepted := ChargeExternal();
        } else {
          accepted := ChargeInternal(chs[i]);
        }
        if !accepted {
          return false;
        }
        i := i + 1;
      }
      ok := true;
    }
  }

  /** Charging a list in order, stopping at the first refusal. */
  function ChargedAll(l: Limits, b: Counters, chs: seq<Channel>): Counters
    decreases |chs|
  {
    if chs == [] then b
    else if Refuses(l, b, chs[0]) then Charged(l, b, chs[0])
    else ChargedAll(l, Charged(l, b, chs[0]), chs[1..])
  }

  predicate AllAccepted(l: Limits, b: Counters, chs: seq<Channel>)
    decreases |chs|
  {
    chs == [] || (!Refuses(l, b, chs[0]) && AllAccepted(l, Charged(l, b, chs[0]), chs[1..]))
  }

  // ---- Laws over every sequence of calls ---------------------------------------------

  datatype Op = Charge(ch: Channel) | Enter | Leave | Record(k: Kind, before: Cost) | Estimate(k: Kind, c: Cost)

  function Apply(l: Limits, b: Counters, op: Op): Counters {
    match op
    case Charge(ch) => Charged(l, b, ch)
    case Enter => b.(depth := b.depth + 1)
    case Leave => b.(depth := Max(0, b.depth - 1))
    case Record(k, before) => Recorded(b, k, before)
    case Estimate(k, c) => b.(estimates := b.estimates[k := c])
  }

  function Run(l: Limits, b: Counters, ops: seq<Op>): Counters
    decreases |ops|
  {
    if ops == [] then b else Run(l, Apply(l, b, ops[0]), ops[1..])
  }

  /** How many charges on a channel satisfying `p` the run accepted inside unenforced regions. */
  function Unenforced(l: Limits, b: Counters, ops: seq<Op>, p: Channel -> bool): nat
    decreases |ops|
  {
    if ops == [] then 0
    else
      (if ops[0].Charge? && p(ops[0].ch) && b.depth > 0 && !Refuses(l, b, ops[0].ch) then 1 else 0)
      + Unenforced(l, Apply(l, b, ops[0]), ops[1..], p)
  }

  lemma {:induction false} Accounting(l: Limits, b: Counters, ops: seq<Op>)
    requires b.total == b.external + b.d1 + b.kv && b.kv >= b.kvReads + b.kvWrites
    ensures var r := Run(l, b, ops);
            r.total == r.external + r.d1 + r.kv && r.kv >= r.kvReads + r.kvWrites
    decreases |ops|
  {
    if ops != [] {
      ApplyAccounts(l, b, ops[0]);
      hide Apply;
      Accounting(l, Apply(l, b, ops[0]), ops[1..]);
    }
  }

  lemma ApplyAccounts(l: Limits, b: Counters, op: Op)
    requires b.total == b.external + b.d1 + b.kv && b.kv >= b.kvReads + b.kvWrites
    ensures var r := Apply(l, b, op);
            r.total == r.external + r.d1 + r.kv && r.kv >= r.kvReads + r.kvWrites
  {
    match op {
      case Charge(ch) => ChargeAccounts(l, b, ch);
      case Record(k, before) => assert Recorded(b, k, before).total == b.total;
      case _ =>
    }
    hide Charged;
  }

  lemma ChargeAccounts(l: Limits, b: Counters, ch: Channel)
    requires b.total == b.external + b.d1 + b.kv && b.kv >= b.kvReads + b.kvWrites
    ensures var r := Charged(l, b, ch);
            r.total == r.external + r.d1 + r.kv && r.kv >= r.kvReads + r.kvWrites
  {
    hide Refuses;
  }

  /** Over a whole run the limits are exceeded by at most the charges made inside unenforced regions. */
  lemma {:induction false} OverrunIsUnenforced(l: Limits, b: Counters, ops: seq<Op>)
    ensures Run(l, b, ops).external <= Max(b.external, l.external)
              + Unenforced(l, b, ops, (ch: Channel) => ch.External?)
    ensures Run(l, b, ops).total <= Max(b.total, l.total) + Unenforced(l, b, ops, (ch: Channel) => true)
    decreases |ops|
  {
    if ops != [] {
      OneOverrun(l, b, ops[0]);
      OverrunIsUnenforced(l, Apply(l, b, ops[0]), ops[1..]);
      hide Apply, Refuses;
    }
  }

  lemma OneOverrun(l: Limits, b: Counters, op: Op)
    ensures var free, r := op.Charge? && b.depth > 0 && !Refuses(l, b, op.ch), Apply(l, b, op);
            && Max(r.external, l.external) <= Max(b.external, l.external) + (if free && op.ch.External? then 1 else 0)
            && Max(r.total, l.total) <= Max(b.total, l.total) + (if free then 1 else 0)
  {
  }

  /** A run that enters no unenforced region never goes past either limit. */
  lemma LimitsHold(l: Limits, b: Counters, ops: seq<Op>)
    requires b.depth == 0 && b.external <= l.external && b.total <= l.total && Enter !in ops
    ensures Run(l, b, ops).external <= l.external && Run(l, b, ops).total <= l.total
  {
    OverrunIsUnenforced(l, b, ops);
    NothingUnenforced(l, b, ops, (ch: Channel) => ch.External?);
    NothingUnenforced(l, b, ops, (ch: Channel) => true);
  }

  lemma {:induction false} NothingUnenforced(l: Limits, b: Counters, ops: seq<Op>, p: Channel -> bool)
    requires b.depth == 0 && Enter !in ops
    ensures Unenforced(l, b, ops, p) == 0
    decreases |ops|
  {
    if ops != [] {
      assert ops[0] in ops && Enter !in ops[1..];
      NothingUnenforced(l, Apply(l, b, ops[0]), ops[1..], p);
    }
  }

  /** After the first refusal no external charge succeeds again, inside an unenforced region or not. */
  lemma {:induction false} HaltedForever(l: Limits, b: Counters, ops: seq<Op>)
    requires b.halted
    ensures Run(l, b, ops).halted && Run(l, b, ops).external == b.external
    decreases |ops|
  {
    if ops != [] {
      HaltedForever(l, Apply(l, b, ops[0]), ops[1..]);
    }
  }

  function CountExternal(chs: seq<Channel>): nat {
    if chs == [] then 0 else (if chs[0].External? then 1 else 0) + CountExternal(chs[1..])
  }

  lemma {:induction false} WithinRemainingIsAccepted(l: Limits, b: Counters, chs: seq<Channel>)
    requires !b.halted
    requires CountExternal(chs) <= Remaining(l, b).external && |chs| <= Remaining(l, b).total
    ensures AllAccepted(l, b, chs) && !ChargedAll(l, b, chs).halted
    decreases |chs|
  {
    if chs != [] {
      WithinRemainingIsAccepted(l, Charged(l, b, chs[0]), chs[1..]);
    }
  }

  /** A unit no dearer than the estimate, started because canStart said yes after a first unit, is never refused. */
  lemma {:induction false} EstimatedUnitIsNeverRefused(l: Limits, b: Counters, k: Kind, chs: seq<Channel>)
    requires Fits(l, b, k) && b.units > 0
    requires CountExternal(chs) <= EstimateOf(b, k).external && |chs| <= EstimateOf(b, k).total
    ensures AllAccepted(l, b, chs) && !ChargedAll(l, b, chs).halted
  {
    WithinRemainingIsAccepted(l, b, chs);
  }

  /** The progress guarantee: canStart only says no after a unit completed, or after a refusal. */
  lemma {:induction false} RefusalToStartImpliesProgress(l: Limits, ops: seq<Op>, k: Kind)
    ensures !Fits(l, Run(l, FRESH, ops), k) ==>
              || (exists op :: op in ops && op.Record?)
              || Refused(l, FRESH, ops)
  {
    NoRecordNoRefusal(l, FRESH, ops);
  }

  predicate Refused(l: Limits, b: Counters, ops: seq<Op>)
    decreases |ops|
  {
    ops != [] && ((ops[0].Charge? && Refuses(l, b, ops[0].ch)) || Refused(l, Apply(l, b, ops[0]), ops[1..]))
  }

  lemma {:induction false} NoRecordNoRefusal(l: Limits, b: Counters, ops: seq<Op>)
    ensures (forall op :: op in ops ==> !op.Record?) && !Refused(l, b, ops) ==>
              Run(l, b, ops).units == b.units && Run(l, b, ops).halted == b.halted
    decreases |ops|
  {
    if ops != [] {
      NoRecordNoRefusal(l, Apply(l, b, ops[0]), ops[1..]);
      assert forall op :: op in ops[1..] ==> op in ops;
    }
  }

  lemma {:induction false} ChargesKeepProgress(l: Limits, b: Counters, chs: seq<Channel>)
    ensures var r := ChargedAll(l, b, chs);
            && r.depth == b.depth && r.units == b.units && r.unitCounts == b.unitCounts && r.d1 >= b.d1
            && (b.halted ==> r.halted) && (!AllAccepted(l, b, chs) ==> r.halted)
    decreases |chs|
  {
    if chs != [] && !Refuses(l, b, chs[0]) {
      ChargesKeepProgress(l, Charged(l, b, chs[0]), chs[1..]);
    }
  }

  /** Charging one list after another stops for good at the first refusal. */
  lemma {:induction false} ChargedInTurn(l: Limits, b: Counters, first: seq<Channel>, rest: seq<Channel>)
    ensures AllAccepted(l, b, first + rest)
       <==> AllAccepted(l, b, first) && AllAccepted(l, ChargedAll(l, b, first), rest)
    ensures ChargedAll(l, b, first + rest)
         == if AllAccepted(l, b, first) then ChargedAll(l, ChargedAll(l, b, first), rest) else ChargedAll(l, b, first)
    decreases |first|
  {
    hide Refuses, Charged;
    if first == [] {
      assert first + rest == rest;
    } else {
      assert (first + rest)[0] == first[0] && (first + rest)[1..] == first[1..] + rest;
      ChargedInTurn(l, Charged(l, b, first[0]), first[1..], rest);
    }
  }
}
