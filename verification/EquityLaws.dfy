/** Laws of the equity replay: nothing is lost or charged twice, and no day's return knows what happens later. */
module EquityLaws {
  import opened Collections
  import opened Equity
  import opened Returns

  // ---- The ledger of one position -----------------------------------------------------------

  /** The position is past its last active date. */
  predicate Over(p: Position, date: int) {
    Closing(p, date) || (SameDay(p) && date >= OpenDate(p))
  }

  /** What every record keeps. */
  predicate RecordOk(p: Position, h: Held, c: real, date: int)
    requires p.entryPrice.Some? && p.entryPrice.value > 0.0
  {
    && (h.allocation.None? ==> h == FRESH)
    && (h.exitRealized ==>
          HasExit(p) && h.allocation.Some? && h.previousValue == ExitValue(p, h.allocation.value) && Over(p, date))
    && (h.exitCharged ==> h.allocation.Some? && c > 0.0 && Closing(p, date) && (HasExit(p) ==> h.exitRealized))
  }

  /** Value gained so far on what was put in. */
  function Gained(h: Held): real {
    if h.allocation.None? then 0.0 else h.previousValue - h.allocation.value
  }

  /** One entry cost, and one exit cost once it is charged. */
  function Costs(h: Held, c: real): real {
    if h.allocation.None? then 0.0 else h.allocation.value * c + (if h.exitCharged then h.previousValue * c else 0.0)
  }

  lemma OverMeansInactive(p: Position, was: int, date: int)
    requires was < date
    ensures Over(p, was) ==> Inactive(p, date) && Over(p, date)
    ensures Closing(p, was) ==> Closing(p, date)
    ensures Closing(p, date) ==> Inactive(p, date)
  {
  }

  lemma RealizeLedger(p: Position, h: Held, date: int, c: real)
    requires p.entryPrice.Some? && p.entryPrice.value > 0.0 && RecordOk(p, h, c, date)
    ensures var m := Realize(p, h, date);
            && RecordOk(p, m.held, c, date) && m.held.allocation == h.allocation
            && Gained(m.held) == Gained(h) + m.gain && Costs(m.held, c) == Costs(h, c) && m.cost == 0.0
            && (HasExit(p) && Closing(p, date) && h.allocation.Some? ==> m.held.exitRealized)
            && (!Closing(p, date) ==> m.held == h)
  {
    hide ExitValue, HasExit, SameDay;
  }

  lemma ChargeLedger(p: Position, h: Held, date: int, c: real)
    requires p.entryPrice.Some? && p.entryPrice.value > 0.0 && RecordOk(p, h, c, date)
    requires HasExit(p) && Closing(p, date) && h.allocation.Some? ==> h.exitRealized
    ensures var m := ChargeExit(p, h, date, c);
            && RecordOk(p, m.held, c, date) && m.held.allocation == h.allocation
            && m.held.exitRealized == h.exitRealized
            && Gained(m.held) == Gained(h) && Costs(m.held, c) == Costs(h, c) + m.cost && m.gain == 0.0
            && (c > 0.0 && Closing(p, date) && h.allocation.Some? ==> m.held.exitCharged)
            && (!Closing(p, date) ==> m.held == h)
  {
    hide ExitValue, HasExit, SameDay;
  }

  lemma MarkLedger(p: Position, h: Held, date: int, close: real, equity: real, c: real)
    requires p.entryPrice.Some? && p.entryPrice.value > 0.0 && p.sizePct.Some? && RecordOk(p, h, c, date)
    requires !h.exitRealized && !h.exitCharged && !Inactive(p, date) && OpenDate(p) <= date
    ensures var m := Mark(p, h, close, equity, c);
            && RecordOk(p, m.held, c, date) && m.held.allocation.Some?
            && Gained(m.held) == Gained(h) + m.gain && Costs(m.held, c) == Costs(h, c) + m.cost
  {
    hide PositionValueFactor;
  }

  /** One date moves the ledger by exactly what it reports, and keeps the record in order. */
  lemma LedgerStep(g: Grid, p: Position, h: Held, k: nat, equity: real, c: real)
    requires ValidGrid(g) && Usable(g, p) && k < |g.dates|
    requires if k == 0 then h == FRESH else RecordOk(p, h, c, g.dates[k - 1])
    ensures var m := Step(g, p, h, k, equity, c);
            && RecordOk(p, m.held, c, g.dates[k])
            && Gained(m.held) == Gained(h) + m.gain && Costs(m.held, c) == Costs(h, c) + m.cost
            && (Closing(p, g.dates[k]) ==> m.held.allocation == h.allocation)
            && (Closing(p, g.dates[k]) && h.allocation.Some? ==>
                  (HasExit(p) ==> m.held.exitRealized) && (c > 0.0 ==> m.held.exitCharged))
  {
    hide Realize, ChargeExit, Mark, Gained, Costs, ExitValue;
    var date := g.dates[k];
    if k > 0 {
      assert g.dates[k - 1] < date;
      OverMeansInactive(p, g.dates[k - 1], date);
    }
    OverMeansInactive(p, date - 1, date);
    hide Over, Closing, SameDay, HasExit;
    RealizeLedger(p, h, date, c);
    var r := Realize(p, h, date);
    ChargeLedger(p, r.held, date, c);
    var x := ChargeExit(p, r.held, date, c);
    if OpenDate(p) <= date && !Inactive(p, date) {
      MarkLedger(p, x.held, date, g.closes[p.ticker][k], equity, c);
    }
  }

  /** The gains of the first `k` dates of one position, and the costs. */
  function GainSum(g: Grid, p: Position, c: real, e: seq<real>, k: nat): real
    requires ValidGrid(g) && Usable(g, p) && k <= |g.dates| && k <= |e|
  {
    if k == 0 then 0.0 else GainSum(g, p, c, e, k - 1) + MoveAt(g, p, c, e, k - 1).gain
  }

  function CostSum(g: Grid, p: Position, c: real, e: seq<real>, k: nat): real
    requires ValidGrid(g) && Usable(g, p) && k <= |g.dates| && k <= |e|
  {
    if k == 0 then 0.0 else CostSum(g, p, c, e, k - 1) + MoveAt(g, p, c, e, k - 1).cost
  }

  /**
   * Over any number of dates a position's costs are one entry cost on what was put in and at most one exit cost on its
   * last value, and its gains are its value less what was put in.
   */
  lemma {:induction false} CostsAreChargedOnce(g: Grid, p: Position, c: real, e: seq<real>, k: nat)
    requires ValidGrid(g) && Usable(g, p) && k <= |g.dates| && k <= |e|
    ensures var h := HeldAt(g, p, c, e, k);
            && GainSum(g, p, c, e, k) == Gained(h) && CostSum(g, p, c, e, k) == Costs(h, c)
            && (k == 0 || RecordOk(p, h, c, g.dates[k - 1]))
  {
    if k > 0 {
      CostsAreChargedOnce(g, p, c, e, k - 1);
      LedgerStep(g, p, HeldAt(g, p, c, e, k - 1), k - 1, e[k - 1], c);
      hide Step, RecordOk, Gained, Costs;
    }
  }

  // ---- Conservation -------------------------------------------------------------------------

  /** What a position has added to the portfolio. */
  function Net(g: Grid, p: Position, c: real, e: seq<real>, k: nat): real
    requires ValidGrid(g) && Usable(g, p) && k <= |g.dates| && k <= |e|
  {
    Gained(HeldAt(g, p, c, e, k)) - Costs(HeldAt(g, p, c, e, k), c)
  }

  function NetSum(g: Grid, ps: seq<Position>, c: real, e: seq<real>, k: nat): real
    requires ValidGrid(g) && AllUsable(g, ps) && k <= |g.dates| && k <= |e|
  {
    if ps == [] then 0.0 else NetSum(g, ps[..|ps| - 1], c, e, k) + Net(g, ps[|ps| - 1], c, e, k)
  }

  lemma {:induction false} NetGrows(g: Grid, ps: seq<Position>, c: real, e: seq<real>, k: nat)
    requires ValidGrid(g) && AllUsable(g, ps) && k < |g.dates| && k < |e|
    ensures NetSum(g, ps, c, e, k + 1) == NetSum(g, ps, c, e, k) + DayPnl(g, ps, c, e, k)
  {
    if ps != [] {
      var p := ps[|ps| - 1];
      NetGrows(g, ps[..|ps| - 1], c, e, k);
      CostsAreChargedOnce(g, p, c, e, k);
      LedgerStep(g, p, HeldAt(g, p, c, e, k), k, e[k], c);
      hide Step, RecordOk, Gained, Costs;
    }
  }

  lemma {:induction false} NetKeeps(g: Grid, ps: seq<Position>, c: real, e: seq<real>, f: seq<real>, k: nat)
    requires ValidGrid(g) && AllUsable(g, ps) && k <= |g.dates| && k <= |e| && k <= |f| && e[..k] == f[..k]
    ensures NetSum(g, ps, c, e, k) == NetSum(g, ps, c, f, k)
  {
    hide HeldAt, Gained, Costs;
    if ps != [] {
      HeldKeeps(g, ps[|ps| - 1], c, e, f, k);
      NetKeeps(g, ps[..|ps| - 1], c, e, f, k);
    }
  }

  /**
   * At every date the equity is 1 plus, over the positions sized so far, last value less allocation less costs
   * charged.
   */
  lemma {:induction false} EquityIsConserved(g: Grid, ps: seq<Position>, c: real, k: nat)
    requires ValidGrid(g) && AllUsable(g, ps) && k <= |g.dates|
    ensures var e := EquityPath(g, ps, c, k); e[k] == 1.0 + NetSum(g, ps, c, e, k)
  {
    if k == 0 {
      NothingYet(g, ps, c, [1.0]);
    } else {
      EquityIsConserved(g, ps, c, k - 1);
      var e, f := EquityPath(g, ps, c, k - 1), EquityPath(g, ps, c, k);
      NetGrows(g, ps, c, e, k - 1);
      assert e[..k] == f[..k];
      NetKeeps(g, ps, c, e, f, k);
    }
  }

  lemma {:induction false} NothingYet(g: Grid, ps: seq<Position>, c: real, e: seq<real>)
    requires ValidGrid(g) && AllUsable(g, ps)
    ensures NetSum(g, ps, c, e, 0) == 0.0
  {
    if ps != [] {
      NothingYet(g, ps[..|ps| - 1], c, e);
    }
  }

  // ---- The realized contribution --------------------------------------------------------------

  /** The gross return of a closed position at its exit price. */
  function ExitGross(p: Position): real
    requires p.entryPrice.Some? && p.entryPrice.value > 0.0 && HasExit(p)
  {
    GrossReturn(p.direction, p.entryPrice.value, p.exitPrice.value)
  }

  lemma FactorIsGross(p: Position, allocation: real)
    requires p.entryPrice.Some? && p.entryPrice.value > 0.0 && HasExit(p) && !p.direction.NoDirection?
    requires p.direction.Short? ==> p.exitPrice.value <= 2.0 * p.entryPrice.value
    ensures ExitValue(p, allocation) == allocation * (1.0 + ExitGross(p))
  {
    var e, x := p.entryPrice.value, p.exitPrice.value;
    RelativeMove(x, e);
  }

  lemma QuotientIs(n: real, e: real, q: real)
    requires e > 0.0 && n == q * e
    ensures n / e == q
  {
  }

  lemma RelativeMove(x: real, e: real)
    requires e > 0.0
    ensures (x - e) / e == x / e - 1.0 && (e - x) / e == 1.0 - x / e
    ensures x <= 2.0 * e ==> x / e <= 2.0
  {
    var q := x / e;
    assert x == q * e;
    QuotientIs(x - e, e, q - 1.0);
    QuotientIs(e - x, e, 1.0 - q);
  }

  /**
   * A position with an exit price, once a date after its closing has been replayed, has added exactly its
   * allocation times gross * (1 - c) - 2c, and so differs from its recorded net return, per unit of allocation,
   * by c times its gross return.
   */
  lemma {:induction false} RealizedContribution(g: Grid, p: Position, costBps: Option<real>, e: seq<real>, k: nat)
    requires ValidGrid(g) && Usable(g, p) && 0 < k <= |g.dates| && k <= |e|
    requires HasExit(p) && Closing(p, g.dates[k - 1])
    requires p.direction.Short? ==> p.exitPrice.value <= 2.0 * p.entryPrice.value
    requires HeldAt(g, p, SideCostFraction(costBps), e, k).allocation.Some?
    ensures var c := SideCostFraction(costBps);
            var a, net := HeldAt(g, p, c, e, k).allocation.value, Net(g, p, c, e, k);
            && net == a * (ExitGross(p) * (1.0 - c) - 2.0 * c)
            && net ==
                 a * (RealizedReturn(p.direction, p.entryPrice.value, p.exitPrice.value, costBps) - c * ExitGross(p))
  {
    hide HeldAt, ExitGross, HasExit, Closing, SideCostFraction, RealizedReturn, Gained, Costs, ValidGrid, Net;
    var c := SideCostFraction(costBps);
    var now := HeldAt(g, p, c, e, k);
    RealizedRecord(g, p, c, e, k);
    CostIsNonNegative(costBps);
    NetOfRecord(now, ExitGross(p), c);
    Expand(now.allocation.value, ExitGross(p), c);
    NetIs(g, p, c, e, k);
    NetReturnIs(p, costBps);
  }

  lemma CostIsNonNegative(costBps: Option<real>)
    ensures SideCostFraction(costBps) >= 0.0
  {
  }

  lemma NetIs(g: Grid, p: Position, c: real, e: seq<real>, k: nat)
    requires ValidGrid(g) && Usable(g, p) && k <= |g.dates| && k <= |e|
    ensures Net(g, p, c, e, k) == Gained(HeldAt(g, p, c, e, k)) - Costs(HeldAt(g, p, c, e, k), c)
  {
  }

  lemma NetReturnIs(p: Position, costBps: Option<real>)
    requires p.entryPrice.Some? && p.entryPrice.value > 0.0 && HasExit(p)
    ensures RealizedReturn(p.direction, p.entryPrice.value, p.exitPrice.value, costBps)
         == ExitGross(p) - 2.0 * SideCostFraction(costBps)
  {
  }

  /** Once a date after its closing has been replayed, a position stands at its exit value with both costs charged. */
  lemma RealizedRecord(g: Grid, p: Position, c: real, e: seq<real>, k: nat)
    requires ValidGrid(g) && Usable(g, p) && 0 < k <= |g.dates| && k <= |e|
    requires HasExit(p) && Closing(p, g.dates[k - 1])
    requires p.direction.Short? ==> p.exitPrice.value <= 2.0 * p.entryPrice.value
    requires HeldAt(g, p, c, e, k).allocation.Some?
    ensures var h := HeldAt(g, p, c, e, k);
            && h.previousValue == h.allocation.value * (1.0 + ExitGross(p)) && (c > 0.0 ==> h.exitCharged)
  {
    hide Step, ExitValue, ExitGross, Gained, Costs;
    var h := HeldAt(g, p, c, e, k - 1);
    CostsAreChargedOnce(g, p, c, e, k - 1);
    CostsAreChargedOnce(g, p, c, e, k);
    LedgerStep(g, p, h, k - 1, e[k - 1], c);
    FactorIsGross(p, HeldAt(g, p, c, e, k).allocation.value);
  }

  lemma NetOfRecord(h: Held, gross: real, c: real)
    requires h.allocation.Some? && h.previousValue == h.allocation.value * (1.0 + gross) && c >= 0.0
             && (c > 0.0 ==> h.exitCharged)
    ensures Gained(h) - Costs(h, c) ==
            h.allocation.value * (1.0 + gross) - h.allocation.value - (h.allocation.value * c
                + h.allocation.value * (1.0 + gross) * c)
  {
    if c == 0.0 {
      assert h.previousValue * c == 0.0;
    }
  }

  lemma Expand(a: real, gross: real, c: real)
    ensures a * (1.0 + gross) - a - (a * c + a * (1.0 + gross) * c) == a * (gross * (1.0 - c) - 2.0 * c)
    ensures a * (gross * (1.0 - c) - 2.0 * c) == a * (gross - 2.0 * c - c * gross)
  {
    assert a * (1.0 + gross) == a + a * gross;
    assert (a + a * gross) * c == a * c + a * gross * c;
    assert gross * (1.0 - c) == gross - gross * c;
    assert a * (gross - gross * c - 2.0 * c) == a * gross - a * gross * c - 2.0 * (a * c);
  }

  // ---- Causality ------------------------------------------------------------------------------

  /** A position as it was known at the end of a date: an exit still ahead is not known. */
  function Mask(p: Position, date: int): Position {
    if CloseDate(p).Some? && CloseDate(p).value > date then p.(closedAt := None, exitPrice := None) else p
  }

  /** The positions as they were known at the end of a date: opened by then, exits still ahead erased. */
  function KnownAt(ps: seq<Position>, date: int): seq<Position> {
    if ps == [] then []
    else
      var p := ps[|ps| - 1];
      KnownAt(ps[..|ps| - 1], date) + (if OpenDate(p) <= date then [Mask(p, date)] else [])
  }

  lemma {:induction false} KnownUsable(g: Grid, ps: seq<Position>, date: int)
    requires AllUsable(g, ps)
    ensures AllUsable(g, KnownAt(ps, date))
  {
    if ps != [] {
      KnownUsable(g, ps[..|ps| - 1], date);
      assert ps[|ps| - 1] in ps;
    }
  }

  lemma UnexitedMark(p: Position, m: Position, h: Held, close: real, equity: real, c: real)
    requires p.entryPrice.Some? && p.entryPrice.value > 0.0 && p.sizePct.Some?
    requires m.entryPrice == p.entryPrice && m.sizePct == p.sizePct && m.direction == p.direction
    requires !SameDay(p) && !SameDay(m)
    ensures Mark(m, h, close, equity, c) == Mark(p, h, close, equity, c)
  {
  }

  lemma MaskedStep(g: Grid, p: Position, date: int, h: Held, k: nat, equity: real, c: real)
    requires ValidGrid(g) && Usable(g, p) && k < |g.dates| && g.dates[k] <= date && OpenDate(p) <= date
    ensures Usable(g, Mask(p, date)) && Step(g, Mask(p, date), h, k, equity, c) == Step(g, p, h, k, equity, c)
  {
    var m := Mask(p, date);
    assert OpenDate(m) == OpenDate(p);
    assert Closing(m, g.dates[k]) == Closing(p, g.dates[k]) && Inactive(m, g.dates[k]) == Inactive(p, g.dates[k]);
    if CloseDate(p).Some? && CloseDate(p).value > date {
      assert !SameDay(p) && !SameDay(m) && !Closing(p, g.dates[k]);
      assert Realize(m, h, g.dates[k]) == Realize(p, h, g.dates[k]);
      assert ChargeExit(m, h, g.dates[k], c) == ChargeExit(p, h, g.dates[k], c);
      UnexitedMark(p, m, h, g.closes[p.ticker][k], equity, c);
    }
  }

  lemma UnopenedStep(g: Grid, p: Position, h: Held, k: nat, equity: real, c: real)
    requires ValidGrid(g) && Usable(g, p) && k < |g.dates| && g.dates[k] < OpenDate(p)
    ensures Step(g, p, h, k, equity, c) == Move(h, 0.0, 0.0, 0.0)
  {
  }

  lemma {:induction false} MaskedHeld(g: Grid, p: Position, date: int, c: real, e: seq<real>, k: nat)
    requires ValidGrid(g) && Usable(g, p) && k <= |g.dates| && k <= |e| && OpenDate(p) <= date
    requires k > 0 ==> g.dates[k - 1] <= date
    ensures Usable(g, Mask(p, date)) && HeldAt(g, Mask(p, date), c, e, k) == HeldAt(g, p, c, e, k)
  {
    if k > 0 {
      assert k > 1 ==> g.dates[k - 2] < g.dates[k - 1];
      MaskedHeld(g, p, date, c, e, k - 1);
      MaskedStep(g, p, date, HeldAt(g, p, c, e, k - 1), k - 1, e[k - 1], c);
    }
    hide Mask, Step;
  }

  /** A date's profit up to the cut is that of the positions known at the cut. */
  lemma {:induction false} KnownDay(g: Grid, ps: seq<Position>, date: int, c: real, e: seq<real>, k: nat)
    requires ValidGrid(g) && AllUsable(g, ps) && k < |g.dates| && k < |e| && g.dates[k] <= date
    ensures AllUsable(g, KnownAt(ps, date))
    ensures DayPnl(g, KnownAt(ps, date), c, e, k) == DayPnl(g, ps, c, e, k)
    ensures DayInvested(g, KnownAt(ps, date), c, e, k) == DayInvested(g, ps, c, e, k)
  {
    KnownUsable(g, ps, date);
    if ps != [] {
      var p, before := ps[|ps| - 1], ps[..|ps| - 1];
      assert p in ps;
      KnownDay(g, before, date, c, e, k);
      KnownUsable(g, before, date);
      if OpenDate(p) <= date {
        assert k > 0 ==> g.dates[k - 1] < g.dates[k];
        MaskedHeld(g, p, date, c, e, k);
        MaskedStep(g, p, date, HeldAt(g, p, c, e, k), k, e[k], c);
        var known := KnownAt(before, date);
        assert (known + [Mask(p, date)])[..|known|] == known;
      } else {
        UnopenedStep(g, p, HeldAt(g, p, c, e, k), k, e[k], c);
        assert KnownAt(ps, date) == KnownAt(before, date);
      }
      hide Mask, Step, HeldAt;
    }
  }

  /**
   * The score is causal: equity, returns and exposure up to a date are those of the positions as known at that date,
   * whatever was opened or closed later.
   */
  lemma {:induction false} ScoreIsCausal(g: Grid, ps: seq<Position>, date: int, c: real, k: nat)
    requires ValidGrid(g) && AllUsable(g, ps) && k <= |g.dates| && (k > 0 ==> g.dates[k - 1] <= date)
    ensures AllUsable(g, KnownAt(ps, date))
    ensures EquityPath(g, KnownAt(ps, date), c, k) == EquityPath(g, ps, c, k)
    ensures OnReturns(g, KnownAt(ps, date), c, k) == OnReturns(g, ps, c, k)
    ensures OnExposure(g, KnownAt(ps, date), c, k) == OnExposure(g, ps, c, k)
  {
    hide KnownAt, DayPnl, DayInvested, AllUsable;
    KnownUsable(g, ps, date);
    if k > 0 {
      assert k > 1 ==> g.dates[k - 2] < g.dates[k - 1];
      ScoreIsCausal(g, ps, date, c, k - 1);
      KnownDay(g, ps, date, c, EquityPath(g, ps, c, k - 1), k - 1);
    }
  }

  // ---- A truncated grid -------------------------------------------------------------------------

  /** How many dates lie before `end`. */
  function DatesBefore(dates: seq<int>, end: int): (n: nat)
    ensures n <= |dates|
    ensures forall i :: 0 <= i < n ==> dates[i] < end
    ensures n < |dates| ==> dates[n] >= end
  {
    if dates == [] || dates[0] >= end then 0 else 1 + DatesBefore(dates[1..], end)
  }

  function TruncateGrid(g: Grid, end: int): Grid
    requires forall t :: t in g.tickers ==> t in g.closes && |g.closes[t]| == |g.dates|
  {
    var n := DatesBefore(g.dates, end);
    g.(dates := g.dates[..n], closes := map t | t in g.tickers :: g.closes[t][..n])
  }

  lemma TruncatedIsValid(g: Grid, end: int)
    requires ValidGrid(g)
    ensures ValidGrid(TruncateGrid(g, end)) && TruncateGrid(g, end).tickers == g.tickers
  {
  }

  lemma {:induction false} TruncatedHeld(g: Grid, end: int, p: Position, c: real, e: seq<real>, k: nat)
    requires ValidGrid(g) && ValidGrid(TruncateGrid(g, end)) && Usable(g, p) && k <= |TruncateGrid(g, end).dates|
             && k <= |e|
    ensures HeldAt(TruncateGrid(g, end), p, c, e, k) == HeldAt(g, p, c, e, k)
  {
    hide Realize, ChargeExit, Mark;
    if k > 0 {
      TruncatedHeld(g, end, p, c, e, k - 1);
    }
  }

  lemma {:induction false} TruncatedDay(g: Grid, end: int, ps: seq<Position>, c: real, e: seq<real>, k: nat)
    requires ValidGrid(g) && ValidGrid(TruncateGrid(g, end)) && AllUsable(g, ps) && AllUsable(TruncateGrid(g, end), ps)
    requires k < |TruncateGrid(g, end).dates| && k < |e|
    ensures DayPnl(TruncateGrid(g, end), ps, c, e, k) == DayPnl(g, ps, c, e, k)
    ensures DayInvested(TruncateGrid(g, end), ps, c, e, k) == DayInvested(g, ps, c, e, k)
  {
    hide Realize, ChargeExit, Mark;
    if ps != [] {
      TruncatedDay(g, end, ps[..|ps| - 1], c, e, k);
      TruncatedHeld(g, end, ps[|ps| - 1], c, e, k);
      hide HeldAt;
    }
  }

  /** Replaying on the truncated grid gives exactly the first part of the full replay. */
  lemma {:induction false} TruncatedReplayIsPrefix(g: Grid, end: int, ps: seq<Position>, c: real, k: nat)
    requires ValidGrid(g) && AllUsable(g, ps) && k <= |TruncateGrid(g, end).dates|
    ensures ValidGrid(TruncateGrid(g, end)) && AllUsable(TruncateGrid(g, end), ps)
    ensures EquityPath(TruncateGrid(g, end), ps, c, k) == EquityPath(g, ps, c, k)
    ensures OnReturns(TruncateGrid(g, end), ps, c, k) == OnReturns(g, ps, c, k)
    ensures OnExposure(TruncateGrid(g, end), ps, c, k) == OnExposure(g, ps, c, k)
  {
    TruncatedIsValid(g, end);
    if k > 0 {
      TruncatedReplayIsPrefix(g, end, ps, c, k - 1);
      TruncatedDay(g, end, ps, c, EquityPath(g, ps, c, k - 1), k - 1);
      hide TruncateGrid, DayPnl, DayInvested;
    }
  }
}
