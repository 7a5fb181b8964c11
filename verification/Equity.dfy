/**
 * Daily portfolio equity (src/backtest/equity.js): the buy-and-hold curve, and the replay of the positions the signal
 * opened, marked to market and charged their costs day by day.
 */
module Equity {
  import opened Calendar
  import opened Collections
  import opened Returns

  /** Prices over a span: one column of closes per scored ticker, and the price its buy-and-hold side pays. */
  datatype Grid = Grid(tickers: seq<int>, dates: seq<int>, closes: map<int, seq<real>>, basis: map<int, real>)

  datatype Position = Position(id: int, ticker: int, direction: Direction, entryPrice: Option<real>,
                               sizePct: Option<real>,
                               openedAt: int, closedAt: Option<int>, exitPrice: Option<real>)

  ghost predicate ValidGrid(g: Grid) {
    && (forall i, j :: 0 <= i < j < |g.dates| ==> g.dates[i] < g.dates[j])
    && (forall t :: t in g.tickers ==> t in g.closes && |g.closes[t]| == |g.dates| && t in g.basis && g.basis[t] > 0.0)
  }

  /** Value of one unit of allocation once the price is `move` times the entry price; a short is floored at nothing. */
  function PositionValueFactor(d: Direction, move: real): real {
    if d.Long? then move else if move <= 2.0 then 2.0 - move else 0.0
  }

  /** What can be replayed: a scored ticker, a direction, a usable entry price and size. */
  predicate Usable(g: Grid, p: Position) {
    && p.ticker in g.tickers && !p.direction.NoDirection?
    && p.entryPrice.Some? && p.entryPrice.value > 0.0 && p.sizePct.Some? && p.sizePct.value > 0.0
  }

  function OpenDate(p: Position): int {
    DayOf(p.openedAt)
  }

  function CloseDate(p: Position): Option<int> {
    if p.closedAt.Some? then Some(DayOf(p.closedAt.value)) else None
  }

  predicate HasExit(p: Position) {
    p.closedAt.Some? && p.exitPrice.Some? && p.exitPrice.value > 0.0
  }

  predicate SameDay(p: Position) {
    CloseDate(p) == Some(OpenDate(p))
  }

  // ---- One position, one day ----------------------------------------------------------------

  /** The replay record of a position. */
  datatype Held = Held(allocation: Option<real>, previousValue: real, exitCharged: bool, exitRealized: bool)

  const FRESH := Held(None, 0.0, false, false)

  /** What a day does to a position: its new record, the value gained, the costs charged and what was invested in it. */
  datatype Move = Move(held: Held, gain: real, cost: real, invested: real)

  /** The first grid dates on or after the close date and after the open date. */
  predicate Closing(p: Position, date: int) {
    CloseDate(p).Some? && date >= CloseDate(p).value && date > OpenDate(p)
  }

  predicate Inactive(p: Position, date: int) {
    CloseDate(p).Some? && if SameDay(p) then date != OpenDate(p) else date >= CloseDate(p).value
  }

  function ExitValue(p: Position, allocation: real): real
    requires p.entryPrice.Some? && p.entryPrice.value > 0.0 && HasExit(p)
  {
    allocation * PositionValueFactor(p.direction, p.exitPrice.value / p.entryPrice.value)
  }

  /** Revalues a closed position at its exit price, once. */
  function Realize(p: Position, h: Held, date: int): Move
    requires p.entryPrice.Some? && p.entryPrice.value > 0.0
  {
    if HasExit(p) && !h.exitRealized && h.allocation.Some? && Closing(p, date) then
      var value := ExitValue(p, h.allocation.value);
      Move(h.(previousValue := value, exitRealized := true), value - h.previousValue, 0.0, 0.0)
    else Move(h, 0.0, 0.0, 0.0)
  }

  /** Charges the exit cost, once. */
  function ChargeExit(p: Position, h: Held, date: int, c: real): Move {
    if c > 0.0 && h.allocation.Some? && !h.exitCharged && Closing(p, date) then
      Move(h.(exitCharged := true), 0.0, h.previousValue * c, 0.0)
    else Move(h, 0.0, 0.0, 0.0)
  }

  /** Sizes a position if it has no size yet, then values it at a price. */
  function ValueAt(d: Direction, entry: real, sizePct: real, h: Held, price: real, equity: real, c: real): Move
    requires entry > 0.0
  {
    var opens := h.allocation.None?;
    var allocation := if opens then sizePct * equity else h.allocation.value;
    var was := if opens then allocation else h.previousValue;
    var value := allocation * PositionValueFactor(d, price / entry);
    Move(h.(allocation := Some(allocation), previousValue := value), value - was, if opens then allocation * c else 0.0,
         was)
  }

  /** Marks an active position: at the close, or at the exit of a same-day round trip. */
  function Mark(p: Position, h: Held, close: real, equity: real, c: real): Move
    requires p.entryPrice.Some? && p.entryPrice.value > 0.0 && p.sizePct.Some?
  {
    var atExit := HasExit(p) && SameDay(p);
    var m := ValueAt(p.direction, p.entryPrice.value, p.sizePct.value, h, if atExit then p.exitPrice.value else close,
                     equity, c);
    if atExit then m.(held := m.held.(exitRealized := true)) else m
  }

  function Step(g: Grid, p: Position, h: Held, k: nat, equity: real, c: real): Move
    requires ValidGrid(g) && Usable(g, p) && k < |g.dates|
  {
    var date := g.dates[k];
    if OpenDate(p) > date then Move(h, 0.0, 0.0, 0.0)
    else
      var r := Realize(p, h, date);
      var x := ChargeExit(p, r.held, date, c);
      if Inactive(p, date) then Move(x.held, r.gain, x.cost, 0.0)
      else
        var m := Mark(p, x.held, g.closes[p.ticker][k], equity, c);
        Move(m.held, r.gain + m.gain, x.cost + m.cost, m.invested)
  }

  // ---- The replay ---------------------------------------------------------------------------

  ghost predicate AllUsable(g: Grid, ps: seq<Position>) {
    forall p :: p in ps ==> Usable(g, p)
  }

  /** A position's record after the first `k` dates, given the equity at the start of each. */
  function HeldAt(g: Grid, p: Position, c: real, e: seq<real>, k: nat): Held
    requires ValidGrid(g) && Usable(g, p) && k <= |g.dates| && k <= |e|
  {
    if k == 0 then FRESH else Step(g, p, HeldAt(g, p, c, e, k - 1), k - 1, e[k - 1], c).held
  }

  /** What date `k` does to a position. */
  function MoveAt(g: Grid, p: Position, c: real, e: seq<real>, k: nat): Move
    requires ValidGrid(g) && Usable(g, p) && k < |g.dates| && k < |e|
  {
    Step(g, p, HeldAt(g, p, c, e, k), k, e[k], c)
  }

  function DayPnl(g: Grid, ps: seq<Position>, c: real, e: seq<real>, k: nat): real
    requires ValidGrid(g) && AllUsable(g, ps) && k < |g.dates| && k < |e|
  {
    if ps == [] then 0.0
    else
      var m := MoveAt(g, ps[|ps| - 1], c, e, k);
      DayPnl(g, ps[..|ps| - 1], c, e, k) + (m.gain - m.cost)
  }

  function DayInvested(g: Grid, ps: seq<Position>, c: real, e: seq<real>, k: nat): real
    requires ValidGrid(g) && AllUsable(g, ps) && k < |g.dates| && k < |e|
  {
    if ps == [] then 0.0 else DayInvested(g, ps[..|ps| - 1], c, e, k) + MoveAt(g, ps[|ps| - 1], c, e, k).invested
  }

  /** The equity at the start of each of the first `k` dates, and after the last of them; it starts at 1. */
  function EquityPath(g: Grid, ps: seq<Position>, c: real, k: nat): (e: seq<real>)
    requires ValidGrid(g) && AllUsable(g, ps) && k <= |g.dates|
    ensures |e| == k + 1
  {
    if k == 0 then [1.0]
    else
      var e := EquityPath(g, ps, c, k - 1);
      e + [e[k - 1] + DayPnl(g, ps, c, e, k - 1)]
  }

  /** A ratio; None when there is nothing to divide by. */
  function Ratio(a: real, b: real): Option<real> {
    if b == 0.0 then None else Some(a / b)
  }

  function OnReturns(g: Grid, ps: seq<Position>, c: real, k: nat): (r: seq<Option<real>>)
    requires ValidGrid(g) && AllUsable(g, ps) && k <= |g.dates|
    ensures |r| == k
  {
    if k == 0 then []
    else
      var e := EquityPath(g, ps, c, k - 1);
      OnReturns(g, ps, c, k - 1) + [Ratio(DayPnl(g, ps, c, e, k - 1), e[k - 1])]
  }

  function OnExposure(g: Grid, ps: seq<Position>, c: real, k: nat): (r: seq<Option<real>>)
    requires ValidGrid(g) && AllUsable(g, ps) && k <= |g.dates|
    ensures |r| == k
  {
    if k == 0 then []
    else
      var e := EquityPath(g, ps, c, k - 1);
      OnExposure(g, ps, c, k - 1) + [Ratio(DayInvested(g, ps, c, e, k - 1), e[k - 1])]
  }

  function Replayable(g: Grid, ps: seq<Position>): (r: seq<Position>)
    ensures AllUsable(g, r)
  {
    Filter(ps, (p: Position) => Usable(g, p))
  }

  /** The ids of the positions that were ever sized. */
  ghost function TradedIds(g: Grid, ps: seq<Position>, c: real): set<int>
    requires ValidGrid(g) && AllUsable(g, ps)
  {
    set p | p in ps && HeldAt(g, p, c, EquityPath(g, ps, c, |g.dates|), |g.dates|).allocation.Some? :: p.id
  }

  datatype OnSide = OnSide(daily: seq<Option<real>>, exposure: seq<Option<real>>, positionsTraded: nat,
                           positionsIgnored: nat)

  /** The records of all positions after `k` dates. */
  ghost predicate RecordsAt(held: seq<Held>, g: Grid, ps: seq<Position>, c: real, e: seq<real>, k: nat)
    requires ValidGrid(g) && AllUsable(g, ps) && k <= |g.dates| && k <= |e|
  {
    |held| == |ps| && forall i :: 0 <= i < |ps| ==> held[i] == HeldAt(g, ps[i], c, e, k)
  }

  lemma {:induction false} MoveFromRecord(g: Grid, ps: seq<Position>, c: real, e: seq<real>, k: nat, held: seq<Held>,
                                          i: nat)
    requires ValidGrid(g) && AllUsable(g, ps) && k < |g.dates| && k < |e| && RecordsAt(held, g, ps, c, e, k) && i < |ps|
    ensures Usable(g, ps[i]) && Step(g, ps[i], held[i], k, e[k], c) == MoveAt(g, ps[i], c, e, k)
    ensures DayPnl(g, ps[..i + 1], c, e, k) ==
              DayPnl(g, ps[..i], c, e, k) + (MoveAt(g, ps[i], c, e, k).gain - MoveAt(g, ps[i], c, e, k).cost)
    ensures DayInvested(g, ps[..i + 1], c, e, k) ==
              DayInvested(g, ps[..i], c, e, k) + MoveAt(g, ps[i], c, e, k).invested
    ensures MoveAt(g, ps[i], c, e, k).held == HeldAt(g, ps[i], c, e, k + 1)
  {
    assert ps[..i + 1][..i] == ps[..i];
  }

  /** One grid date: every position in turn, its record updated in place. */
  method ReplayDay(g: Grid, ps: seq<Position>, c: real, held: array<Held>, k: nat, equity: real, ghost e: seq<real>)
    returns (pnl: real, invested: real)
    requires ValidGrid(g) && AllUsable(g, ps) && k < |g.dates| && k < |e| && e[k] == equity
    requires RecordsAt(held[..], g, ps, c, e, k)
    modifies held
    ensures RecordsAt(held[..], g, ps, c, e, k + 1)
    ensures pnl == DayPnl(g, ps, c, e, k) && invested == DayInvested(g, ps, c, e, k)
  {
    hide Step, MoveAt, HeldAt;
    pnl, invested := 0.0, 0.0;
    ghost var was := held[..];
    for i := 0 to |ps|
      invariant forall j :: 0 <= j < i ==> held[j] == HeldAt(g, ps[j], c, e, k + 1)
      invariant forall j :: i <= j < |ps| ==> held[j] == was[j]
      invariant pnl == DayPnl(g, ps[..i], c, e, k) && invested == DayInvested(g, ps[..i], c, e, k)
    {
      MoveFromRecord(g, ps, c, e, k, was, i);
      var m := Step(g, ps[i], held[i], k, equity, c);
      pnl := pnl + (m.gain - m.cost);
      invested := invested + m.invested;
      held[i] := m.held;
    }
    assert ps[..|ps|] == ps;
  }

  /** The signal side of the comparison. */
  method OnEquityReturns(g: Grid, positions: seq<Position>, costBps: Option<real>) returns (r: OnSide)
    requires ValidGrid(g)
    ensures g.tickers == [] || g.dates == [] ==> r == OnSide([], [], 0, |positions|)
    ensures g.tickers != [] && g.dates != [] ==>
              var ps, c := Replayable(g, positions), SideCostFraction(costBps);
              && r.daily == OnReturns(g, ps, c, |g.dates|) && r.exposure == OnExposure(g, ps, c, |g.dates|)
              && r.positionsTraded == |TradedIds(g, ps, c)| && r.positionsIgnored == |positions| - |ps|
  {
    if g.tickers == [] || g.dates == [] {
      return OnSide([], [], 0, |positions|);
    }
    var c := SideCostFraction(costBps);
    var ps := Replayable(g, positions);
    var held := new Held[|ps|](_ => FRESH);
    var daily: seq<Option<real>>, exposure: seq<Option<real>> := [], [];
    var equity := 1.0;
    ghost var e := [1.0];
    for k := 0 to |g.dates|
      invariant e == EquityPath(g, ps, c, k) && equity == e[k]
      invariant RecordsAt(held[..], g, ps, c, e, k)
      invariant daily == OnReturns(g, ps, c, k) && exposure == OnExposure(g, ps, c, k)
    {
      var pnl, invested := ReplayDay(g, ps, c, held, k, equity, e);
      daily := daily + [Ratio(pnl, equity)];
      exposure := exposure + [Ratio(invested, equity)];
      equity := equity + pnl;
      ghost var longer := e + [equity];
      RecordsKeep(held[..], g, ps, c, e, longer, k + 1);
      e := longer;
    }
    var traded := TradedOf(ps, held[..]);
    TradedAre(g, ps, c, held[..], traded);
    r := OnSide(daily, exposure, |traded|, |positions| - |ps|);
  }

  function TradedOf(ps: seq<Position>, held: seq<Held>): set<int>
    requires |ps| == |held|
  {
    set i | 0 <= i < |ps| && held[i].allocation.Some? :: ps[i].id
  }

  lemma TradedAre(g: Grid, ps: seq<Position>, c: real, held: seq<Held>, ids: set<int>)
    requires ValidGrid(g) && AllUsable(g, ps) && RecordsAt(held, g, ps, c, EquityPath(g, ps, c, |g.dates|), |g.dates|)
    requires ids == TradedOf(ps, held)
    ensures ids == TradedIds(g, ps, c)
  {
    var e := EquityPath(g, ps, c, |g.dates|);
    hide HeldAt, EquityPath;
    forall id | id in ids ensures id in TradedIds(g, ps, c) {
      var i :| 0 <= i < |ps| && held[i].allocation.Some? && ps[i].id == id;
      assert ps[i] in ps;
    }
    forall id | id in TradedIds(g, ps, c) ensures id in ids {
      var p :| p in ps && HeldAt(g, p, c, e, |g.dates|).allocation.Some? && p.id == id;
      var i :| 0 <= i < |ps| && ps[i] == p;
      assert held[i].allocation.Some?;
    }
  }

  /** A record depends only on the equity of the dates before it. */
  lemma {:induction false} HeldKeeps(g: Grid, p: Position, c: real, e: seq<real>, f: seq<real>, k: nat)
    requires ValidGrid(g) && Usable(g, p) && k <= |g.dates| && k <= |e| && k <= |f| && e[..k] == f[..k]
    ensures HeldAt(g, p, c, e, k) == HeldAt(g, p, c, f, k)
  {
    hide Step;
    if k > 0 {
      assert e[..k][..k - 1] == e[..k - 1] && f[..k][..k - 1] == f[..k - 1];
      HeldKeeps(g, p, c, e, f, k - 1);
      assert e[k - 1] == e[..k][k - 1] == f[..k][k - 1];
    }
  }

  lemma RecordsKeep(held: seq<Held>, g: Grid, ps: seq<Position>, c: real, e: seq<real>, f: seq<real>, k: nat)
    requires ValidGrid(g) && AllUsable(g, ps) && k <= |g.dates| && k <= |e| && k <= |f| && e[..k] == f[..k]
    requires RecordsAt(held, g, ps, c, e, k)
    ensures RecordsAt(held, g, ps, c, f, k)
  {
    forall i | 0 <= i < |ps| ensures held[i] == HeldAt(g, ps[i], c, f, k) {
      HeldKeeps(g, ps[i], c, e, f, k);
    }
  }

  // ---- Buy and hold -------------------------------------------------------------------------

  /** The sum over the tickers of the price relative to the entry. */
  function PriceSum(g: Grid, tickers: seq<int>, k: nat): real
    requires ValidGrid(g) && k < |g.dates| && forall t :: t in tickers ==> t in g.tickers
  {
    if tickers == [] then 0.0
    else
      var t := tickers[|tickers| - 1];
      PriceSum(g, tickers[..|tickers| - 1], k) + g.closes[t][k] / g.basis[t]
  }

  /** Equal weights, never rebalanced, net of one entry cost. */
  function HoldValue(g: Grid, c: real, k: nat): real
    requires ValidGrid(g) && g.tickers != [] && k < |g.dates|
  {
    PriceSum(g, g.tickers, k) / (|g.tickers| as real) * (1.0 - c)
  }

  function OffReturns(g: Grid, c: real, k: nat): (r: seq<Option<real>>)
    requires ValidGrid(g) && g.tickers != [] && k <= |g.dates|
    ensures |r| == k
  {
    if k == 0 then []
    else
      var previous := if k == 1 then 1.0 else HoldValue(g, c, k - 2);
      OffReturns(g, c, k - 1) + [Ratio(HoldValue(g, c, k - 1) - previous, previous)]
  }

  method SumPrices(g: Grid, k: nat) returns (sum: real)
    requires ValidGrid(g) && k < |g.dates|
    ensures sum == PriceSum(g, g.tickers, k)
  {
    sum := 0.0;
    for i := 0 to |g.tickers|
      invariant sum == PriceSum(g, g.tickers[..i], k)
    {
      var t := g.tickers[i];
      assert g.tickers[..i + 1][..i] == g.tickers[..i] && g.tickers[..i + 1][i] == t;
      sum := sum + g.closes[t][k] / g.basis[t];
    }
    assert g.tickers[..|g.tickers|] == g.tickers;
  }

  method OffEquityReturns(g: Grid, costBps: Option<real>) returns (r: seq<Option<real>>)
    requires ValidGrid(g)
    ensures g.tickers == [] ==> r == []
    ensures g.tickers != [] ==> r == OffReturns(g, SideCostFraction(costBps), |g.dates|)
  {
    hide PriceSum, SideCostFraction;
    r := [];
    if g.tickers == [] || g.dates == [] {
      return;
    }
    var c := SideCostFraction(costBps);
    var entryFactor := 1.0 - c;
    var previous := 1.0;
    for k := 0 to |g.dates|
      invariant previous == if k == 0 then 1.0 else HoldValue(g, c, k - 1)
      invariant r == OffReturns(g, c, k)
    {
      var value := SumPrices(g, k);
      value := value / (|g.tickers| as real) * entryFactor;
      r := r + [Ratio(value - previous, previous)];
      previous := value;
    }
  }
}
