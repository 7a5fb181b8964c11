/**
 * The numbers of the equity replay (src/backtest/equity.js): what a position is worth on every date, what it was sized
 * at, what it cost, and what it has added to the portfolio.
 */
module EquityValues {
  import opened Calendar
  import opened Collections
  import opened Equity
  import opened EquityLaws
  import opened Returns

  // ---- The dates of a position ---------------------------------------------------------------

  /** Held on `date`: opened by then and not closed by then; a same-day round trip is held on its one day. */
  ghost predicate Active(p: Position, date: int) {
    && DayOf(p.openedAt) <= date
    && (p.closedAt.Some? ==>
          var closed := DayOf(p.closedAt.value);
          if closed == DayOf(p.openedAt) then date == closed else date < closed)
  }

  /** Closed by `date`, and on a later date than it was opened. */
  ghost predicate Ended(p: Position, date: int) {
    p.closedAt.Some? && DayOf(p.closedAt.value) <= date && DayOf(p.openedAt) < date
  }

  /** The exit price of a closed position, if it is usable. */
  ghost function ExitOf(p: Position): Option<real> {
    if p.closedAt.Some? && p.exitPrice.Some? && p.exitPrice.value > 0.0 then p.exitPrice else None
  }

  /** The price a held position is marked at: the date's close, or its own exit price on the day of a round trip. */
  ghost function MarkPrice(g: Grid, p: Position, k: nat): real
    requires ValidGrid(g) && Usable(g, p) && k < |g.dates|
  {
    if ExitOf(p).Some? && DayOf(p.closedAt.value) == DayOf(p.openedAt) then ExitOf(p).value else g.closes[p.ticker][k]
  }

  /** One unit's worth at a price: itself and its gross return; a short is worth nothing at worst. */
  ghost function Worth(p: Position, price: real): real
    requires p.entryPrice.Some? && p.entryPrice.value > 0.0
  {
    var worth := 1.0 + GrossReturn(p.direction, p.entryPrice.value, price);
    if p.direction.Short? && worth < 0.0 then 0.0 else worth
  }

  /** The value of a position of that size. */
  ghost function ValueOf(p: Position, size: real, price: real): real
    requires p.entryPrice.Some? && p.entryPrice.value > 0.0
  {
    size * Worth(p, price)
  }

  lemma WorthIs(p: Position, price: real)
    requires p.entryPrice.Some? && p.entryPrice.value > 0.0 && !p.direction.NoDirection?
    ensures PositionValueFactor(p.direction, price / p.entryPrice.value) == Worth(p, price)
  {
    RelativeMove(price, p.entryPrice.value);
  }

  // ---- One date ---------------------------------------------------------------------------------

  /** A date on which a position is held: sized if it is its first, marked at its price. */
  ghost predicate MarksHeld(g: Grid, p: Position, h: Held, k: nat, equity: real, c: real, m: Move)
    requires ValidGrid(g) && Usable(g, p) && k < |g.dates|
  {
    MarksAt(p, h, MarkPrice(g, p, k), equity, c, m)
  }

  ghost predicate MarksAt(p: Position, h: Held, price: real, equity: real, c: real, m: Move)
    requires p.entryPrice.Some? && p.entryPrice.value > 0.0 && p.sizePct.Some?
  {
    var a := if h.allocation.None? then p.sizePct.value * equity else h.allocation.value;
    && m.held.allocation == Some(a) && m.invested == (if h.allocation.None? then a else h.previousValue)
    && m.cost == (if h.allocation.None? then a * c else 0.0) && m.gain == m.held.previousValue - m.invested
    && m.held.exitCharged == h.exitCharged
    && m.held.previousValue == ValueOf(p, a, price)
  }

  lemma HeldDay(g: Grid, p: Position, h: Held, k: nat, equity: real, c: real)
    requires ValidGrid(g) && Usable(g, p) && k < |g.dates| && Active(p, g.dates[k])
    ensures MarksHeld(g, p, h, k, equity, c, Step(g, p, h, k, equity, c))
  {
    var date := g.dates[k];
    assert !Closing(p, date) && !Inactive(p, date);
    assert Realize(p, h, date) == Move(h, 0.0, 0.0, 0.0) && ChargeExit(p, h, date, c) == Move(h, 0.0, 0.0, 0.0);
    MarkIs(p, h, g.closes[p.ticker][k], equity, c, MarkPrice(g, p, k));
    hide Mark, MarksAt, Closing, Inactive, Realize, ChargeExit, Active, ValidGrid;
  }

  lemma MarkIs(p: Position, h: Held, close: real, equity: real, c: real, price: real)
    requires p.entryPrice.Some? && p.entryPrice.value > 0.0 && p.sizePct.Some? && !p.direction.NoDirection?
    requires price == if HasExit(p) && SameDay(p) then p.exitPrice.value else close
    ensures MarksAt(p, h, price, equity, c, Mark(p, h, close, equity, c))
  {
    WorthIs(p, price);
    hide PositionValueFactor, Worth;
  }

  /** A date on which it is not: revalued once at its exit price and charged once, both when it has ended. */
  ghost predicate MovesIdle(p: Position, h: Held, date: int, c: real, m: Move)
    requires p.entryPrice.Some? && p.entryPrice.value > 0.0
  {
    var ends := h.allocation.Some? && Ended(p, date);
    && m.held.allocation == h.allocation && m.invested == 0.0 && m.gain == m.held.previousValue - h.previousValue
    && (if ends && ExitOf(p).Some? && !h.exitRealized then
          m.held.exitRealized && m.held.previousValue == ValueOf(p, h.allocation.value, ExitOf(p).value)
        else m.held.previousValue == h.previousValue && m.held.exitRealized == h.exitRealized)
    && m.held.exitCharged == (h.exitCharged || (c > 0.0 && ends))
    && m.cost == if c > 0.0 && ends && !h.exitCharged then m.held.previousValue * c else 0.0
  }

  lemma IdleDay(g: Grid, p: Position, h: Held, k: nat, equity: real, c: real)
    requires ValidGrid(g) && Usable(g, p) && k < |g.dates| && !Active(p, g.dates[k])
    ensures MovesIdle(p, h, g.dates[k], c, Step(g, p, h, k, equity, c))
  {
    var date := g.dates[k];
    assert OpenDate(p) <= date ==> Inactive(p, date) && (Closing(p, date) <==> Ended(p, date));
    assert OpenDate(p) > date ==> !Ended(p, date);
    assert HasExit(p) <==> ExitOf(p).Some?;
    if HasExit(p) {
      WorthIs(p, p.exitPrice.value);
    }
    hide PositionValueFactor, Worth, Inactive, Closing, Ended, HasExit;
  }

  // ---- All dates so far -----------------------------------------------------------------------------

  ghost predicate FirstActive(g: Grid, p: Position, k: nat, i: nat)
    requires k <= |g.dates|
  {
    i < k && Active(p, g.dates[i]) && forall j :: 0 <= j < i ==> !Active(p, g.dates[j])
  }

  ghost predicate LastActive(g: Grid, p: Position, k: nat, i: nat)
    requires k <= |g.dates|
  {
    i < k && Active(p, g.dates[i]) && forall j :: i < j < k ==> !Active(p, g.dates[j])
  }

  ghost predicate EndedBy(g: Grid, p: Position, k: nat)
    requires k <= |g.dates|
  {
    k > 0 && Ended(p, g.dates[k - 1])
  }

  /** The price a position was last valued at, `i` being the last date on which it was held. */
  ghost function LastPrice(g: Grid, p: Position, k: nat, i: nat): real
    requires ValidGrid(g) && Usable(g, p) && k <= |g.dates| && i < |g.dates|
  {
    if EndedBy(g, p, k) && ExitOf(p).Some? then ExitOf(p).value else MarkPrice(g, p, i)
  }

  /** A position's size when it is first held on date `i`: its share of the equity at the start of that date. */
  ghost function SizeAt(p: Position, e: seq<real>, i: nat): real
    requires p.sizePct.Some? && i < |e|
  {
    p.sizePct.value * e[i]
  }

  /**
   * A position's record after the first `k` dates: nothing before it is first held; from then on its size, a share of
   * the equity at the start of that date, and its value, which is that size times its worth at the last mark, or at its
   * exit price once it has ended with one.
   */
  ghost predicate Stands(g: Grid, p: Position, c: real, e: seq<real>, k: nat, h: Held)
    requires ValidGrid(g) && Usable(g, p) && k <= |g.dates| && k <= |e|
  {
    && (h.allocation.None? ==> forall i :: 0 <= i < k ==> !Active(p, g.dates[i]))
    && (h.allocation.Some? ==> exists i: nat :: FirstActive(g, p, k, i) && h.allocation.value == SizeAt(p, e, i))
    && (h.allocation.Some? ==>
          exists i: nat :: LastActive(g, p, k, i)
            && h.previousValue == ValueOf(p, h.allocation.value, LastPrice(g, p, k, i)))
    && (h.exitCharged <==> c > 0.0 && h.allocation.Some? && EndedBy(g, p, k))
  }

  lemma {:induction false} HeldStands(g: Grid, p: Position, c: real, e: seq<real>, k: nat)
    requires ValidGrid(g) && Usable(g, p) && k <= |g.dates| && k <= |e|
    ensures Stands(g, p, c, e, k, HeldAt(g, p, c, e, k))
  {
    if k > 0 {
      var h, d := HeldAt(g, p, c, e, k - 1), g.dates[k - 1];
      HeldStands(g, p, c, e, k - 1);
      CostsAreChargedOnce(g, p, c, e, k - 1);
      assert k > 1 ==> g.dates[k - 2] < d;
      if Active(p, d) {
        HeldDay(g, p, h, k - 1, e[k - 1], c);
        StandsActive(g, p, c, e, k, h, Step(g, p, h, k - 1, e[k - 1], c));
      } else {
        IdleDay(g, p, h, k - 1, e[k - 1], c);
        StandsIdle(g, p, c, e, k, h, Step(g, p, h, k - 1, e[k - 1], c));
      }
    }
  }

  lemma StandsActive(g: Grid, p: Position, c: real, e: seq<real>, k: nat, h: Held, m: Move)
    requires ValidGrid(g) && Usable(g, p) && 0 < k <= |g.dates| && k <= |e| && Stands(g, p, c, e, k - 1, h)
    requires Active(p, g.dates[k - 1]) && MarksHeld(g, p, h, k - 1, e[k - 1], c, m)
    ensures Stands(g, p, c, e, k, m.held)
  {
    assert k > 1 ==> g.dates[k - 2] < g.dates[k - 1];
    assert !EndedBy(g, p, k) && !EndedBy(g, p, k - 1);
    hide Active, Worth, MarkPrice;
    assert LastActive(g, p, k, k - 1);
    if h.allocation.None? {
      assert FirstActive(g, p, k, k - 1);
    } else {
      var i: nat :| FirstActive(g, p, k - 1, i) && h.allocation.value == SizeAt(p, e, i);
      assert FirstActive(g, p, k, i);
    }
  }

  lemma StandsIdle(g: Grid, p: Position, c: real, e: seq<real>, k: nat, h: Held, m: Move)
    requires ValidGrid(g) && Usable(g, p) && 0 < k <= |g.dates| && k <= |e| && Stands(g, p, c, e, k - 1, h)
    requires h.exitRealized ==> HasExit(p) && k > 1 && Over(p, g.dates[k - 2])
                                && h.allocation.Some? && h.previousValue == ExitValue(p, h.allocation.value)
    requires !Active(p, g.dates[k - 1]) && MovesIdle(p, h, g.dates[k - 1], c, m)
    ensures Stands(g, p, c, e, k, m.held)
  {
    hide ValueOf, Worth, MarkPrice, LastPrice, EndedBy, MovesIdle, ValidGrid, Active, Over, HasExit, ExitValue;
    IdleCharge(g, p, c, k, h, m);
    if h.allocation.Some? {
      var i: nat :| FirstActive(g, p, k - 1, i) && h.allocation.value == SizeAt(p, e, i);
      assert FirstActive(g, p, k, i);
      var j: nat :| LastActive(g, p, k - 1, j)
        && h.previousValue == ValueOf(p, h.allocation.value, LastPrice(g, p, k - 1, j));
      assert LastActive(g, p, k, j);
      IdleValue(g, p, c, k, h, m, j);
    }
  }

  lemma IdleCharge(g: Grid, p: Position, c: real, k: nat, h: Held, m: Move)
    requires ValidGrid(g) && Usable(g, p) && 0 < k <= |g.dates| && MovesIdle(p, h, g.dates[k - 1], c, m)
    requires h.exitCharged <==> c > 0.0 && h.allocation.Some? && EndedBy(g, p, k - 1)
    ensures m.held.allocation == h.allocation
    ensures m.held.exitCharged <==> c > 0.0 && h.allocation.Some? && EndedBy(g, p, k)
  {
    assert k > 1 ==> g.dates[k - 2] < g.dates[k - 1];
    hide ValueOf, Worth;
  }

  lemma ExitWorth(p: Position, a: real)
    requires p.entryPrice.Some? && p.entryPrice.value > 0.0 && !p.direction.NoDirection? && HasExit(p)
    ensures ExitOf(p).Some? && ExitValue(p, a) == ValueOf(p, a, ExitOf(p).value)
  {
    WorthIs(p, p.exitPrice.value);
    hide ValueOf, Worth, PositionValueFactor;
  }

  lemma IdleValue(g: Grid, p: Position, c: real, k: nat, h: Held, m: Move, j: nat)
    requires ValidGrid(g) && Usable(g, p) && 0 < k <= |g.dates| && j < |g.dates| && h.allocation.Some?
    requires h.exitRealized ==> HasExit(p) && k > 1 && Over(p, g.dates[k - 2])
                                && h.previousValue == ExitValue(p, h.allocation.value)
    requires MovesIdle(p, h, g.dates[k - 1], c, m)
    requires h.previousValue == ValueOf(p, h.allocation.value, LastPrice(g, p, k - 1, j))
    ensures m.held.previousValue == ValueOf(p, h.allocation.value, LastPrice(g, p, k, j))
  {
    assert k > 1 ==> g.dates[k - 2] < g.dates[k - 1];
    if h.exitRealized {
      ExitWorth(p, h.allocation.value);
      assert LastPrice(g, p, k, j) == ExitOf(p).value;
    } else {
      assert LastPrice(g, p, k, j) == if Ended(p, g.dates[k - 1]) && ExitOf(p).Some? then ExitOf(p).value
                                      else LastPrice(g, p, k - 1, j);
    }
    hide ValueOf, Worth, LastPrice, ExitValue, Ended, Over;
  }

  lemma OneFirst(g: Grid, p: Position, k: nat, i: nat, j: nat)
    requires k <= |g.dates|
    ensures FirstActive(g, p, k, i) && FirstActive(g, p, k, j) ==> i == j
    ensures LastActive(g, p, k, i) && LastActive(g, p, k, j) ==> i == j
  {
    hide Active;
  }

  /** What one position adds at a worth: its gain, less one entry cost, less an exit cost once it has ended. */
  ghost function Added(size: real, worth: real, c: real, ended: bool): real {
    size * (worth - 1.0 - c - if ended then worth * c else 0.0)
  }

  /**
   * What a position has added after `k` dates, `first` and `last` being the dates on which it was first and last held:
   * per unit of its size, its worth less 1, less one entry cost, and less an exit cost on its worth once it has ended.
   */
  lemma ContributionMeans(g: Grid, p: Position, c: real, e: seq<real>, k: nat, first: nat, last: nat)
    requires ValidGrid(g) && Usable(g, p) && k <= |g.dates| && k <= |e| && c >= 0.0
    requires FirstActive(g, p, k, first) && LastActive(g, p, k, last)
    ensures Net(g, p, c, e, k)
         == Added(SizeAt(p, e, first), Worth(p, LastPrice(g, p, k, last)), c, EndedBy(g, p, k))
  {
    hide Net, Gained, Costs, Added, SizeAt, ValueOf, Worth, LastPrice, EndedBy, HeldAt, ValidGrid, Active;
    HeldIs(g, p, c, e, k, first, last);
    NetIs(g, p, c, e, k);
    var size, price := SizeAt(p, e, first), LastPrice(g, p, k, last);
    ValueIs(p, size, price);
    NetOf(HeldAt(g, p, c, e, k), size, Worth(p, price), c, EndedBy(g, p, k));
  }

  /** The record of a position that has been held: its size, its value and whether its exit was charged. */
  lemma HeldIs(g: Grid, p: Position, c: real, e: seq<real>, k: nat, first: nat, last: nat)
    requires ValidGrid(g) && Usable(g, p) && k <= |g.dates| && k <= |e|
    requires FirstActive(g, p, k, first) && LastActive(g, p, k, last)
    ensures var h, size := HeldAt(g, p, c, e, k), SizeAt(p, e, first);
            && h.allocation == Some(size) && h.previousValue == ValueOf(p, size, LastPrice(g, p, k, last))
            && (h.exitCharged <==> c > 0.0 && EndedBy(g, p, k))
  {
    HeldStands(g, p, c, e, k);
    hide HeldAt, ValueOf, LastPrice, EndedBy, ValidGrid, Active, SizeAt;
    var h := HeldAt(g, p, c, e, k);
    var i: nat :| FirstActive(g, p, k, i) && h.allocation.value == SizeAt(p, e, i);
    var j: nat :| LastActive(g, p, k, j) && h.previousValue == ValueOf(p, h.allocation.value, LastPrice(g, p, k, j));
    OneFirst(g, p, k, i, first);
    OneFirst(g, p, k, j, last);
  }

  lemma ValueIs(p: Position, size: real, price: real)
    requires p.entryPrice.Some? && p.entryPrice.value > 0.0
    ensures ValueOf(p, size, price) == size * Worth(p, price)
  {
  }

  lemma NetOf(h: Held, a: real, worth: real, c: real, ended: bool)
    requires h.allocation == Some(a) && h.previousValue == a * worth && c >= 0.0
    requires h.exitCharged <==> c > 0.0 && ended
    ensures Gained(h) - Costs(h, c) == Added(a, worth, c, ended)
  {
    assert (a * worth) * c == a * (worth * c);
    if ended {
      assert a * (worth - 1.0 - c - worth * c) == a * worth - a - a * c - a * (worth * c);
    } else {
      assert a * (worth - 1.0 - c) == a * worth - a - a * c;
    }
  }

  /** A position never held has added nothing. */
  lemma IdleContribution(g: Grid, p: Position, c: real, e: seq<real>, k: nat)
    requires ValidGrid(g) && Usable(g, p) && k <= |g.dates| && k <= |e|
    requires forall i :: 0 <= i < k ==> !Active(p, g.dates[i])
    ensures Net(g, p, c, e, k) == 0.0
  {
    HeldStands(g, p, c, e, k);
    hide HeldAt, ValidGrid, Active;
  }

  lemma AddedIs(size: real, worth: real, c: real)
    ensures Added(size, worth, c, false) == size * ((worth - 1.0) - c)
  {
    assert worth - 1.0 - c - 0.0 == (worth - 1.0) - c;
  }

  /**
   * A position still open has added its size, a share of the equity before its first date, times its gross return to
   * the last close, a short losing its whole size at worst, less one entry cost.
   */
  lemma OpenContribution(g: Grid, p: Position, c: real, e: seq<real>, k: nat, first: nat)
    requires ValidGrid(g) && Usable(g, p) && 0 < k <= |g.dates| && k <= |e| && c >= 0.0
    requires p.closedAt.None? && FirstActive(g, p, k, first)
    ensures var gross := GrossReturn(p.direction, p.entryPrice.value, g.closes[p.ticker][k - 1]);
            Net(g, p, c, e, k)
            == SizeAt(p, e, first) * ((if p.direction.Short? && gross < -1.0 then -1.0 else gross) - c)
  {
    assert first < k - 1 ==> g.dates[first] < g.dates[k - 1];
    assert LastActive(g, p, k, k - 1);
    ContributionMeans(g, p, c, e, k, first, k - 1);
    assert !EndedBy(g, p, k) && LastPrice(g, p, k, k - 1) == g.closes[p.ticker][k - 1];
    hide Net, GrossReturn, SizeAt, ValidGrid, FirstActive, LastActive, Active, LastPrice, EndedBy, Added;
    var size, worth := SizeAt(p, e, first), Worth(p, g.closes[p.ticker][k - 1]);
    assert Added(size, worth, c, false) == size * ((worth - 1.0) - c) by {
      AddedIs(size, worth, c);
    }
  }

  // ---- The series ------------------------------------------------------------------------------------

  /** Each date's return takes the equity to its next value, and its exposure is the share of it held. */
  lemma {:induction false} SeriesMean(g: Grid, ps: seq<Position>, c: real, k: nat, n: nat)
    requires ValidGrid(g) && AllUsable(g, ps) && k < n <= |g.dates|
    ensures var e, r, x := EquityPath(g, ps, c, n), OnReturns(g, ps, c, n)[k], OnExposure(g, ps, c, n)[k];
            && e[0] == 1.0
            && if e[k] == 0.0 then r.None? && x.None?
               else r.Some? && x.Some? && e[k + 1] == e[k] + e[k] * r.value
                    && DayInvested(g, ps, c, e, k) == e[k] * x.value
  {
    hide DayPnl, DayInvested;
    var e := EquityPath(g, ps, c, n - 1);
    if k < n - 1 {
      SeriesMean(g, ps, c, k, n - 1);
      InvestedKeeps(g, ps, c, e, EquityPath(g, ps, c, n), k);
    } else {
      if k > 0 {
        SeriesMean(g, ps, c, 0, n - 1);
      }
      InvestedKeeps(g, ps, c, e, EquityPath(g, ps, c, n), k);
      if e[k] != 0.0 {
        TimesRatio(DayPnl(g, ps, c, e, k), e[k]);
        TimesRatio(DayInvested(g, ps, c, e, k), e[k]);
      }
    }
  }

  lemma TimesRatio(a: real, b: real)
    requires b != 0.0
    ensures Ratio(a, b).Some? && b * Ratio(a, b).value == a
  {
  }

  lemma {:induction false} InvestedKeeps(g: Grid, ps: seq<Position>, c: real, e: seq<real>, f: seq<real>, k: nat)
    requires ValidGrid(g) && AllUsable(g, ps) && k < |g.dates| && k < |e| && k < |f| && e[..k + 1] == f[..k + 1]
    ensures DayInvested(g, ps, c, e, k) == DayInvested(g, ps, c, f, k)
  {
    hide HeldAt, Step;
    if ps != [] {
      assert e[..k] == e[..k + 1][..k] && f[..k] == f[..k + 1][..k];
      HeldKeeps(g, ps[|ps| - 1], c, e, f, k);
      InvestedKeeps(g, ps[..|ps| - 1], c, e, f, k);
      assert e[k] == e[..k + 1][k] == f[..k + 1][k] == f[k];
    }
  }

  /** What is held adds up over the positions. */
  lemma {:induction false} InvestedAdds(g: Grid, a: seq<Position>, b: seq<Position>, c: real, e: seq<real>, k: nat)
    requires ValidGrid(g) && AllUsable(g, a) && AllUsable(g, b) && k < |g.dates| && k < |e|
    ensures AllUsable(g, a + b)
    ensures DayInvested(g, a + b, c, e, k) == DayInvested(g, a, c, e, k) + DayInvested(g, b, c, e, k)
  {
    hide MoveAt;
    if b == [] {
      assert a + b == a;
    } else {
      assert (a + b)[..|a + b| - 1] == a + b[..|b| - 1];
      InvestedAdds(g, a, b[..|b| - 1], c, e, k);
    }
  }

  /**
   * A position's part of it on a date: its value when the date began, or on its first date its size; nothing when idle.
   */
  lemma InvestedMeans(g: Grid, p: Position, c: real, e: seq<real>, k: nat)
    requires ValidGrid(g) && Usable(g, p) && k < |g.dates| && k < |e|
    ensures var h := HeldAt(g, p, c, e, k);
            DayInvested(g, [p], c, e, k)
            == if !Active(p, g.dates[k]) then 0.0
               else if forall i :: 0 <= i < k ==> !Active(p, g.dates[i]) then p.sizePct.value * e[k]
               else h.previousValue
  {
    var h := HeldAt(g, p, c, e, k);
    HeldStands(g, p, c, e, k);
    assert [p][..0] == [];
    if Active(p, g.dates[k]) {
      HeldDay(g, p, h, k, e[k], c);
    } else {
      IdleDay(g, p, h, k, e[k], c);
    }
    hide Step, HeldAt, Active, Worth;
  }

  /** The positions replayed are those on a scored ticker with a direction, an entry price and a size. */
  lemma ReplayableMean(g: Grid, ps: seq<Position>)
    ensures forall p :: p in Replayable(g, ps) <==>
              && p in ps && p.ticker in g.tickers && p.direction != NoDirection
              && exists entry, size ::
                    p.entryPrice == Some(entry) && p.sizePct == Some(size) && entry > 0.0 && size > 0.0
  {
  }

  /** The positions counted as traded are those held on some date. */
  lemma TradedMeans(g: Grid, ps: seq<Position>, c: real)
    requires ValidGrid(g) && AllUsable(g, ps)
    ensures forall id :: id in TradedIds(g, ps, c) <==> exists p :: p in ps && p.id == id && HeldSometime(g, p)
  {
    var n := |g.dates|;
    var e := EquityPath(g, ps, c, n);
    forall p | p in ps ensures HeldAt(g, p, c, e, n).allocation.Some? <==> HeldSometime(g, p) {
      HeldStands(g, p, c, e, n);
      hide HeldAt, Active, Worth, LastPrice, EndedBy;
    }
    hide HeldAt, EquityPath, HeldSometime;
  }

  ghost predicate HeldSometime(g: Grid, p: Position) {
    exists k: nat :: k < |g.dates| && Active(p, g.dates[k])
  }

  // ---- Buy and hold ---------------------------------------------------------------------------------------

  /** The sum adds up over the tickers, one ticker's part times what it cost being its close. */
  lemma {:induction false} PricesAdd(g: Grid, a: seq<int>, b: seq<int>, k: nat)
    requires ValidGrid(g) && k < |g.dates|
    requires (forall t :: t in a ==> t in g.tickers) && (forall t :: t in b ==> t in g.tickers)
    ensures PriceSum(g, a + b, k) == PriceSum(g, a, k) + PriceSum(g, b, k)
    ensures forall t :: b == [t] ==> PriceSum(g, b, k) * g.basis[t] == g.closes[t][k]
  {
    if b == [] {
      assert a + b == a;
    } else {
      var last := b[|b| - 1];
      assert (a + b)[..|a + b| - 1] == a + b[..|b| - 1];
      PricesAdd(g, a, b[..|b| - 1], k);
      assert g.closes[last][k] / g.basis[last] * g.basis[last] == g.closes[last][k];
      assert |b| == 1 ==> b[..0] == [];
    }
  }

  /** Buying and holding is worth the mean of the prices over what they cost, less the entry cost. */
  lemma HoldMeans(g: Grid, c: real, k: nat)
    requires ValidGrid(g) && g.tickers != [] && k < |g.dates|
    ensures HoldValue(g, c, k) * (|g.tickers| as real) == PriceSum(g, g.tickers, k) - PriceSum(g, g.tickers, k) * c
  {
    var sum, n := PriceSum(g, g.tickers, k), |g.tickers| as real;
    hide PriceSum;
    var mean := sum / n;
    assert mean * n == sum;
    assert mean * (1.0 - c) * n == (mean * n) * (1.0 - c);
  }
}
