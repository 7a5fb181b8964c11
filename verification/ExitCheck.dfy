/**
 * The exit check (src/graph/exit_check.js with the position updates of src/storage/run_store.js): each check reads the
 * bars since the position's cursor, walks them, closes the position or moves the cursor.
 */
module ExitCheck {
  import opened BarFill
  import opened BarWindow
  import opened Calendar
  import opened Collections
  import opened ExitWalk
  import opened HoldTime

  datatype Closure = Closure(closedAt: int, reason: Reason, exitPrice: Option<real>)

  /** A positions row. */
  datatype Row = Row(ticker: int, terms: Terms, knobs: Knobs, openedAt: Stamp, lastCheckedAt: Option<int>,
                     maePct: Option<real>, mfePct: Option<real>, peakPrice: Option<real>, lastPrice: Option<real>,
                     closure: Option<Closure>)

  datatype Config = Config(splitTolerance: real, nearestOpen: bool, maxHoldDays: Option<int>)

  datatype Market = Market(table: BarTable, sevenDay: bool)

  // ---- The row updates ------------------------------------------------------------------

  function Lesser(a: real, b: real): real {
    if a <= b then a else b
  }

  function Greater(a: real, b: real): real {
    if a >= b then a else b
  }

  /** Closes an open row; a closed one stays as it is. */
  function WithClosure(r: Row, c: Closure): Row {
    if r.closure.Some? then r else r.(closure := Some(c))
  }

  /** Folds a window's extremes into an open row, each with the entry as baseline. */
  function WithExcursion(r: Row, mae: Option<real>, mfe: Option<real>): Row {
    if r.closure.Some? || (mae.None? && mfe.None?) then r
    else
      r.(maePct := Some(Lesser(OrZero(r.maePct), Lesser(OrZero(mae), 0.0))),
         mfePct := Some(Greater(OrZero(r.mfePct), Greater(OrZero(mfe), 0.0))))
  }

  predicate IsPrice(x: Option<real>) {
    x.Some? && x.value > 0.0
  }

  /** Moves an open row's cursor, forward only, and with it the mark and the best price so far. */
  function WithCursor(r: Row, lastCheckedAt: int, lastPrice: Option<real>, peak: Option<real>): Row {
    if r.closure.Some? || (r.lastCheckedAt.Some? && r.lastCheckedAt.value >= lastCheckedAt) then r
    else
      r.(lastCheckedAt := Some(lastCheckedAt),
         lastPrice := if IsPrice(lastPrice) then lastPrice else r.lastPrice,
         peakPrice := if !IsPrice(peak) then r.peakPrice
                      else if r.peakPrice.None? then peak
                      else Some(if r.terms.direction.Short? then Lesser(r.peakPrice.value, peak.value)
                                else Greater(r.peakPrice.value, peak.value)))
  }

  // ---- One check --------------------------------------------------------------------------

  function PolicyOf(r: Row, cfg: Config): Policy {
    Policy(cfg.splitTolerance, ResolveTrailingConfig(r.knobs), cfg.nearestOpen)
  }

  function Anchor(r: Row): Stamp {
    if r.lastCheckedAt.Some? then At(r.lastCheckedAt.value) else r.openedAt
  }

  predicate Walks(r: Row) {
    Walkable(r.terms) && Anchor(r).At?
  }

  function Due(r: Row, m: Market, cfg: Config): Option<int> {
    if cfg.maxHoldDays.Some? && r.openedAt.At? then TimeExitDue(r.openedAt.ms, cfg.maxHoldDays.value, m.sevenDay)
    else None
  }

  /** The hold rule itself. */
  predicate HoldOver(r: Row, m: Market, cfg: Config, asOf: int) {
    && cfg.maxHoldDays.Some? && r.openedAt.At?
    && HoldDays(DayOf(r.openedAt.ms), DayOf(asOf), m.sevenDay) >= cfg.maxHoldDays.value
  }

  /** Where the price walk stops: at the due instant once that has passed. */
  function Until(r: Row, m: Market, cfg: Config, asOf: int): int {
    if Due(r, m, cfg).Some? && Due(r, m, cfg).value <= asOf then Due(r, m, cfg).value else asOf
  }

  function WalkOver(r: Row, cfg: Config, bars: seq<Bar>): Walked
    requires Walkable(r.terms)
  {
    Walk(r.terms, PolicyOf(r, cfg), Start(PolicyOf(r, cfg), r.peakPrice), bars)
  }

  function LastAtOrBefore(rows: seq<IntradayRow>, cutoff: int): Option<IntradayRow>
    ensures LastAtOrBefore(rows, cutoff).Some? ==> LastAtOrBefore(rows, cutoff).value in rows
  {
    if rows == [] then None
    else
      var later := LastAtOrBefore(rows[1..], cutoff);
      if later.Some? then later else if rows[0].ts <= cutoff then Some(rows[0]) else None
  }

  function LastBefore(rows: seq<DailyRow>, day: int): Option<DailyRow> {
    if rows == [] then None
    else
      var later := LastBefore(rows[1..], day);
      if later.Some? then later else if rows[0].date < day then Some(rows[0]) else None
  }

  const INTRADAY_MAX_AGE_MS := 5 * DAY_MS

  /** The current price: the newest visible intraday close, if fresh, else the last daily close. */
  function CurrentPrice(t: BarTable, asOf: int): Option<real> {
    var i := LastAtOrBefore(t.intraday, IntradayCutoff(asOf));
    if i.Some? && asOf - (i.value.ts + BAR_MS) <= INTRADAY_MAX_AGE_MS then i.value.px.close
    else
      var d := LastBefore(t.daily, DayOf(asOf));
      if d.Some? then d.value.px.close else None
  }

  /** A price at a split ratio of the entry is no exit price. */
  function Unsplit(r: Row, cfg: Config, price: Option<real>): Option<real> {
    if DetectSplitJump(r.terms.entryPrice, price, cfg.splitTolerance).Some? then None else price
  }

  /** How a due time exit closes: at the fill found, not yet, or, days late, at the current price. */
  function TimeClosure(r: Row, m: Market, cfg: Config, asOf: int, fill: Option<Fill>): Option<Closure> {
    var due := Due(r, m, cfg);
    if due.Some? && fill.Some? then
      Some(Closure(fill.value.openedAt, TimeBased, Unsplit(r, cfg, Some(fill.value.price))))
    else if due.Some? && asOf - due.value <= PENDING_ENTRY_EXPIRY_MS then None
    else Some(Closure(asOf, TimeBased, Unsplit(r, cfg, CurrentPrice(m.table, asOf))))
  }

  function Moved(r: Row, w: Option<Walked>): Row {
    if w.Some? && w.value.p.lastBarAvailableAt.Some? then
      WithCursor(r, w.value.p.lastBarAvailableAt.value, w.value.p.lastClose, w.value.p.peak)
    else r
  }

  function Recorded(r: Row, w: Option<Walked>): Row {
    if w.Some? then WithExcursion(r, w.value.p.mae, w.value.p.mfe) else r
  }

  /** What a check makes of its walk and of the fill a due time exit would find. */
  function Settle(r: Row, m: Market, cfg: Config, asOf: int, w: Option<Walked>, fill: Option<Fill>): Row {
    var s := Recorded(r, w);
    if w.Some? && w.value.Exited? then
      WithClosure(s, Closure(w.value.exit.closedAt, w.value.exit.reason, Some(w.value.exit.exitPrice)))
    else if HoldOver(r, m, cfg, asOf) then
      var c := if w.Some? && w.value.Halted? then Some(Closure(asOf, TimeBased, None))
               else TimeClosure(r, m, cfg, asOf, fill);
      if c.Some? then WithClosure(s, c.value) else Moved(s, w)
    else Moved(s, w)
  }

  /** Rows a check sees as open. */
  predicate OpenAsOf(r: Row, asOf: int) {
    (r.openedAt.At? ==> r.openedAt.ms <= asOf) && (r.closure.Some? ==> r.closure.value.closedAt > asOf)
  }

  ghost function PriceWalk(r: Row, m: Market, cfg: Config, asOf: int): Option<Walked> {
    if Walks(r) then
      Some(WalkOver(r, cfg, Window(m.table, Anchor(r).ms, Until(r, m, cfg, asOf), INTRADAY_ROW_CAP, DAILY_ROW_CAP)))
    else None
  }

  ghost function DueFill(r: Row, m: Market, cfg: Config, asOf: int): Option<Fill> {
    if Due(r, m, cfg).Some? then
      FindFillBar(Window(m.table, Due(r, m, cfg).value, asOf, INTRADAY_ROW_CAP, DAILY_ROW_CAP), Due(r, m, cfg).value)
    else None
  }

  /** One check of one row. */
  ghost function Check(r: Row, m: Market, cfg: Config, asOf: int): Row {
    if OpenAsOf(r, asOf) then Settle(r, m, cfg, asOf, PriceWalk(r, m, cfg, asOf), DueFill(r, m, cfg, asOf)) else r
  }

  // ---- The store and the check loop ---------------------------------------------------------

  class PositionStore {
    var rows: map<int, Row>

    constructor (stored: map<int, Row>)
      ensures rows == stored
    {
      rows := stored;
    }

    /** Whether this call closed the row. */
    method ClosePosition(id: int, c: Closure) returns (changed: bool)
      requires id in rows
      modifies this
      ensures rows == old(rows)[id := WithClosure(old(rows)[id], c)]
      ensures changed == old(rows)[id].closure.None?
    {
      changed := rows[id].closure.None?;
      if changed {
        rows := rows[id := rows[id].(closure := Some(c))];
      }
      assert rows == old(rows)[id := WithClosure(old(rows)[id], c)];
    }

    /** Whether this call wrote anything: only an open row, and only when an extreme moves or was never set. */
    method RecordPositionExcursionRange(id: int, maePct: Option<real>, mfePct: Option<real>) returns (changed: bool)
      requires id in rows
      modifies this
      ensures rows == old(rows)[id := WithExcursion(old(rows)[id], maePct, mfePct)]
      ensures changed <==> rows[id] != old(rows)[id]
    {
      if maePct.None? && mfePct.None? {
        assert rows == rows[id := rows[id]];
        return false;
      }
      var mae, mfe := Lesser(OrZero(maePct), 0.0), Greater(OrZero(mfePct), 0.0);
      var r := rows[id];
      changed := r.closure.None? && (r.maePct.None? || r.mfePct.None? || mae < r.maePct.value || mfe > r.mfePct.value);
      if changed {
        rows := rows[id := r.(maePct := Some(Lesser(OrZero(r.maePct), mae)),
                              mfePct := Some(Greater(OrZero(r.mfePct), mfe)))];
      }
      assert rows == old(rows)[id := WithExcursion(old(rows)[id], maePct, mfePct)];
    }

    /** Whether the cursor moved. */
    method AdvancePositionCheck(id: int, lastCheckedAt: int, lastPrice: Option<real>, peakPrice: Option<real>)
      returns (changed: bool)
      requires id in rows
      modifies this
      ensures rows == old(rows)[id := WithCursor(old(rows)[id], lastCheckedAt, lastPrice, peakPrice)]
      ensures changed ==
                (old(rows)[id].closure.None?
                 && (old(rows)[id].lastCheckedAt.None? || old(rows)[id].lastCheckedAt.value < lastCheckedAt))
    {
      var r := rows[id];
      changed := r.closure.None? && (r.lastCheckedAt.None? || r.lastCheckedAt.value < lastCheckedAt);
      if changed {
        rows := rows[id := WithCursor(r, lastCheckedAt, lastPrice, peakPrice)];
      }
      assert rows == old(rows)[id := WithCursor(old(rows)[id], lastCheckedAt, lastPrice, peakPrice)];
    }

    /** Reads the position's window and walks it; nothing to walk when no level can be computed or no start is known. */
    method WalkPositionBars(id: int, m: Market, cfg: Config, asOf: int) returns (w: Option<Walked>)
      requires id in rows
      ensures w == PriceWalk(rows[id], m, cfg, asOf)
    {
      hide WalkOver, Window, PolicyOf, Until, Start;
      var r := rows[id];
      w := None;
      if Walkable(r.terms) && Anchor(r).At? {
        var bars := ReadWindow(m.table, Anchor(r).ms, Until(r, m, cfg, asOf), INTRADAY_ROW_CAP, DAILY_ROW_CAP);
        var walked := WalkBarsForExit(r.terms, PolicyOf(r, cfg), r.peakPrice, bars);
        assert walked == WalkOver(r, cfg, bars) by {
          WalkOverIs(r, cfg, bars);
        }
        w := Some(walked);
      }
    }

    /** Checks one listed row: walk, record, then close or move on. Whether this call closed it. */
    method CheckPosition(id: int, m: Market, cfg: Config, asOf: int) returns (closed: bool)
      requires id in rows && OpenAsOf(rows[id], asOf)
      modifies this
      ensures rows == old(rows)[id := Check(old(rows)[id], m, cfg, asOf)]
      ensures closed == (old(rows)[id].closure.None? && rows[id].closure.Some?)
    {
      hide PriceWalk, TimeClosure, WithExcursion, WithCursor, Window, FindFillBar, HoldOver, Due, Until, OpenAsOf;
      ghost var was := rows[id];
      var w := WalkPositionBars(id, m, cfg, asOf);
      if w.Some? {
        var _ := RecordPositionExcursionRange(id, w.value.p.mae, w.value.p.mfe);
      }
      assert rows == old(rows)[id := Recorded(was, w)];
      var due := Due(rows[id], m, cfg);
      KeepsItsTerms(was, w, m, cfg, asOf);
      if w.Some? && w.value.Exited? {
        closed := ClosePosition(id, Closure(w.value.exit.closedAt, w.value.exit.reason, Some(w.value.exit.exitPrice)));
        CheckIs(was, m, cfg, asOf, w, DueFill(was, m, cfg, asOf));
        return;
      }
      ghost var fill := DueFill(was, m, cfg, asOf);
      CheckIs(was, m, cfg, asOf, w, fill);
      if HoldOver(rows[id], m, cfg, asOf) {
        var c := Some(Closure(asOf, TimeBased, None));
        if !(w.Some? && w.value.Halted?) {
          var found: Option<Fill> := None;
          if due.Some? {
            found := FindFirstBarOpenAtOrAfter(m.table, due.value, asOf);
          }
          c := TimeClosure(rows[id], m, cfg, asOf, found);
        }
        if c.Some? {
          closed := ClosePosition(id, c.value);
          return;
        }
      }
      closed := false;
      if w.Some? && w.value.p.lastBarAvailableAt.Some? {
        var _ := AdvancePositionCheck(id, w.value.p.lastBarAvailableAt.value, w.value.p.lastClose, w.value.p.peak);
      }
    }
  }

  predicate Wanted(r: Row, ticker: Option<int>, asOf: int) {
    OpenAsOf(r, asOf) && (ticker.None? || ticker.value == r.ticker)
  }

  function OpenIds(rows: map<int, Row>, ids: seq<int>, ticker: Option<int>, asOf: int): seq<int> {
    Filter(ids, (id: int) => id in rows && Wanted(rows[id], ticker, asOf))
  }

  /** The first `n` of the open rows are checked; no other row has changed. */
  ghost predicate CheckedSoFar(rows: map<int, Row>, was: map<int, Row>, done: seq<int>, markets: map<int, Market>,
                               cfg: Config, asOf: int)
  {
    && rows.Keys == was.Keys
    && (forall id :: id in was && id !in done ==> rows[id] == was[id])
    && (forall id :: id in was ==> was[id].ticker in markets)
    && (forall id :: id in was && id in done ==> rows[id] == Check(was[id], markets[was[id].ticker], cfg, asOf))
  }

  lemma CheckedOneMore(rows: map<int, Row>, was: map<int, Row>, done: seq<int>, id: int, markets: map<int, Market>,
                       cfg: Config, asOf: int)
    requires CheckedSoFar(rows, was, done, markets, cfg, asOf) && id in was && id !in done
    ensures rows[id] == was[id] && was[id].ticker in markets
    ensures CheckedSoFar(rows[id := Check(was[id], markets[was[id].ticker], cfg, asOf)], was, done + [id], markets, cfg,
                         asOf)
  {
    hide Check;
  }

  /** A whole check: each row listed as open, each on its own. */
  method CheckOpenPositionExits(store: PositionStore, ids: seq<int>, markets: map<int, Market>, cfg: Config, asOf: int,
                                ticker: Option<int>)
    returns (closed: seq<int>)
    requires forall i, j :: 0 <= i < j < |ids| ==> ids[i] != ids[j]
    requires forall id :: id in ids <==> id in store.rows
    requires forall id :: id in store.rows ==> store.rows[id].ticker in markets
    modifies store
    ensures store.rows.Keys == old(store.rows).Keys
    ensures forall id :: id in store.rows ==>
              (var was := old(store.rows)[id];
               store.rows[id] == if Wanted(was, ticker, asOf) then Check(was, markets[was.ticker], cfg, asOf) else was)
    ensures forall id :: id in closed <==>
              id in store.rows && old(store.rows)[id].closure.None? && store.rows[id].closure.Some?
  {
    hide Check, Wanted, OpenIds, CheckedSoFar;
    closed := [];
    var was := store.rows;
    var open := OpenIds(was, ids, ticker, asOf);
    OpenIdsAre(was, ids, ticker, asOf);
    NothingChecked(was, markets, cfg, asOf);
    for i := 0 to |open|
      invariant CheckedSoFar(store.rows, was, open[..i], markets, cfg, asOf)
      invariant store.rows.Keys == was.Keys
      invariant forall id :: id in closed <==> id in was && was[id].closure.None? && store.rows[id].closure.Some?
    {
      var id := open[i];
      assert id in open;
      assert open[..i + 1] == open[..i] + [id];
      CheckedOneMore(store.rows, was, open[..i], id, markets, cfg, asOf);
      var done := store.CheckPosition(id, markets[was[id].ticker], cfg, asOf);
      if done {
        closed := closed + [id];
      }
    }
    assert open[..|open|] == open;
    AllChecked(store.rows, was, open, markets, cfg, asOf);
  }

  lemma NothingChecked(was: map<int, Row>, markets: map<int, Market>, cfg: Config, asOf: int)
    requires forall id :: id in was ==> was[id].ticker in markets
    ensures CheckedSoFar(was, was, [], markets, cfg, asOf)
  {
  }

  lemma AllChecked(rows: map<int, Row>, was: map<int, Row>, done: seq<int>, markets: map<int, Market>, cfg: Config,
                   asOf: int)
    requires CheckedSoFar(rows, was, done, markets, cfg, asOf)
    ensures forall id :: id in was ==>
              (&& was[id].ticker in markets && id in rows
               && rows[id] == if id in done then Check(was[id], markets[was[id].ticker], cfg, asOf) else was[id])
  {
    hide Check;
  }

  lemma OpenIdsAre(rows: map<int, Row>, ids: seq<int>, ticker: Option<int>, asOf: int)
    requires forall i, j :: 0 <= i < j < |ids| ==> ids[i] != ids[j]
    requires forall id :: id in ids <==> id in rows
    ensures forall id :: id in rows ==> (id in OpenIds(rows, ids, ticker, asOf) <==> Wanted(rows[id], ticker, asOf))
    ensures forall id :: id in OpenIds(rows, ids, ticker, asOf) ==> id in rows && OpenAsOf(rows[id], asOf)
    ensures forall i :: 0 <= i < |OpenIds(rows, ids, ticker, asOf)| ==>
              OpenIds(rows, ids, ticker, asOf)[i] !in OpenIds(rows, ids, ticker, asOf)[..i]
  {
    hide OpenAsOf;
    NoRepeats(ids, (id: int) => id in rows && Wanted(rows[id], ticker, asOf));
  }

  lemma {:induction false} NoRepeats(s: seq<int>, p: int -> bool)
    requires forall i, j :: 0 <= i < j < |s| ==> s[i] != s[j]
    ensures forall i, j :: 0 <= i < j < |Filter(s, p)| ==> Filter(s, p)[i] != Filter(s, p)[j]
  {
    if s != [] {
      NoRepeats(s[1..], p);
      var rest := Filter(s[1..], p);
      assert s[0] !in s[1..];
      assert s[0] !in rest;
      assert Filter(s, p) == (if p(s[0]) then [s[0]] else []) + rest;
    }
  }

  lemma WalkOverIs(r: Row, cfg: Config, bars: seq<Bar>)
    requires Walkable(r.terms)
    ensures WalkOver(r, cfg, bars) == Walk(r.terms, PolicyOf(r, cfg), Start(PolicyOf(r, cfg), r.peakPrice), bars)
  {
  }

  /** Recording an excursion changes nothing the rest of the check looks at. */
  lemma KeepsItsTerms(r: Row, w: Option<Walked>, m: Market, cfg: Config, asOf: int)
    ensures var s := Recorded(r, w);
            && Due(s, m, cfg) == Due(r, m, cfg) && HoldOver(s, m, cfg, asOf) == HoldOver(r, m, cfg, asOf)
            && s.closure == r.closure && Moved(s, w).closure == r.closure
            && forall fill :: TimeClosure(s, m, cfg, asOf, fill) == TimeClosure(r, m, cfg, asOf, fill)
  {
    hide TimeExitDue, HoldDays, CurrentPrice, DetectSplitJump;
  }

  lemma CheckIs(r: Row, m: Market, cfg: Config, asOf: int, w: Option<Walked>, fill: Option<Fill>)
    requires OpenAsOf(r, asOf) && w == PriceWalk(r, m, cfg, asOf) && fill == DueFill(r, m, cfg, asOf)
    ensures Check(r, m, cfg, asOf) == Settle(r, m, cfg, asOf, w, fill)
  {
  }

  /** A closed row is never written again. */
  lemma ClosedForGood(r: Row, m: Market, cfg: Config, asOf: int)
    requires r.closure.Some?
    ensures Check(r, m, cfg, asOf) == r
  {
    hide PriceWalk, TimeClosure, DueFill, HoldOver;
  }

  // ---- One check, field by field --------------------------------------------------------------------

  /** A row that a check at `asOf` leaves alone: not opened yet, or closed. */
  ghost predicate Skipped(r: Row, asOf: int) {
    r.closure.Some? || exists start :: r.openedAt == At(start) && asOf < start
  }

  /** When the time exit falls due, for a usable limit and opening. */
  ghost predicate FallsDue(r: Row, m: Market, cfg: Config, due: int) {
    exists start, days ::
      r.openedAt == At(start) && cfg.maxHoldDays == Some(days) && TimeExitDue(start, days, m.sevenDay) == Some(due)
  }

  /** The check's walk: from the last check or else the opening, to the due instant or else now. */
  ghost predicate IsWalk(r: Row, m: Market, cfg: Config, asOf: int, from: int, until: int, w: Walked)
    requires Walkable(r.terms)
  {
    && (r.lastCheckedAt == Some(from) || (r.lastCheckedAt.None? && r.openedAt == At(from)))
    && (if exists due :: FallsDue(r, m, cfg, due) && due <= asOf then FallsDue(r, m, cfg, until) else until == asOf)
    && var o := Policy(cfg.splitTolerance, ResolveTrailingConfig(r.knobs), cfg.nearestOpen);
       w == Walk(r.terms, o, Start(o, r.peakPrice), Window(m.table, from, until, INTRADAY_ROW_CAP, DAILY_ROW_CAP))
  }

  lemma DueMeans(r: Row, m: Market, cfg: Config, asOf: int)
    ensures forall due :: FallsDue(r, m, cfg, due) <==> Due(r, m, cfg) == Some(due)
    ensures Due(r, m, cfg).Some? ==> (HoldOver(r, m, cfg, asOf) <==> Due(r, m, cfg).value <= asOf)
  {
    if Due(r, m, cfg).Some? {
      DueIsTheFirstInstant(r.openedAt.ms, cfg.maxHoldDays.value, m.sevenDay, asOf);
    }
    hide TimeExitDue, HoldDays;
  }

  lemma WalkMeans(r: Row, m: Market, cfg: Config, asOf: int)
    ensures match PriceWalk(r, m, cfg, asOf)
            case Some(w) => Walkable(r.terms) && exists from, until :: IsWalk(r, m, cfg, asOf, from, until, w)
            case None => !Walkable(r.terms) || (r.lastCheckedAt.None? && !r.openedAt.At?)
  {
    DueMeans(r, m, cfg, asOf);
    hide FallsDue, Due, Window;
    if PriceWalk(r, m, cfg, asOf).Some? {
      WalkOverIs(r, cfg, Window(m.table, Anchor(r).ms, Until(r, m, cfg, asOf), INTRADAY_ROW_CAP, DAILY_ROW_CAP));
      assert IsWalk(r, m, cfg, asOf, Anchor(r).ms, Until(r, m, cfg, asOf), PriceWalk(r, m, cfg, asOf).value);
    }
  }

  /** What a position fixed at its opening is never written, and a skipped row not at all. */
  lemma CheckKeeps(r: Row, m: Market, cfg: Config, asOf: int)
    ensures var u := Check(r, m, cfg, asOf);
            (Skipped(r, asOf) ==> u == r) && SamePosition(r, u)
  {
    if r.closure.Some? {
      ClosedForGood(r, m, cfg, asOf);
    }
    var w := PriceWalk(r, m, cfg, asOf);
    assert SamePosition(r, Recorded(r, w)) && SamePosition(r, Moved(Recorded(r, w), w));
    hide PriceWalk, TimeClosure, DueFill, HoldOver, Recorded, Moved;
  }

  predicate SamePosition(r: Row, u: Row) {
    u.ticker == r.ticker && u.terms == r.terms && u.knobs == r.knobs && u.openedAt == r.openedAt
  }

  ghost predicate IsLeast(x: real, a: real, b: real, c: real) {
    x <= a && x <= b && x <= c && (x == a || x == b || x == c)
  }

  /** The row's excursions become the extremes of the stored ones, the walked ones and the entry. */
  lemma CheckRecords(r: Row, m: Market, cfg: Config, asOf: int)
    requires !Skipped(r, asOf)
    ensures var u, w := Check(r, m, cfg, asOf), PriceWalk(r, m, cfg, asOf);
            if w.None? || (w.value.p.mae.None? && w.value.p.mfe.None?) then u.maePct == r.maePct && u.mfePct == r.mfePct
            else
              && u.maePct.Some? && u.mfePct.Some?
              && IsLeast(u.maePct.value, if r.maePct.Some? then r.maePct.value else 0.0,
                         if w.value.p.mae.Some? then w.value.p.mae.value else 0.0, 0.0)
              && IsLeast(-u.mfePct.value, if r.mfePct.Some? then -r.mfePct.value else 0.0,
                         if w.value.p.mfe.Some? then -w.value.p.mfe.value else 0.0, 0.0)
  {
    hide PriceWalk, TimeClosure, DueFill, HoldOver;
  }

  /** A price that does not look split, as a late exit may be booked at. */
  ghost predicate BookedAt(r: Row, cfg: Config, price: Option<real>, booked: Option<real>) {
    booked == if DetectSplitJump(r.terms.entryPrice, price, cfg.splitTolerance).Some? then None else price
  }

  /**
   * How a check closes a row: at the walk's exit; else, once the hold time is over, without a price after a suspected
   * split, at the first tradable open since it fell due, or, when there was none for five days or the due time is not
   * known, at the current price now. In any other case the row stays open.
   */
  lemma CheckCloses(r: Row, m: Market, cfg: Config, asOf: int)
    requires !Skipped(r, asOf)
    ensures var c, w, fill := Check(r, m, cfg, asOf).closure, PriceWalk(r, m, cfg, asOf), DueFill(r, m, cfg, asOf);
            var over := if exists due :: FallsDue(r, m, cfg, due)
                      then exists due :: FallsDue(r, m, cfg, due) && due <= asOf
                        else HoldOver(r, m, cfg, asOf);
            if w.Some? && w.value.Exited? then
              c == Some(Closure(w.value.exit.closedAt, w.value.exit.reason, Some(w.value.exit.exitPrice)))
            else if !over then c.None?
            else if w.Some? && w.value.Halted? then c == Some(Closure(asOf, TimeBased, None))
            else if fill.Some? then
              c.Some? && c.value.closedAt == fill.value.openedAt && c.value.reason == TimeBased
              && BookedAt(r, cfg, Some(fill.value.price), c.value.exitPrice)
            else if exists due :: FallsDue(r, m, cfg, due) && asOf - due <= 432_000_000 then c.None?
            else
              c.Some? && c.value.closedAt == asOf && c.value.reason == TimeBased
              && BookedAt(r, cfg, CurrentPrice(m.table, asOf), c.value.exitPrice)
  {
    DueMeans(r, m, cfg, asOf);
    hide PriceWalk, HoldOver, FallsDue, Due, CurrentPrice, DetectSplitJump, FindFillBar, Window;
  }

  /** The fill of a due time exit is the first tradable open since it fell due, among the bars read since then. */
  lemma DueFillMeans(r: Row, m: Market, cfg: Config, asOf: int)
    ensures match DueFill(r, m, cfg, asOf)
            case Some(f) => exists due, k: nat :: FallsDue(r, m, cfg, due)
                              && FillsAt(f, Window(m.table, due, asOf, INTRADAY_ROW_CAP, DAILY_ROW_CAP), k, due)
            case None => forall due :: FallsDue(r, m, cfg, due) ==>
                           NothingToFillAt(Window(m.table, due, asOf, INTRADAY_ROW_CAP, DAILY_ROW_CAP), due)
  {
    DueMeans(r, m, cfg, asOf);
    if Due(r, m, cfg).Some? {
      FillMeans(Window(m.table, Due(r, m, cfg).value, asOf, INTRADAY_ROW_CAP, DAILY_ROW_CAP), Due(r, m, cfg).value);
    }
    hide FallsDue, Due, Window, FindFillBar, FillsAt, NothingToFillAt;
  }

  /**
   * A row left open moves its cursor to the last bar walked, never back, and with it takes over the last price and, if
   * it is better, the best price; a row that is closed, or walked nothing new, keeps all three.
   */
  lemma CheckMoves(r: Row, m: Market, cfg: Config, asOf: int)
    requires !Skipped(r, asOf)
    ensures var u, w := Check(r, m, cfg, asOf), PriceWalk(r, m, cfg, asOf);
            if u.closure.Some? || w.None? || w.value.p.lastBarAvailableAt.None?
               || (r.lastCheckedAt.Some? && r.lastCheckedAt.value >= w.value.p.lastBarAvailableAt.value)
            then u.lastCheckedAt == r.lastCheckedAt && u.lastPrice == r.lastPrice && u.peakPrice == r.peakPrice
            else
              var price, peak := w.value.p.lastClose, w.value.p.peak;
              && u.lastCheckedAt == w.value.p.lastBarAvailableAt
              && u.lastPrice == (if price.Some? && price.value > 0.0 then price else r.lastPrice)
              && (if peak.None? || peak.value <= 0.0 then u.peakPrice == r.peakPrice
                  else
                    && (u.peakPrice == r.peakPrice || u.peakPrice == peak) && u.peakPrice.Some?
                    && (if r.terms.direction.Short? then
                          && u.peakPrice.value <= peak.value
                          && (r.peakPrice.Some? ==> u.peakPrice.value <= r.peakPrice.value)
                        else
                          && u.peakPrice.value >= peak.value
                          && (r.peakPrice.Some? ==> u.peakPrice.value >= r.peakPrice.value)))
  {
    hide PriceWalk, TimeClosure, DueFill, HoldOver;
  }

  lemma {:induction false} NewestRow(rows: seq<IntradayRow>, cutoff: int)
    requires ByTs(rows)
    ensures match LastAtOrBefore(rows, cutoff)
            case Some(r) => r in rows && r.ts <= cutoff && forall x :: x in rows && x.ts <= cutoff ==> x.ts <= r.ts
            case None => forall x :: x in rows ==> x.ts > cutoff
  {
    if rows != [] {
      assert rows == [rows[0]] + rows[1..];
      NewestRow(rows[1..], cutoff);
      assert forall x :: x in rows <==> x == rows[0] || x in rows[1..];
      var r := LastAtOrBefore(rows[1..], cutoff);
      if r.Some? {
        var k :| 0 <= k < |rows[1..]| && rows[1..][k] == r.value;
        assert rows[0].ts < rows[k + 1].ts;
      }
    }
  }

  lemma {:induction false} NewestDay(rows: seq<DailyRow>, day: int)
    requires ByDate(rows)
    ensures match LastBefore(rows, day)
            case Some(d) => d in rows && d.date < day && forall x :: x in rows && x.date < day ==> x.date <= d.date
            case None => forall x :: x in rows ==> x.date >= day
  {
    if rows != [] {
      assert rows == [rows[0]] + rows[1..];
      NewestDay(rows[1..], day);
      assert forall x :: x in rows <==> x == rows[0] || x in rows[1..];
      var d := LastBefore(rows[1..], day);
      if d.Some? {
        var k :| 0 <= k < |rows[1..]| && rows[1..][k] == d.value;
        assert rows[0].date < rows[k + 1].date;
      }
    }
  }

  /** A stored bar that had closed by `asOf`, at most five days before. */
  ghost predicate IsFresh(t: BarTable, asOf: int, r: IntradayRow) {
    r in t.intraday && 0 <= asOf - (r.ts + 300_000) <= 432_000_000
  }

  /**
   * The current price: the close of the newest five-minute bar if that closed within the last five days, else of the
   * newest day before today.
   */
  lemma CurrentPriceMeans(t: BarTable, asOf: int)
    requires ValidTable(t)
    ensures forall r :: IsFresh(t, asOf, r) && (forall x :: IsFresh(t, asOf, x) ==> x.ts <= r.ts) ==>
              CurrentPrice(t, asOf) == r.px.close
    ensures (forall r :: !IsFresh(t, asOf, r)) ==>
              && (forall d :: d in t.daily && d.date < DayOf(asOf)
                              && (forall x :: x in t.daily && x.date < DayOf(asOf) ==> x.date <= d.date) ==>
                                CurrentPrice(t, asOf) == d.px.close)
              && ((forall d :: d in t.daily ==> d.date >= DayOf(asOf)) ==> CurrentPrice(t, asOf).None?)
  {
    NewestRow(t.intraday, IntradayCutoff(asOf));
    NewestDay(t.daily, DayOf(asOf));
    forall r | r in t.intraday ensures r.ts <= IntradayCutoff(asOf) <==> r.ts + 300_000 <= asOf {
    }
    var i := LastAtOrBefore(t.intraday, IntradayCutoff(asOf));
    if i.Some? && asOf - (i.value.ts + BAR_MS) <= INTRADAY_MAX_AGE_MS {
      assert IsFresh(t, asOf, i.value);
    } else {
      var d := LastBefore(t.daily, DayOf(asOf));
      assert CurrentPrice(t, asOf) == if d.Some? then d.value.px.close else None;
    }
  }
}
