/**
 * Filling a waiting entry at a bar (src/shared/entry_timing.js, entry_confirmation.js, src/graph/bar_fill.js):
 * the first tradable bar after the decision, or the first one after a bar that confirmed it.
 */
module BarFill {
  import opened BarWindow
  import opened Calendar
  import opened Collections
  import opened Returns

  const PENDING_ENTRY_EXPIRY_MS := 5 * DAY_MS

  const HOUR_MS := 3_600_000
  const DEFAULT_CONFIRM_HOURS := 6.0

  /** The hours an entry waits for its confirmation: at least one, at most 72, else the default. */
  function ConfirmHours(configured: Option<real>): real {
    if configured.Some? && 1.0 <= configured.value <= 72.0 then configured.value else DEFAULT_CONFIRM_HOURS
  }

  /** The deadlines a decision made at `asOf` can be stored with: for a stale price, and for a confirming entry. */
  function PlainDeadline(asOf: int): Stamp {
    At(asOf + PENDING_ENTRY_EXPIRY_MS)
  }

  function ConfirmDeadline(asOf: int, configured: Option<real>): Stamp {
    At(asOf + (ConfirmHours(configured) * HOUR_MS as real).Floor)
  }

  datatype Fill = Fill(price: real, kind: Kind, openedAt: int)

  predicate Tradable(b: Bar, from: int) {
    b.openMs >= from && b.px.open.Some? && b.px.open.value > 0.0
  }

  /** The open of the first bar that opens at or after `from` at a usable price. */
  function FindFillBar(s: seq<Bar>, from: int): Option<Fill> {
    if s == [] then None
    else if Tradable(s[0], from) then Some(Fill(s[0].px.open.value, s[0].kind, s[0].openMs))
    else FindFillBar(s[1..], from)
  }

  /** What an entry must show before it may fill. */
  datatype Confirm = Confirm(refPrice: Option<real>, movePct: Option<real>)

  /** A stored confirmation counts only when both its numbers are usable. */
  function ConfirmationSpecOf(stored: Option<Confirm>): Option<Confirm> {
    if stored.None? || stored.value.refPrice.None? || stored.value.refPrice.value <= 0.0
       || stored.value.movePct.None? || stored.value.movePct.value <= 0.0
    then None
    else stored
  }

  datatype Confirmed = Confirmed(closedAt: int, close: real, movePct: real, kind: Kind)

  function Move(d: Direction, refPrice: real, close: real): real
    requires refPrice > 0.0
  {
    if d.Long? then (close - refPrice) / refPrice else (refPrice - close) / refPrice
  }

  predicate Confirms(b: Bar, from: int, d: Direction, c: Confirm)
    requires ConfirmationSpecOf(Some(c)).Some?
  {
    && b.openMs >= from && b.px.close.Some? && b.px.close.value > 0.0
    && Move(d, c.refPrice.value, b.px.close.value) >= c.movePct.value
  }

  /** The first confirming bar, given up at the first bar that closes at or after the deadline. */
  function FindConfirmationBar(s: seq<Bar>, from: int, d: Direction, c: Confirm, expiresAt: int): Option<Confirmed> {
    if d.NoDirection? || ConfirmationSpecOf(Some(c)).None? || s == [] then None
    else if s[0].openMs >= from && s[0].availableAt >= expiresAt then None
    else if Confirms(s[0], from, d, c) then
      Some(Confirmed(s[0].availableAt, s[0].px.close.value, Move(d, c.refPrice.value, s[0].px.close.value), s[0].kind))
    else FindConfirmationBar(s[1..], from, d, c, expiresAt)
  }

  /** A waiting decision: when and what was decided, and until when it may wait. */
  datatype Pending = Pending(asOf: int, direction: Direction, stored: Option<Confirm>, expiresAt: Stamp)

  /** The fill a bar sequence offers a waiting decision. */
  function FindEntry(p: Pending, s: seq<Bar>): Option<Fill> {
    var spec := ConfirmationSpecOf(p.stored);
    if spec.None? then FindFillBar(s, p.asOf)
    else if !p.expiresAt.At? then None
    else
      var confirmed := FindConfirmationBar(s, p.asOf, p.direction, spec.value, p.expiresAt.ms);
      if confirmed.None? then None else FindFillBar(s, confirmed.value.closedAt)
  }

  method FindFirstBarOpenAtOrAfter(t: BarTable, from: int, asOf: int) returns (fill: Option<Fill>)
    ensures fill == FindFillBar(Window(t, from, asOf, INTRADAY_ROW_CAP, DAILY_ROW_CAP), from)
  {
    var s := ReadWindow(t, from, asOf, INTRADAY_ROW_CAP, DAILY_ROW_CAP);
    fill := FindFillBar(s, from);
  }

  method FindEntryFill(p: Pending, t: BarTable, asOf: int) returns (fill: Option<Fill>)
    ensures fill == FindEntry(p, Window(t, p.asOf, asOf, INTRADAY_ROW_CAP, DAILY_ROW_CAP))
  {
    var s := ReadWindow(t, p.asOf, asOf, INTRADAY_ROW_CAP, DAILY_ROW_CAP);
    fill := FindEntry(p, s);
  }

  // ---- The searches --------------------------------------------------------------------------

  ghost predicate IsFill(f: Fill, b: Bar) {
    b.px.open == Some(f.price) && b.kind == f.kind && b.openMs == f.openedAt
  }

  /** A fill is the first tradable bar of the sequence, and no fill means there is none. */
  lemma {:induction false} FillIsFirstTradable(s: seq<Bar>, from: int)
    ensures FindFillBar(s, from).None? <==> forall b :: b in s ==> !Tradable(b, from)
    ensures FindFillBar(s, from).Some? ==>
              exists k :: 0 <= k < |s| && Tradable(s[k], from) && IsFill(FindFillBar(s, from).value, s[k])
                && forall i :: 0 <= i < k ==> !Tradable(s[i], from)
  {
    if s != [] {
      assert s == [s[0]] + s[1..];
      assert s[0] in s;
      FillIsFirstTradable(s[1..], from);
      if !Tradable(s[0], from) && FindFillBar(s[1..], from).Some? {
        var k :| 0 <= k < |s[1..]| && Tradable(s[1..][k], from) && IsFill(FindFillBar(s[1..], from).value, s[1..][k])
          && forall i :: 0 <= i < k ==> !Tradable(s[1..][i], from);
        assert s[k + 1] == s[1..][k];
        forall i | 0 <= i < k + 1 ensures !Tradable(s[i], from) {
          if i > 0 {
            assert s[i] == s[1..][i - 1];
          }
        }
      }
    }
  }

  lemma {:induction false} FillExtends(a: seq<Bar>, b: seq<Bar>, from: int)
    ensures FindFillBar(a + b, from) == if FindFillBar(a, from).Some? then FindFillBar(a, from)
                                        else FindFillBar(b, from)
  {
    if a == [] {
      assert a + b == b;
    } else {
      assert (a + b)[0] == a[0] && (a + b)[1..] == a[1..] + b;
      FillExtends(a[1..], b, from);
    }
  }

  lemma {:induction false} ConfirmationExtends(a: seq<Bar>, b: seq<Bar>, from: int, d: Direction, c: Confirm,
                                               expiresAt: int)
    requires FindConfirmationBar(a, from, d, c, expiresAt).Some?
    ensures FindConfirmationBar(a + b, from, d, c, expiresAt) == FindConfirmationBar(a, from, d, c, expiresAt)
  {
    assert (a + b)[0] == a[0] && (a + b)[1..] == a[1..] + b;
    if !Confirms(a[0], from, d, c) {
      ConfirmationExtends(a[1..], b, from, d, c, expiresAt);
    }
  }

  /** A fill found on a sequence is the fill on every longer one. */
  lemma EntryExtends(p: Pending, a: seq<Bar>, b: seq<Bar>)
    requires FindEntry(p, a).Some?
    ensures FindEntry(p, a + b) == FindEntry(p, a)
  {
    var spec := ConfirmationSpecOf(p.stored);
    if spec.None? {
      FillExtends(a, b, p.asOf);
    } else {
      ConfirmationExtends(a, b, p.asOf, p.direction, spec.value, p.expiresAt.ms);
      FillExtends(a, b, FindConfirmationBar(a, p.asOf, p.direction, spec.value, p.expiresAt.ms).value.closedAt);
    }
  }

  lemma LaterBarsCloseLater(s: seq<Bar>)
    requires s != [] && Disjoint(s)
    ensures Disjoint(s[1..])
    ensures forall b :: b in s ==> b == s[0] || (b in s[1..] && s[0].availableAt <= b.openMs < b.availableAt)
    ensures s[0] in s && forall b :: b in s[1..] ==> b in s
  {
    assert s == [s[0]] + s[1..];
    forall b | b in s[1..] ensures s[0].availableAt <= b.openMs < b.availableAt {
      var k :| 0 <= k < |s[1..]| && s[1..][k] == b;
      assert s[k + 1] == b;
    }
  }

  /**
   * Giving up at the first bar that closes at or after the deadline misses nothing: bars that open later close
   * later, so the search finds a bar exactly when some bar confirms before the deadline, and then the earliest
   * such bar.
   */
  lemma {:induction false} DeadlineStopMissesNothing(s: seq<Bar>, from: int, d: Direction, c: Confirm, expiresAt: int)
    requires Disjoint(s) && !d.NoDirection? && ConfirmationSpecOf(Some(c)).Some?
    ensures FindConfirmationBar(s, from, d, c, expiresAt).None? <==>
            forall b :: b in s && Confirms(b, from, d, c) ==> b.availableAt >= expiresAt
    ensures var r := FindConfirmationBar(s, from, d, c, expiresAt);
            r.Some? ==> exists b :: b in s && Confirms(b, from, d, c) && r.value.closedAt == b.availableAt < expiresAt
                          && forall x :: x in s && Confirms(x, from, d, c) ==> b.availableAt <= x.availableAt
  {
    if s != [] {
      LaterBarsCloseLater(s);
      DeadlineStopMissesNothing(s[1..], from, d, c, expiresAt);
      assert Confirms(s[0], from, d, c) ==> s[0].openMs >= from;
      hide Disjoint, Confirms, ConfirmationSpecOf, Move;
    }
  }

  // ---- What an entry needs, spelled out ------------------------------------------------------

  /** The fill is the open of bar `k`, the first one that opens at or after `from` at a positive price. */
  ghost predicate FillsAt(f: Fill, s: seq<Bar>, k: nat, from: int) {
    && k < |s| && s[k].openMs >= from && s[k].px.open == Some(f.price) && f.price > 0.0
    && f.kind == s[k].kind && f.openedAt == s[k].openMs
    && forall i :: 0 <= i < k && s[i].openMs >= from ==> s[i].px.open.None? || s[i].px.open.value <= 0.0
  }

  ghost predicate NothingToFillAt(s: seq<Bar>, from: int) {
    forall b :: b in s && b.openMs >= from ==> b.px.open.None? || b.px.open.value <= 0.0
  }

  lemma FillMeans(s: seq<Bar>, from: int)
    ensures match FindFillBar(s, from)
            case Some(f) => exists k: nat :: FillsAt(f, s, k, from)
            case None => NothingToFillAt(s, from)
  {
    FillIsFirstTradable(s, from);
    if FindFillBar(s, from).Some? {
      var f := FindFillBar(s, from).value;
      var k :| 0 <= k < |s| && Tradable(s[k], from) && IsFill(f, s[k])
        && forall i :: 0 <= i < k ==> !Tradable(s[i], from);
      assert FillsAt(f, s, k, from);
    }
  }

  /** A decision that must see the price move first: both numbers are there and positive. */
  ghost predicate AsksFor(p: Pending, refPrice: real, movePct: real) {
    p.stored == Some(Confirm(Some(refPrice), Some(movePct))) && refPrice > 0.0 && movePct > 0.0
  }

  /** The bar opened after the decision, closed before the deadline, and closed far enough the decided way. */
  ghost predicate MovedInTime(p: Pending, refPrice: real, movePct: real, b: Bar) {
    && p.asOf <= b.openMs && p.expiresAt.At? && b.availableAt < p.expiresAt.ms && b.px.close.Some?
    && match p.direction
       case Long => b.px.close.value >= refPrice * (1.0 + movePct)
       case Short => 0.0 < b.px.close.value <= refPrice * (1.0 - movePct)
       case NoDirection => false
  }

  lemma RatioAtLeast(way: real, whole: real, part: real)
    requires whole > 0.0
    ensures way / whole >= part <==> way >= part * whole
  {
    var ratio := way / whole;
    assert ratio * whole == way;
    if ratio >= part {
      assert (ratio - part) * whole >= 0.0;
    } else {
      assert (part - ratio) * whole > 0.0;
    }
  }

  lemma MoveMeans(p: Pending, refPrice: real, movePct: real, b: Bar)
    requires AsksFor(p, refPrice, movePct) && !p.direction.NoDirection? && p.expiresAt.At?
    ensures MovedInTime(p, refPrice, movePct, b)
       <==> Confirms(b, p.asOf, p.direction, p.stored.value) && b.availableAt < p.expiresAt.ms
  {
    if b.px.close.Some? {
      var close := b.px.close.value;
      var way := if p.direction.Long? then close - refPrice else refPrice - close;
      RatioAtLeast(way, refPrice, movePct);
      assert refPrice * (1.0 + movePct) == refPrice + movePct * refPrice;
      assert refPrice * (1.0 - movePct) == refPrice - movePct * refPrice;
      assert p.direction.Long? && close >= refPrice + movePct * refPrice ==> close > 0.0;
    }
  }

  /**
   * A confirmed entry, in numbers: it fills exactly at the first bar with a usable open at or after the close of the
   * first bar that moved far enough in time, and not at all without such a bar.
   */
  lemma ConfirmedEntryMeans(p: Pending, s: seq<Bar>, refPrice: real, movePct: real)
    requires Disjoint(s) && AsksFor(p, refPrice, movePct)
    ensures forall i :: 0 <= i < |s| && MovedInTime(p, refPrice, movePct, s[i])
                        && (forall j :: 0 <= j < i ==> !MovedInTime(p, refPrice, movePct, s[j])) ==>
              match FindEntry(p, s)
              case Some(f) => exists k: nat :: i < k && FillsAt(f, s, k, s[i].availableAt)
              case None => NothingToFillAt(s, s[i].availableAt)
    ensures (forall b :: b in s ==> !MovedInTime(p, refPrice, movePct, b)) ==> FindEntry(p, s).None?
  {
    hide MovedInTime, Confirms;
    var c := p.stored.value;
    if !p.direction.NoDirection? && p.expiresAt.At? {
      DeadlineStopMissesNothing(s, p.asOf, p.direction, c, p.expiresAt.ms);
      var r := FindConfirmationBar(s, p.asOf, p.direction, c, p.expiresAt.ms);
      forall b ensures MovedInTime(p, refPrice, movePct, b)
                  <==> Confirms(b, p.asOf, p.direction, c) && b.availableAt < p.expiresAt.ms
      {
        MoveMeans(p, refPrice, movePct, b);
      }
      forall i | 0 <= i < |s| && MovedInTime(p, refPrice, movePct, s[i])
                 && (forall j :: 0 <= j < i ==> !MovedInTime(p, refPrice, movePct, s[j]))
        ensures match FindEntry(p, s)
                case Some(f) => exists k: nat :: i < k && FillsAt(f, s, k, s[i].availableAt)
                case None => NothingToFillAt(s, s[i].availableAt)
      {
        ConfirmingBarIs(p, s, refPrice, movePct, i);
        FillMeans(s, s[i].availableAt);
        if FindEntry(p, s).Some? {
          var f := FindEntry(p, s).value;
          var k: nat :| FillsAt(f, s, k, s[i].availableAt);
          OneAfterTheOther(s, i, k);
        }
      }
    } else {
      NeverMoves(p, refPrice, movePct);
    }
  }

  lemma OneAfterTheOther(s: seq<Bar>, i: nat, k: nat)
    requires Disjoint(s) && i < |s| && k < |s|
    ensures s[i].openMs < s[i].availableAt && s[k].openMs < s[k].availableAt
    ensures i < k ==> s[i].availableAt <= s[k].openMs
    ensures k < i ==> s[k].availableAt <= s[i].openMs
  {
    assert s[i] in s && s[k] in s;
  }

  lemma NeverMoves(p: Pending, refPrice: real, movePct: real)
    requires p.direction.NoDirection? || !p.expiresAt.At?
    ensures forall b :: !MovedInTime(p, refPrice, movePct, b)
  {
  }

  /** The search stops at the first bar that moved in time. */
  lemma ConfirmingBarIs(p: Pending, s: seq<Bar>, refPrice: real, movePct: real, i: nat)
    requires Disjoint(s) && AsksFor(p, refPrice, movePct) && i < |s|
    requires MovedInTime(p, refPrice, movePct, s[i])
    requires forall j :: 0 <= j < i ==> !MovedInTime(p, refPrice, movePct, s[j])
    ensures var r := FindConfirmationBar(s, p.asOf, p.direction, p.stored.value, p.expiresAt.ms);
            r.Some? && r.value.closedAt == s[i].availableAt
  {
    var c := p.stored.value;
    assert s[i] in s && p.expiresAt.At? && !p.direction.NoDirection?;
    MoveMeans(p, refPrice, movePct, s[i]);
    DeadlineStopMissesNothing(s, p.asOf, p.direction, c, p.expiresAt.ms);
    var r := FindConfirmationBar(s, p.asOf, p.direction, c, p.expiresAt.ms);
    var b :| b in s && Confirms(b, p.asOf, p.direction, c) && r.value.closedAt == b.availableAt < p.expiresAt.ms
      && forall x :: x in s && Confirms(x, p.asOf, p.direction, c) ==> b.availableAt <= x.availableAt;
    var k :| 0 <= k < |s| && s[k] == b;
    MoveMeans(p, refPrice, movePct, b);
    OneAfterTheOther(s, i, k);
    hide Confirms, MovedInTime, Disjoint;
    assert i <= k;
  }

  /** What the search records of the confirming bar: its close, its kind and how far it moved. */
  lemma {:induction false} ConfirmationIsRecorded(s: seq<Bar>, from: int, d: Direction, c: Confirm, expiresAt: int)
    requires FindConfirmationBar(s, from, d, c, expiresAt).Some?
    ensures var r := FindConfirmationBar(s, from, d, c, expiresAt).value;
            && (exists b :: b in s && b.availableAt == r.closedAt && b.px.close == Some(r.close) && b.kind == r.kind)
            && c.refPrice.value * r.movePct
               == if d.Long? then r.close - c.refPrice.value else c.refPrice.value - r.close
  {
    if !Confirms(s[0], from, d, c) {
      ConfirmationIsRecorded(s[1..], from, d, c, expiresAt);
    } else {
      assert s[0] in s;
    }
  }

  /** Every other decision, also one whose numbers are unusable, fills at the first usable open since it was taken. */
  lemma PlainEntryMeans(p: Pending, s: seq<Bar>)
    requires forall refPrice, movePct :: !AsksFor(p, refPrice, movePct)
    ensures match FindEntry(p, s)
            case Some(f) => exists k: nat :: FillsAt(f, s, k, p.asOf)
            case None => NothingToFillAt(s, p.asOf)
  {
    FillMeans(s, p.asOf);
    if ConfirmationSpecOf(p.stored).Some? {
      var c := p.stored.value;
      assert AsksFor(p, c.refPrice.value, c.movePct.value);
    }
  }

  /**
   * The waiting times in milliseconds: five days for a stale price; the configured hours, cut to whole milliseconds,
   * for a confirmation when they lie between one and 72, else six.
   */
  lemma WaitingTimes(asOf: int, hours: real)
    ensures PlainDeadline(asOf) == At(asOf + 432_000_000)
    ensures ConfirmDeadline(asOf, None) == At(asOf + 21_600_000)
    ensures var wait := ConfirmDeadline(asOf, Some(hours)).ms - asOf;
            if hours < 1.0 || hours > 72.0 then wait == 21_600_000
            else wait as real <= hours * 3_600_000.0 < (wait + 1) as real
  {
  }
}
