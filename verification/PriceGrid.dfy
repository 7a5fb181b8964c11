/**
 * The shared price grid (src/backtest/equity.js): which tickers have prices good enough to score, and one
 * column of closes per ticker over the union of their dates, missing days carried forward.
 */
module PriceGrid {
  import opened Collections
  import opened Equity

  datatype Close = Close(date: int, price: real)

  ghost predicate ByDay(bars: seq<Close>) {
    forall i, j :: 0 <= i < j < |bars| ==> bars[i].date < bars[j].date
  }

  /** The bars of the span [from, until). */
  function InSpan(bars: seq<Close>, from: int, until: int): seq<Close> {
    Filter(bars, (b: Close) => from <= b.date < until)
  }

  function LastBefore(bars: seq<Close>, day: int): (r: Option<Close>)
    ensures r.Some? ==> r.value in bars && r.value.date < day
  {
    if bars == [] then None
    else if bars[|bars| - 1].date < day then Some(bars[|bars| - 1])
    else LastBefore(bars[..|bars| - 1], day)
  }

  /** A ticker's bars that count, from the one its buy-and-hold side pays on; or nothing fit to score. */
  datatype Coverage = Covered(basis: Close, span: seq<Close>) | Unfit(why: Problem)

  /**
   * Why a ticker cannot be scored: no bar in the span, none near its start, none near its end, or a hole in
   * between.
   */
  datatype Problem = NoBars | LateStart(gap: int) | EarlyEnd(gap: int) | Hole

  predicate NoHole(bars: seq<Close>, maxGap: int) {
    forall i :: 0 < i < |bars| ==> bars[i].date - bars[i - 1].date <= maxGap
  }

  function CoverageOf(bars: seq<Close>, from: int, until: int, maxGap: int): Coverage {
    var span, before := InSpan(bars, from, until), LastBefore(bars, from);
    if span == [] then Unfit(NoBars)
    else
      var fromBefore := before.Some? && from - before.value.date <= maxGap;
      if !fromBefore && span[0].date - from > maxGap then Unfit(LateStart(span[0].date - from))
      else if until - span[|span| - 1].date > maxGap then Unfit(EarlyEnd(until - span[|span| - 1].date))
      else if !NoHole(if fromBefore then [before.value] + span else span, maxGap) then Unfit(Hole)
      else Covered(if fromBefore then before.value else span[0], span)
  }

  /** Two bars next to each other, `b` in the span and `a` in it or within the gap before it. */
  ghost predicate Neighbours(bars: seq<Close>, from: int, until: int, maxGap: int, a: Close, b: Close) {
    && a in bars && b in bars && from <= b.date < until && from - maxGap <= a.date < b.date
    && forall x :: x in bars ==> !(a.date < x.date < b.date)
  }

  /** Some bar lies within the gap of the span's start, and some within the gap of its end. */
  ghost predicate StartsNear(bars: seq<Close>, from: int, until: int, maxGap: int) {
    exists x :: x in bars && from - maxGap <= x.date <= from + maxGap && x.date < until
  }

  ghost predicate EndsNear(bars: seq<Close>, from: int, until: int, maxGap: int) {
    exists x :: x in bars && from <= x.date < until <= x.date + maxGap
  }

  /**
   * What makes prices fit: bars in the span, near its start and its end, and no two neighbours further apart than the
   * gap; the basis is the last bar before the span when that is near, and else the first in it. Otherwise the first of
   * these that fails is the problem, with the distance found.
   */
  lemma CoverageMeans(bars: seq<Close>, from: int, until: int, maxGap: int)
    requires ByDay(bars) && maxGap >= 0
    ensures match CoverageOf(bars, from, until, maxGap)
            case Covered(basis, span) =>
              && StartsNear(bars, from, until, maxGap) && EndsNear(bars, from, until, maxGap)
              && (forall a, b :: Neighbours(bars, from, until, maxGap, a, b) ==> b.date - a.date <= maxGap)
              && basis in bars && span == InSpan(bars, from, until)
              && (if basis.date < from then
                    from - basis.date <= maxGap && forall x :: x in bars && x.date < from ==> x.date <= basis.date
                  else
                    && (forall x :: x in bars ==> !(from - maxGap <= x.date < from))
                    && forall x :: x in bars && x.date >= from ==> basis.date <= x.date)
            case Unfit(NoBars) => forall x :: x in bars ==> !(from <= x.date < until)
            case Unfit(LateStart(gap)) =>
              && !StartsNear(bars, from, until, maxGap) && gap > maxGap && from + gap < until
              && (exists x :: x in bars && x.date == from + gap)
              && forall x :: x in bars && from <= x.date < until ==> x.date >= from + gap
            case Unfit(EarlyEnd(gap)) =>
              && StartsNear(bars, from, until, maxGap) && !EndsNear(bars, from, until, maxGap)
              && gap > maxGap && until - gap >= from
              && (exists x :: x in bars && x.date == until - gap)
              && forall x :: x in bars && from <= x.date < until ==> x.date <= until - gap
            case Unfit(Hole) =>
              && StartsNear(bars, from, until, maxGap) && EndsNear(bars, from, until, maxGap)
              && exists a, b :: Neighbours(bars, from, until, maxGap, a, b) && b.date - a.date > maxGap
  {
    var span, before := InSpan(bars, from, until), LastBefore(bars, from);
    SpanMembers(bars, from, until);
    SpanIsOrdered(bars, from, until);
    LastBeforeIs(bars, from);
    if span != [] {
      var near := before.Some? && from - before.value.date <= maxGap;
      var all := if near then [before.value] + span else span;
      EndsOfSpan(bars, span, from, until);
      HolesMean(bars, from, until, maxGap, all);
      NearMeans(bars, span, before, from, until, maxGap);
    }
    hide InSpan, LastBefore, NoHole, Neighbours, StartsNear, EndsNear, ByDay;
  }

  lemma NearMeans(bars: seq<Close>, span: seq<Close>, before: Option<Close>, from: int, until: int, maxGap: int)
    requires span != [] && span[0] in span && span[|span| - 1] in span && maxGap >= 0
    requires forall x :: x in span <==> x in bars && from <= x.date < until
    requires forall x :: x in bars && from <= x.date < until ==> span[0].date <= x.date <= span[|span| - 1].date
    requires before.None? ==> forall x :: x in bars ==> x.date >= from
    requires before.Some? ==>
               before.value in bars && before.value.date < from
               && forall x :: x in bars && x.date < from ==> x.date <= before.value.date
    ensures StartsNear(bars, from, until, maxGap) <==>
            (before.Some? && from - before.value.date <= maxGap) || span[0].date - from <= maxGap
    ensures EndsNear(bars, from, until, maxGap) <==> until - span[|span| - 1].date <= maxGap
  {
  }

  lemma EndsOfSpan(bars: seq<Close>, span: seq<Close>, from: int, until: int)
    requires ByDay(span) && span != [] && forall x :: x in span <==> x in bars && from <= x.date < until
    ensures span[0] in span && span[|span| - 1] in span
    ensures forall x :: x in bars && from <= x.date < until ==> span[0].date <= x.date <= span[|span| - 1].date
  {
    forall x | x in bars && from <= x.date < until ensures span[0].date <= x.date <= span[|span| - 1].date {
      var i :| 0 <= i < |span| && span[i] == x;
    }
  }

  /** The bars looked at have a hole exactly when two neighbours lie too far apart. */
  lemma HolesMean(bars: seq<Close>, from: int, until: int, maxGap: int, all: seq<Close>)
    requires ByDay(bars) && maxGap >= 0
    requires var span, before := InSpan(bars, from, until), LastBefore(bars, from);
             && span != []
             && all == if before.Some? && from - before.value.date <= maxGap then [before.value] + span else span
    ensures NoHole(all, maxGap) <==>
            forall a, b :: Neighbours(bars, from, until, maxGap, a, b) ==> b.date - a.date <= maxGap
  {
    SpanMembers(bars, from, until);
    SpanIsOrdered(bars, from, until);
    LastBeforeIs(bars, from);
    var span, before := InSpan(bars, from, until), LastBefore(bars, from);
    var near := before.Some? && from - before.value.date <= maxGap;
    hide InSpan, LastBefore;
    AllAreOrdered(all, before, span, from, near);
    PairsAreNeighbours(bars, from, until, maxGap, all, before);
    hide Neighbours, NoHole, ByDay;
    HolesAre(bars, from, until, maxGap, all);
  }

  ghost predicate Adjacent(all: seq<Close>, a: Close, b: Close) {
    exists k :: 0 < k < |all| && all[k - 1] == a && all[k] == b
  }

  ghost predicate SamePairs(bars: seq<Close>, from: int, until: int, maxGap: int, all: seq<Close>) {
    && (forall a, b :: Neighbours(bars, from, until, maxGap, a, b) ==> Adjacent(all, a, b))
    && forall k :: 0 < k < |all| ==> Neighbours(bars, from, until, maxGap, all[k - 1], all[k])
  }

  lemma PairsAreNeighbours(bars: seq<Close>, from: int, until: int, maxGap: int, all: seq<Close>, before: Option<Close>)
    requires ByDay(all) && ByDay(bars) && maxGap >= 0
    requires var near := before.Some? && from - before.value.date <= maxGap;
             && (forall x :: x in all <==> (near && x == before.value) || (x in bars && from <= x.date < until))
             && forall k :: 0 <= k < |all| ==> all[k].date >= from || (k == 0 && near)
    requires before.None? ==> forall x :: x in bars ==> x.date >= from
    requires before.Some? ==>
               before.value in bars && before.value.date < from
               && forall x :: x in bars && x.date < from ==> x.date <= before.value.date
    ensures SamePairs(bars, from, until, maxGap, all)
  {
    forall a, b | Neighbours(bars, from, until, maxGap, a, b) ensures Adjacent(all, a, b) {
      NeighbourAt(bars, all, before, from, until, maxGap, a, b);
    }
    forall k | 0 < k < |all| ensures Neighbours(bars, from, until, maxGap, all[k - 1], all[k]) {
      assert all[k] in all && all[k - 1] in all;
      NothingBetween(bars, all, from, until, k);
    }
  }

  lemma HolesAre(bars: seq<Close>, from: int, until: int, maxGap: int, all: seq<Close>)
    requires SamePairs(bars, from, until, maxGap, all)
    ensures NoHole(all, maxGap) <==>
            forall a, b :: Neighbours(bars, from, until, maxGap, a, b) ==> b.date - a.date <= maxGap
  {
    hide Neighbours;
  }

  lemma AllAreOrdered(all: seq<Close>, before: Option<Close>, span: seq<Close>, from: int, near: bool)
    requires ByDay(span) && forall x :: x in span ==> x.date >= from
    requires near ==> before.Some? && before.value.date < from
    requires all == if near then [before.value] + span else span
    ensures ByDay(all)
    ensures forall x :: x in all <==> (near && x == before.value) || x in span
    ensures forall k :: 0 <= k < |all| ==> all[k].date >= from || (k == 0 && near)
  {
    forall k | 0 <= k < |all| ensures all[k].date >= from || (k == 0 && near) {
      assert all[k] in all;
      assert near && k > 0 ==> all[k] == span[k - 1] && span[k - 1] in span;
    }
    forall i, j | 0 <= i < j < |all| ensures all[i].date < all[j].date {
      if near {
        assert all[j] == span[j - 1] && span[j - 1] in span;
      }
    }
  }

  lemma NeighbourAt(bars: seq<Close>, all: seq<Close>, before: Option<Close>, from: int, until: int, maxGap: int,
                    a: Close, b: Close)
    requires ByDay(all) && ByDay(bars) && Neighbours(bars, from, until, maxGap, a, b)
    requires var near := before.Some? && from - before.value.date <= maxGap;
             forall x :: x in all <==> (near && x == before.value) || (x in bars && from <= x.date < until)
    requires before.None? ==> forall x :: x in bars ==> x.date >= from
    requires before.Some? ==>
               before.value in bars && before.value.date < from
               && forall x :: x in bars && x.date < from ==> x.date <= before.value.date
    ensures Adjacent(all, a, b)
  {
    if a.date < from {
      assert before.value.date == a.date;
      OneBarADay(bars, a, before.value);
    }
    assert a in all && b in all;
    var i :| 0 <= i < |all| && all[i] == a;
    var k :| 0 <= k < |all| && all[k] == b;
    assert i < k;
    var next := all[i + 1];
    assert next in all;
  }

  lemma NothingBetween(bars: seq<Close>, all: seq<Close>, from: int, until: int, k: nat)
    requires ByDay(all) && 0 < k < |all|
    requires forall x :: x in bars && from <= x.date < until ==> x in all
    requires forall x :: x in all ==> x.date < until
    requires all[k - 1].date >= from || forall x :: x in bars && x.date < from ==> x.date <= all[k - 1].date
    ensures forall x :: x in bars ==> !(all[k - 1].date < x.date < all[k].date)
  {
    assert all[k] in all;
    forall x | x in all ensures !(all[k - 1].date < x.date < all[k].date) {
      var i :| 0 <= i < |all| && all[i] == x;
    }
  }

  /** The bar a date is priced at: the last one in the span up to it, else the basis. */
  function BarFor(c: Coverage, day: int): Close
    requires c.Covered?
  {
    var at := LastBefore(c.span, day + 1);
    if at.Some? then at.value else c.basis
  }

  lemma {:induction false} LastBeforeIs(bars: seq<Close>, day: int)
    requires ByDay(bars)
    ensures LastBefore(bars, day).None? ==> forall b :: b in bars ==> b.date >= day
    ensures LastBefore(bars, day).Some? ==> forall b :: b in bars && b.date < day ==>
              b.date <= LastBefore(bars, day).value.date
  {
    if bars != [] {
      var n := |bars| - 1;
      assert forall b :: b in bars ==> b in bars[..n] || b == bars[n];
      if bars[n].date >= day {
        LastBeforeIs(bars[..n], day);
        hide ByDay;
      }
    }
  }

  /** One column: the last close seen so far, starting from the basis. */
  method ForwardFill(dates: seq<int>, c: Coverage) returns (column: seq<real>)
    requires c.Covered? && ByDay(c.span)
    requires forall i, j :: 0 <= i < j < |dates| ==> dates[i] < dates[j]
    requires forall b :: b in c.span ==> b.date in dates
    ensures |column| == |dates| && forall k :: 0 <= k < |dates| ==> column[k] == BarFor(c, dates[k]).price
  {
    hide BarFor;
    column := [];
    var last := c.basis;
    for k := 0 to |dates|
      invariant |column| == k && forall i :: 0 <= i < k ==> column[i] == BarFor(c, dates[i]).price
      invariant last == if k == 0 then c.basis else BarFor(c, dates[k - 1])
    {
      CarryOn(dates, c, k);
      var here := Filter(c.span, (b: Close) => b.date == dates[k]);
      assert forall b :: b in here <==> b in c.span && b.date == dates[k];
      if here != [] {
        assert here[0] in here;
        last := here[0];
      }
      assert last == BarFor(c, dates[k]);
      column := column + [last.price];
    }
  }

  /** On a date with a bar that bar prices it; on one without, the bar of the date before does. */
  lemma CarryOn(dates: seq<int>, c: Coverage, k: nat)
    requires c.Covered? && ByDay(c.span) && k < |dates|
    requires forall i, j :: 0 <= i < j < |dates| ==> dates[i] < dates[j]
    requires forall b :: b in c.span ==> b.date in dates
    ensures forall b :: b in c.span && b.date == dates[k] ==> BarFor(c, dates[k]) == b
    ensures (forall b :: b in c.span ==> b.date != dates[k]) ==>
              BarFor(c, dates[k]) == if k == 0 then c.basis else BarFor(c, dates[k - 1])
  {
    LastBeforeIs(c.span, dates[k] + 1);
    forall b | b in c.span && b.date == dates[k] ensures BarFor(c, dates[k]) == b {
      OneBarADay(c.span, b, BarFor(c, dates[k]));
    }
    if forall b :: b in c.span ==> b.date != dates[k] {
      if k > 0 {
        LastBeforeIs(c.span, dates[k - 1] + 1);
        assert forall i :: k < i < |dates| ==> dates[k] < dates[i];
        assert forall i :: 0 <= i < k - 1 ==> dates[i] < dates[k - 1];
        forall b | b in c.span && b.date < dates[k] + 1 ensures b.date <= dates[k - 1] {
          var i :| 0 <= i < |dates| && dates[i] == b.date;
        }
        OneBarADay(c.span, BarFor(c, dates[k]), BarFor(c, dates[k - 1]));
      } else {
        forall b | b in c.span ensures b.date > dates[0] {
          var i :| 0 <= i < |dates| && dates[i] == b.date;
        }
      }
    }
  }

  lemma OneBarADay(bars: seq<Close>, a: Close, b: Close)
    requires ByDay(bars)
    ensures a in bars && b in bars && a.date == b.date ==> a == b
  {
    if a in bars && b in bars && a.date == b.date {
      var i :| 0 <= i < |bars| && bars[i] == a;
      var j :| 0 <= j < |bars| && bars[j] == b;
    }
  }

  /**
   * No price on the grid is far from its date: it is the close of the ticker's latest bar, at most the allowed
   * gap old, or, before its first bar in the span, that bar's own close, at most the gap ahead.
   */
  lemma PricesAreNear(bars: seq<Close>, from: int, until: int, maxGap: int, day: int)
    requires ByDay(bars) && from <= day < until && CoverageOf(bars, from, until, maxGap).Covered?
    ensures var b := BarFor(CoverageOf(bars, from, until, maxGap), day);
            && b in bars
            && (b.date <= day ==> day - b.date <= maxGap && forall x :: x in bars && x.date <= day ==> x.date <= b.date)
            && (b.date > day ==> b.date - day <= maxGap && forall x :: x in InSpan(bars, from, until) ==>
                  x.date >= b.date)
  {
    var c := CoverageOf(bars, from, until, maxGap);
    SpanIsOrdered(bars, from, until);
    LastBeforeIs(c.span, day + 1);
    LastBeforeIs(bars, from);
    assert c.span == InSpan(bars, from, until);
    hide InSpan, LastBefore, CoverageOf, ByDay;
    if LastBefore(c.span, day + 1).Some? {
      PricedInSpan(bars, from, until, maxGap, day);
    } else {
      PricedByBasis(bars, from, until, maxGap, day);
    }
  }

  /**
   * A date is priced by a later bar exactly when the ticker has no bar on that date or within the allowed gap before
   * it.
   */
  lemma LaterPriceIff(bars: seq<Close>, from: int, until: int, maxGap: int, day: int)
    requires ByDay(bars) && from <= day < until && CoverageOf(bars, from, until, maxGap).Covered?
    ensures BarFor(CoverageOf(bars, from, until, maxGap), day).date > day
       <==> forall x :: x in bars && x.date <= day ==> day - x.date > maxGap
  {
    PricesAreNear(bars, from, until, maxGap, day);
    var b := BarFor(CoverageOf(bars, from, until, maxGap), day);
    if b.date > day {
      SpanMembers(bars, from, until);
      BasisIs(bars, from, until, maxGap);
      LastBeforeIs(bars, from);
      LaterIsBasis(bars, from, until, maxGap, day);
      hide InSpan, LastBefore, CoverageOf, BarFor, ByDay;
      assert forall x :: x in bars && from <= x.date <= day ==> x in InSpan(bars, from, until);
    }
  }

  /** The later bar is the basis, which is of the span: no recent bar came before it. */
  lemma LaterIsBasis(bars: seq<Close>, from: int, until: int, maxGap: int, day: int)
    requires CoverageOf(bars, from, until, maxGap).Covered? && from <= day
    requires BarFor(CoverageOf(bars, from, until, maxGap), day).date > day
    ensures CoverageOf(bars, from, until, maxGap).basis == BarFor(CoverageOf(bars, from, until, maxGap), day)
  {
    hide InSpan, CoverageOf;
  }

  /** A ticker whose first bar is on day 2 of a span from day 0 is priced on day 0 with the close of day 2. */
  lemma PricedByALaterBar()
    ensures var bars := [Close(2, 10.0)];
            && CoverageOf(bars, 0, 5, 4).Covered?
            && BarFor(CoverageOf(bars, 0, 5, 4), 0) == Close(2, 10.0)
  {
    var bars := [Close(2, 10.0)];
    assert bars[1..] == [] && bars[..0] == [];
    assert InSpan(bars, 0, 5) == bars;
  }

  lemma PricedInSpan(bars: seq<Close>, from: int, until: int, maxGap: int, day: int)
    requires ByDay(bars) && from <= day < until && CoverageOf(bars, from, until, maxGap).Covered?
    requires ByDay(InSpan(bars, from, until)) && LastBefore(InSpan(bars, from, until), day + 1).Some?
    requires var b := LastBefore(InSpan(bars, from, until), day + 1).value;
             forall x :: x in InSpan(bars, from, until) && x.date < day + 1 ==> x.date <= b.date
    ensures var b := LastBefore(InSpan(bars, from, until), day + 1).value;
            b in bars && b.date <= day && day - b.date <= maxGap && forall x :: x in bars && x.date <= day ==>
              x.date <= b.date
  {
    var span := InSpan(bars, from, until);
    var b := LastBefore(span, day + 1).value;
    SpanHasNoHole(bars, from, until, maxGap);
    hide InSpan, CoverageOf, LastBefore;
    NextIsBeyond(span, b, day);
    var k :| 0 <= k < |span| && span[k] == b && (k + 1 < |span| ==> span[k + 1].date > day);
    if k + 1 < |span| {
      assert span[k + 1].date - span[k].date <= maxGap;
    }
  }

  /** What a fit ticker's span looks like. */
  lemma {:induction false} SpanHasNoHole(bars: seq<Close>, from: int, until: int, maxGap: int)
    requires CoverageOf(bars, from, until, maxGap).Covered?
    ensures var span := InSpan(bars, from, until);
            && span != [] && until - span[|span| - 1].date <= maxGap
            && (forall k :: 0 <= k < |span| - 1 ==> span[k + 1].date - span[k].date <= maxGap)
            && forall x :: x in span <==> x in bars && from <= x.date < until
  {
    SpanMembers(bars, from, until);
    var span, before := InSpan(bars, from, until), LastBefore(bars, from);
    if before.Some? && from - before.value.date <= maxGap {
      NoHoleAfter(before.value, span, maxGap);
    }
    hide InSpan, LastBefore;
    assert NoHole(span, maxGap);
    forall k | 0 <= k < |span| - 1 ensures span[k + 1].date - span[k].date <= maxGap {
      assert span[k + 1].date - span[(k + 1) - 1].date <= maxGap;
    }
  }

  lemma SpanMembers(bars: seq<Close>, from: int, until: int)
    ensures forall x :: x in InSpan(bars, from, until) <==> x in bars && from <= x.date < until
  {
  }

  lemma NoHoleAfter(first: Close, span: seq<Close>, maxGap: int)
    ensures NoHole([first] + span, maxGap) ==> NoHole(span, maxGap)
  {
    var s := [first] + span;
    if NoHole(s, maxGap) {
      forall i | 0 < i < |span| ensures span[i].date - span[i - 1].date <= maxGap {
        assert s[i + 1].date - s[(i + 1) - 1].date <= maxGap;
        assert s[i + 1] == span[i] && s[i] == span[i - 1];
      }
    }
  }

  lemma PricedByBasis(bars: seq<Close>, from: int, until: int, maxGap: int, day: int)
    requires ByDay(bars) && from <= day < until && CoverageOf(bars, from, until, maxGap).Covered?
    requires ByDay(InSpan(bars, from, until)) && forall x :: x in InSpan(bars, from, until) ==> x.date > day
    requires LastBefore(bars, from).Some? ==> forall x :: x in bars && x.date < from ==>
               x.date <= LastBefore(bars, from).value.date
    ensures var b := CoverageOf(bars, from, until, maxGap).basis;
            && b in bars
            && (b.date <= day ==> day - b.date <= maxGap && forall x :: x in bars && x.date <= day ==> x.date <= b.date)
            && (b.date > day ==> b.date - day <= maxGap && forall x :: x in InSpan(bars, from, until) ==>
                  x.date >= b.date)
  {
    var span, before := InSpan(bars, from, until), LastBefore(bars, from);
    BasisIs(bars, from, until, maxGap);
    SpanMembers(bars, from, until);
    hide InSpan, LastBefore, CoverageOf;
    assert span[0] in span;
    forall x | x in span ensures x.date >= span[0].date {
      var i :| 0 <= i < |span| && span[i] == x;
    }
  }

  /**
   * The basis is the last bar before the span when recent enough, and then near the span's first; else that
   * first bar.
   */
  lemma BasisIs(bars: seq<Close>, from: int, until: int, maxGap: int)
    requires CoverageOf(bars, from, until, maxGap).Covered?
    ensures var span, before, b :=
              InSpan(bars, from, until), LastBefore(bars, from), CoverageOf(bars, from, until, maxGap).basis;
            && span != []
            && (before.Some? && from - before.value.date <= maxGap ==>
                  b == before.value && b in bars && b.date < from && span[0].date - b.date <= maxGap)
            && (!(before.Some? && from - before.value.date <= maxGap) ==> b == span[0] && b.date - from <= maxGap)
  {
    var span, before := InSpan(bars, from, until), LastBefore(bars, from);
    hide InSpan, LastBefore;
    if before.Some? && from - before.value.date <= maxGap {
      var s := [before.value] + span;
      assert NoHole(s, maxGap) && s[1] == span[0] && s[0] == before.value;
    }
  }

  lemma SpanIsOrdered(bars: seq<Close>, from: int, until: int)
    requires ByDay(bars)
    ensures ByDay(InSpan(bars, from, until))
  {
    var byDay := (b: Close) => b.date;
    FilterStrictlyBy(bars, (b: Close) => from <= b.date < until, byDay);
    var s := InSpan(bars, from, until);
    forall i, j | 0 <= i < j < |s| ensures s[i].date < s[j].date {
      assert byDay(s[i]) < byDay(s[j]);
    }
  }

  lemma NextIsBeyond(span: seq<Close>, b: Close, day: int)
    requires ByDay(span) && b in span && b.date <= day && forall x :: x in span && x.date < day + 1 ==> x.date <= b.date
    ensures exists k :: 0 <= k < |span| && span[k] == b && (k + 1 < |span| ==> span[k + 1].date > day)
    ensures b.date <= span[|span| - 1].date
  {
    var k :| 0 <= k < |span| && span[k] == b;
    if k + 1 < |span| {
      assert span[k + 1] in span;
    }
  }

  // ---- The grid -------------------------------------------------------------------------------

  function InsertDate(dates: seq<int>, d: int): seq<int> {
    if dates == [] || d < dates[0] then [d] + dates
    else if d == dates[0] then dates
    else [dates[0]] + InsertDate(dates[1..], d)
  }

  ghost predicate Rising(dates: seq<int>) {
    forall i, j :: 0 <= i < j < |dates| ==> dates[i] < dates[j]
  }

  lemma {:induction false} InsertDateKeeps(dates: seq<int>, d: int)
    requires Rising(dates)
    ensures Rising(InsertDate(dates, d)) && forall x :: x in InsertDate(dates, d) <==> x == d || x in dates
  {
    var s := InsertDate(dates, d);
    if dates != [] && d > dates[0] {
      InsertDateKeeps(dates[1..], d);
      var rest := InsertDate(dates[1..], d);
      assert dates == [dates[0]] + dates[1..] && s == [dates[0]] + rest;
      forall i, j | 0 <= i < j < |s| ensures s[i] < s[j] {
        assert s[j] == rest[j - 1] && rest[j - 1] in rest;
        if i > 0 {
          assert s[i] == rest[i - 1];
        }
      }
    } else if dates == [] || d < dates[0] {
      assert s == [d] + dates;
    }
  }

  /** The dates collected so far, with those of one more ticker. */
  method AddDates(dates: seq<int>, span: seq<Close>) returns (r: seq<int>)
    requires Rising(dates)
    ensures Rising(r) && forall d :: d in r <==> d in dates || exists b :: b in span && b.date == d
  {
    r := dates;
    for i := 0 to |span|
      invariant Rising(r)
      invariant forall d :: d in r <==> d in dates || exists b :: b in span[..i] && b.date == d
    {
      assert span[..i + 1] == span[..i] + [span[i]];
      InsertDateKeeps(r, span[i].date);
      r := InsertDate(r, span[i].date);
    }
    assert span[..|span|] == span;
  }

  ghost predicate Prices(bars: map<int, seq<Close>>) {
    forall t :: t in bars ==> ByDay(bars[t]) && forall b :: b in bars[t] ==> b.price > 0.0
  }

  function BarsOf(bars: map<int, seq<Close>>, t: int): seq<Close> {
    if t in bars then bars[t] else []
  }

  /** A column prices every date by its nearest bar. */
  ghost predicate ColumnOk(column: seq<real>, dates: seq<int>, c: Coverage) {
    c.Covered? && |column| == |dates| && forall k :: 0 <= k < |dates| ==> column[k] == BarFor(c, dates[k]).price
  }

  /** The union of the tickers' dates, in order. */
  method UnionDates(bars: map<int, seq<Close>>, tickers: seq<int>, from: int, until: int) returns (dates: seq<int>)
    ensures Rising(dates)
    ensures forall d :: d in dates <==>
              exists t, b :: t in tickers && b in InSpan(BarsOf(bars, t), from, until) && b.date == d
  {
    hide InSpan;
    dates := [];
    for i := 0 to |tickers|
      invariant Rising(dates)
      invariant forall d :: d in dates <==>
                  exists t, b :: t in tickers[..i] && b in InSpan(BarsOf(bars, t), from, until) && b.date == d
    {
      assert tickers[..i + 1] == tickers[..i] + [tickers[i]];
      dates := AddDates(dates, InSpan(BarsOf(bars, tickers[i]), from, until));
    }
    assert tickers[..|tickers|] == tickers;
  }

  function Fit(bars: map<int, seq<Close>>, tickers: seq<int>, from: int, until: int, maxGap: int): seq<int> {
    Filter(tickers, (t: int) => CoverageOf(BarsOf(bars, t), from, until, maxGap).Covered?)
  }

  /** The tickers that are not fit, each with its problem. */
  function Problems(bars: map<int, seq<Close>>, tickers: seq<int>, from: int, until: int,
                    maxGap: int): seq<(int, Problem)> {
    if tickers == [] then []
    else
      var t := tickers[|tickers| - 1];
      var c := CoverageOf(BarsOf(bars, t), from, until, maxGap);
      Problems(bars, tickers[..|tickers| - 1], from, until, maxGap) + (if c.Unfit? then [(t, c.why)] else [])
  }

  lemma {:induction false} FitOrProblem(bars: map<int, seq<Close>>, tickers: seq<int>, from: int, until: int,
                                        maxGap: int)
    ensures var fit, problems := Fit(bars, tickers, from, until, maxGap), Problems(bars, tickers, from, until, maxGap);
            && (problems == [] <==> fit == tickers)
            && |fit| + |problems| == |tickers|
            && forall t, why :: (t, why) in problems <==>
                 t in tickers && CoverageOf(BarsOf(bars, t), from, until, maxGap) == Unfit(why)
  {
    hide CoverageOf;
    if tickers != [] {
      var n := |tickers| - 1;
      FitOrProblem(bars, tickers[..n], from, until, maxGap);
      assert tickers == tickers[..n] + [tickers[n]];
      FitPushed(bars, tickers[..n], tickers[n], from, until, maxGap);
      if Fit(bars, tickers, from, until, maxGap) == tickers {
        assert |Fit(bars, tickers, from, until, maxGap)| == |tickers|;
      }
    }
  }

  lemma FitPushed(bars: map<int, seq<Close>>, tickers: seq<int>, t: int, from: int, until: int, maxGap: int)
    ensures Fit(bars, tickers + [t], from, until, maxGap)
         == Fit(bars, tickers, from, until, maxGap)
              + (if CoverageOf(BarsOf(bars, t), from, until, maxGap).Covered? then [t] else [])
    ensures |Fit(bars, tickers, from, until, maxGap)| <= |tickers|
  {
    hide CoverageOf;
    var p := (t: int) => CoverageOf(BarsOf(bars, t), from, until, maxGap).Covered?;
    FilterConcat(tickers, [t], p);
    FilterIsShorter(tickers, p);
  }

  lemma {:induction false} FilterIsShorter(tickers: seq<int>, p: int -> bool)
    ensures |Filter(tickers, p)| <= |tickers|
  {
    if tickers != [] {
      FilterIsShorter(tickers[1..], p);
    }
  }

  /** A ticker's entries of the two maps are in place. */
  ghost predicate InPlace(closes: map<int, seq<real>>, basis: map<int, real>, dates: seq<int>, t: int, c: Coverage) {
    t in closes && t in basis && basis[t] > 0.0 && ColumnOk(closes[t], dates, c) && basis[t] == c.basis.price
  }

  /** One ticker's column and basis. */
  method FillTicker(bars: seq<Close>, dates: seq<int>, from: int, until: int, maxGap: int)
    returns (column: seq<real>, basis: real)
    requires ByDay(bars) && (forall b :: b in bars ==> b.price > 0.0) && CoverageOf(bars, from, until, maxGap).Covered?
    requires Rising(dates) && forall b :: b in InSpan(bars, from, until) ==> b.date in dates
    ensures basis > 0.0 && ColumnOk(column, dates, CoverageOf(bars, from, until, maxGap))
    ensures basis == CoverageOf(bars, from, until, maxGap).basis.price
  {
    hide CoverageOf, BarFor, InSpan, ColumnOk;
    var c := CoverageOf(bars, from, until, maxGap);
    CoveredSpan(bars, from, until, maxGap);
    column := ForwardFill(dates, c);
    ColumnIs(column, dates, c);
    basis := c.basis.price;
  }

  method FillColumns(bars: map<int, seq<Close>>, fit: seq<int>, dates: seq<int>, from: int, until: int, maxGap: int)
    returns (closes: map<int, seq<real>>, basis: map<int, real>)
    requires Prices(bars) && Rising(dates)
    requires forall t :: t in fit ==> CoverageOf(BarsOf(bars, t), from, until, maxGap).Covered?
    requires forall t, b :: t in fit && b in InSpan(BarsOf(bars, t), from, until) ==> b.date in dates
    ensures forall t :: t in fit ==> InPlace(closes, basis, dates, t, CoverageOf(BarsOf(bars, t), from, until, maxGap))
  {
    hide CoverageOf, InSpan, ColumnOk;
    closes, basis := map[], map[];
    for i := 0 to |fit|
      invariant forall t :: t in fit[..i] ==>
                  InPlace(closes, basis, dates, t, CoverageOf(BarsOf(bars, t), from, until, maxGap))
    {
      assert fit[..i + 1] == fit[..i] + [fit[i]];
      var t := fit[i];
      assert t in fit;
      var column, paid := FillTicker(BarsOf(bars, t), dates, from, until, maxGap);
      closes, basis := closes[t := column], basis[t := paid];
    }
    assert fit[..|fit|] == fit;
  }

  /** The grid of the fit tickers: their dates in order, and for each a column priced by its nearest bar. */
  method BuildPriceGrid(bars: map<int, seq<Close>>, tickers: seq<int>, from: int, until: int, maxGap: int)
    returns (g: Grid, problems: seq<(int, Problem)>)
    requires Prices(bars)
    ensures problems == Problems(bars, tickers, from, until, maxGap) && (problems == [] <==> g.tickers == tickers)
    ensures ValidGrid(g) && g.tickers == Fit(bars, tickers, from, until, maxGap)
    ensures forall d :: d in g.dates <==>
              exists t, b :: t in g.tickers && b in InSpan(BarsOf(bars, t), from, until) && b.date == d
    ensures forall t :: t in g.tickers ==>
              InPlace(g.closes, g.basis, g.dates, t, CoverageOf(BarsOf(bars, t), from, until, maxGap))
  {
    hide CoverageOf, InSpan;
    FitOrProblem(bars, tickers, from, until, maxGap);
    var fit := Fit(bars, tickers, from, until, maxGap);
    problems := Problems(bars, tickers, from, until, maxGap);
    var dates := UnionDates(bars, fit, from, until);
    var closes, basis := FillColumns(bars, fit, dates, from, until, maxGap);
    g := Grid(fit, dates, closes, basis);
  }

  lemma ColumnIs(column: seq<real>, dates: seq<int>, c: Coverage)
    requires c.Covered? && |column| == |dates| && forall k :: 0 <= k < |dates| ==>
               column[k] == BarFor(c, dates[k]).price
    ensures ColumnOk(column, dates, c)
  {
  }

  lemma CoveredSpan(bars: seq<Close>, from: int, until: int, maxGap: int)
    requires ByDay(bars) && (forall b :: b in bars ==> b.price > 0.0) && CoverageOf(bars, from, until, maxGap).Covered?
    ensures var c := CoverageOf(bars, from, until, maxGap);
            c.span == InSpan(bars, from, until) && ByDay(c.span) && c.basis in bars && c.basis.price > 0.0
  {
    SpanIsOrdered(bars, from, until);
    assert InSpan(bars, from, until) != [] ==> InSpan(bars, from, until)[0] in InSpan(bars, from, until);
  }
}
