/**
 * The order of the walk's units and what survives while news keeps arriving: across any chain of
 * paused parts, each reading a news table at least as large as the one before, no item runs twice,
 * none that was there from the start is skipped, and the step counter is exact.
 */
module WalkOrder {
  import opened Calendar
  import opened Collections
  import opened Pipeline
  import opened SignalWalk

  /** Where the walk stands: before the exit check of day number `i`, or inside that day's news. */
  datatype Place = Place(i: nat, ticker: nat, after: Option<Key>, exits: bool)

  const START := Place(0, 0, None, false)

  function PlaceOf(w: Window, c: Cursor): Place
    requires IsWalkDay(w, c.day)
  {
    Place(DayIndex(w, c.day), c.ticker, c.after, c.exits)
  }

  function UnitsFrom(w: Window, news: News, p: Place): seq<Event> {
    EventsFrom(w, news, p.i, p.ticker, p.after, p.exits)
  }

  /** The order units run in: by day, then the tickers' items each closed by its step, then the exit check. */
  predicate Before(a: Event, b: Event) {
    a.day < b.day
    || (a.day == b.day
        && match (a, b)
           case (ItemDone(_, t, k), ItemDone(_, u, l)) => t < u || (t == u && KeyLess(k, l))
           case (ItemDone(_, t, _), StepDone(_, u)) => t <= u
           case (StepDone(_, t), ItemDone(_, u, _)) => t < u
           case (StepDone(_, t), StepDone(_, u)) => t < u
           case (ExitsDone(_), _) => false
           case (_, ExitsDone(_)) => true)
  }

  ghost predicate Sorted(s: seq<Event>) {
    forall i, j :: 0 <= i < j < |s| ==> Before(s[i], s[j])
  }

  /** The units a walk standing at `p` has left behind. */
  predicate Passed(w: Window, p: Place, e: Event) {
    var day := DayOf(w.testStart) + p.i;
    e.day < day
    || (e.day == day
        && match e
           case ItemDone(_, t, k) => p.exits || t < p.ticker
                || (t == p.ticker && p.after.Some? && !KeyLess(p.after.value, k))
           case StepDone(_, t) => p.exits || t < p.ticker
           case ExitsDone(_) => false)
  }

  /** The units of a window under a news table. */
  ghost predicate IsUnit(w: Window, news: News, e: Event) {
    && IsWalkDay(w, e.day)
    && match e
       case ItemDone(_, t, k) => t < |w.tickers| && exists item :: item in DayItems(news, w, t, e.day)
                                                      && ItemKey(item) == k
       case StepDone(_, t) => t < |w.tickers|
       case ExitsDone(_) => true
  }

  // ---- EventsFrom lists exactly the units not passed, in order ------------------------

  lemma {:induction false} ItemEventsMembers(day: int, t: nat, items: seq<NewsItem>, e: Event)
    ensures e in ItemEvents(day, t, items) <==> exists item :: item in items && e == ItemDone(day, t, ItemKey(item))
  {
    if items != [] {
      ItemEventsMembers(day, t, items[1..], e);
      assert items == [items[0]] + items[1..];
    }
  }

  lemma {:induction false} ItemEventsSorted(day: int, t: nat, items: seq<NewsItem>)
    requires Ordered(items)
    ensures Sorted(ItemEvents(day, t, items))
  {
    if items != [] {
      ItemEventsSorted(day, t, items[1..]);
      forall e | e in ItemEvents(day, t, items[1..]) ensures Before(ItemDone(day, t, ItemKey(items[0])), e) {
        ItemEventsMembers(day, t, items[1..], e);
        var item :| item in items[1..] && e == ItemDone(day, t, ItemKey(item));
        var j :| 0 <= j < |items[1..]| && items[1..][j] == item;
        assert items[j + 1] == item;
      }
    }
  }

  lemma SortedConcat(a: seq<Event>, b: seq<Event>)
    requires Sorted(a) && Sorted(b) && forall x, y :: x in a && y in b ==> Before(x, y)
    ensures Sorted(a + b)
  {
  }

  ghost predicate InDayEvents(w: Window, news: News, day: int, t: nat, after: Option<Key>, e: Event) {
    && e.day == day
    && match e
       case ItemDone(_, u, k) =>
         && t <= u < |w.tickers|
         && (exists item :: item in DayItems(news, w, u, day) && ItemKey(item) == k)
         && !(u == t && after.Some? && !KeyLess(after.value, k))
       case StepDone(_, u) => t <= u < |w.tickers|
       case ExitsDone(_) => false
  }

  lemma {:induction false} DayEventsMembers(w: Window, news: News, day: int, t: nat, after: Option<Key>, e: Event)
    ensures e in DayEvents(w, news, day, t, after) <==> InDayEvents(w, news, day, t, after, e)
    decreases |w.tickers| - t
  {
    if t < |w.tickers| {
      DayEventsMembers(w, news, day, t + 1, None, e);
      ItemEventsMembers(day, t, ItemsAfter(DayItems(news, w, t, day), after), e);
    }
  }

  lemma {:induction false} DayEventsSorted(w: Window, news: News, day: int, t: nat, after: Option<Key>)
    requires ValidNews(news)
    ensures Sorted(DayEvents(w, news, day, t, after))
    decreases |w.tickers| - t
  {
    if t < |w.tickers| {
      var items := ItemsAfter(DayItems(news, w, t, day), after);
      var rest := DayEvents(w, news, day, t + 1, None);
      DayEventsSorted(w, news, day, t + 1, None);
      DayItemsOrdered(news, w, t, day);
      if after.Some? {
        var k := after.value;
        FilterOrdered(DayItems(news, w, t, day), (i: NewsItem) => KeyLess(k, ItemKey(i)));
        assert Ordered(items) by {
          FilterSame(DayItems(news, w, t, day), (i: NewsItem) => KeyLess(k, ItemKey(i)),
                     (i: NewsItem) => KeyLess(k, ItemKey(i)));
        }
      }
      ItemEventsSorted(day, t, items);
      forall e | e in rest ensures Before(StepDone(day, t), e) {
        DayEventsMembers(w, news, day, t + 1, None, e);
      }
      SortedConcat([StepDone(day, t)], rest);
      forall x, y | x in ItemEvents(day, t, items) && y in [StepDone(day, t)] + rest ensures Before(x, y) {
        ItemEventsMembers(day, t, items, x);
        DayEventsMembers(w, news, day, t + 1, None, y);
      }
      SortedConcat(ItemEvents(day, t, items), [StepDone(day, t)] + rest);
    }
  }

  lemma {:induction false} UnitsFromMembers(w: Window, news: News, p: Place, e: Event)
    ensures e in UnitsFrom(w, news, p) <==> IsUnit(w, news, e) && !Passed(w, p, e)
    decreases |Days(w)| - p.i
  {
    if p.i < |Days(w)| {
      var day := Days(w)[p.i];
      UnitsFromMembers(w, news, Place(p.i + 1, 0, None, false), e);
      DayEventsMembers(w, news, day, p.ticker, p.after, e);
      hide DayEvents, DayItems;
    }
  }

  lemma {:induction false} UnitsFromSorted(w: Window, news: News, p: Place)
    requires ValidNews(news)
    ensures Sorted(UnitsFrom(w, news, p))
    decreases |Days(w)| - p.i
  {
    if p.i < |Days(w)| {
      var day := Days(w)[p.i];
      var next := Place(p.i + 1, 0, None, false);
      var rest := UnitsFrom(w, news, next);
      UnitsFromSorted(w, news, next);
      forall y | y in rest ensures y.day > day {
        UnitsFromMembers(w, news, next, y);
      }
      SortedConcat([ExitsDone(day)], rest);
      var news0 := if p.exits then [] else DayEvents(w, news, day, p.ticker, p.after);
      DayEventsSorted(w, news, day, p.ticker, p.after);
      forall x, y | x in news0 && y in [ExitsDone(day)] + rest ensures Before(x, y) {
        DayEventsMembers(w, news, day, p.ticker, p.after, x);
      }
      SortedConcat(news0, [ExitsDone(day)] + rest);
    }
  }

  // ---- The step counter ---------------------------------------------------------------

  lemma {:induction false} DaySteps(w: Window, news: News, day: int, t: nat, after: Option<Key>)
    requires t <= |w.tickers|
    ensures CountSteps(DayEvents(w, news, day, t, after)) == |w.tickers| - t
    decreases |w.tickers| - t
  {
    if t < |w.tickers| {
      var items := ItemEvents(day, t, ItemsAfter(DayItems(news, w, t, day), after));
      var rest := DayEvents(w, news, day, t + 1, None);
      DaySteps(w, news, day, t + 1, None);
      CountStepsConcat(items, [StepDone(day, t)] + rest);
      NoSteps(day, t, ItemsAfter(DayItems(news, w, t, day), after));
      assert ([StepDone(day, t)] + rest)[1..] == rest;
    }
  }

  lemma {:induction false} NoSteps(day: int, t: nat, items: seq<NewsItem>)
    ensures CountSteps(ItemEvents(day, t, items)) == 0
  {
    if items != [] {
      NoSteps(day, t, items[1..]);
    }
  }

  /** The ticker-days still ahead: every later day's, less those of this day already counted. */
  lemma {:induction false} StepsAhead(w: Window, news: News, p: Place)
    requires p.i <= |Days(w)| && p.ticker <= |w.tickers|
    requires p.exits ==> p.ticker == |w.tickers|
    requires p.i == |Days(w)| ==> p.ticker == 0
    ensures CountSteps(UnitsFrom(w, news, p)) == |w.tickers| * (|Days(w)| - p.i) - p.ticker
    decreases |Days(w)| - p.i
  {
    if p.i < |Days(w)| {
      var day := Days(w)[p.i];
      var next := Place(p.i + 1, 0, None, false);
      var news0 := if p.exits then [] else DayEvents(w, news, day, p.ticker, p.after);
      StepsAhead(w, news, next);
      DaySteps(w, news, day, p.ticker, p.after);
      CountStepsConcat(news0, [ExitsDone(day)] + UnitsFrom(w, news, next));
      assert ([ExitsDone(day)] + UnitsFrom(w, news, next))[1..] == UnitsFrom(w, news, next);
      OneMoreDay(|w.tickers|, |Days(w)| - p.i);
    }
  }

  lemma OneMoreDay(tickers: nat, days: int)
    ensures tickers * days == tickers * (days - 1) + tickers
  {
  }

  // ---- Chains of parts over a growing news table --------------------------------------

  /**
   * One part's record of the window: the news it read, where it began and stopped, the hooks fired before and
   * after.
   */
  datatype Leg = Leg(news: News, from: Place, to: Place, trace0: seq<Event>, trace1: seq<Event>)

  /** What WalkOnSignalWindow guarantees of a part, paused or complete. */
  ghost predicate LegOk(w: Window, leg: Leg) {
    && ValidNews(leg.news)
    && leg.trace0 <= leg.trace1
    && leg.trace0 + UnitsFrom(w, leg.news, leg.from) == leg.trace1 + UnitsFrom(w, leg.news, leg.to)
  }

  lemma PausedPartIsLeg<B, D>(e: Engine<B, D>, w: Window, news: News, c0: Cursor, st0: RunState<B, D>,
                              st: RunState<B, D>, c: Cursor)
    requires ValidNews(news) && IsWalkDay(w, c0.day) && Continues(e, w, news, c0, st0, st, c)
    ensures LegOk(w, Leg(news, PlaceOf(w, c0), PlaceOf(w, c), st0.trace, st.trace))
  {
  }

  lemma CompletedPartIsLeg<B, D>(e: Engine<B, D>, w: Window, news: News, c0: Cursor, st0: RunState<B, D>,
                                 st: RunState<B, D>, skippedDays: nat)
    requires ValidNews(news) && IsWalkDay(w, c0.day) && Completes(e, w, news, c0, st0, st, skippedDays)
    ensures LegOk(w, Leg(news, PlaceOf(w, c0), Place(|Days(w)| - skippedDays, 0, None, false), st0.trace, st.trace))
  {
  }

  /** News is only ever added. */
  ghost predicate Grown(a: News, b: News) {
    forall t :: t in a ==> t in b && forall item :: item in a[t] ==> item in b[t]
  }

  /** Parts in a row: each resumes at the previous one's cursor and reads a table at least as large. */
  ghost predicate Chain(w: Window, base: seq<Event>, legs: seq<Leg>) {
    && |legs| > 0
    && (forall k :: 0 <= k < |legs| ==> LegOk(w, legs[k]))
    && legs[0].from == START && legs[0].trace0 == base
    && (forall k :: 0 < k < |legs| ==>
          && legs[k].from == legs[k - 1].to && legs[k].trace0 == legs[k - 1].trace1
          && Grown(legs[k - 1].news, legs[k].news))
  }

  /**
   * What every part keeps: the units done since the window began run in order without a repeat, all lie
   * behind the cursor, and every unit the first table held behind the cursor is among them.
   */
  ghost predicate Kept(w: Window, first: News, news: News, at: Place, done: seq<Event>) {
    && Sorted(done)
    && (forall e :: e in done ==> Passed(w, at, e) && IsUnit(w, news, e))
    && (forall e :: IsUnit(w, first, e) && Passed(w, at, e) ==> e in done)
  }

  lemma UnitsGrow(w: Window, a: News, b: News, e: Event)
    requires Grown(a, b) && IsUnit(w, a, e)
    ensures IsUnit(w, b, e)
  {
    if e.ItemDone? {
      var item :| item in DayItems(a, w, e.ticker, e.day) && ItemKey(item) == e.key;
      assert item in DayItems(b, w, e.ticker, e.day);
    }
  }

  lemma GrownTrans(a: News, b: News, c: News)
    requires Grown(a, b) && Grown(b, c)
    ensures Grown(a, c)
  {
  }

  lemma SortedAt(s: seq<Event>, i: nat, j: nat)
    requires Sorted(s) && i < j < |s|
    ensures s[i] != s[j]
  {
    assert Before(s[i], s[j]);
  }

  lemma SortedOnce(a: seq<Event>, b: seq<Event>, e: Event)
    requires Sorted(a + b) && e in a
    ensures e !in b
  {
    if e in b {
      var i :| 0 <= i < |a| && a[i] == e;
      var j :| 0 <= j < |b| && b[j] == e;
      SortedAt(a + b, i, |a| + j);
      assert false;
    }
  }

  lemma PassedBefore(w: Window, p: Place, x: Event, y: Event)
    requires Passed(w, p, x) && !Passed(w, p, y)
    ensures Before(x, y) || (x.ItemDone? && y.ItemDone? && x.day == y.day && x.ticker == y.ticker)
    ensures x.ItemDone? && y.ItemDone? && x.day == y.day && x.ticker == y.ticker ==> Before(x, y)
  {
  }

  /** One part keeps it. */
  lemma LegKeeps(w: Window, first: News, leg: Leg, before: News, done: seq<Event>, more: seq<Event>)
    requires ValidNews(leg.news) && Grown(first, leg.news) && Grown(before, leg.news)
    requires Kept(w, first, before, leg.from, done)
    requires done + UnitsFrom(w, leg.news, leg.from) == done + more + UnitsFrom(w, leg.news, leg.to)
    ensures Kept(w, first, leg.news, leg.to, done + more)
  {
    var ahead, later := UnitsFrom(w, leg.news, leg.from), UnitsFrom(w, leg.news, leg.to);
    Assoc(done, more, later);
    assert ahead == more + later by {
      assert (done + ahead)[|done|..] == ahead;
      assert (done + (more + later))[|done|..] == more + later;
    }
    UnitsFromSorted(w, leg.news, leg.from);
    forall x, y | x in done && y in ahead ensures Before(x, y) {
      UnitsFromMembers(w, leg.news, leg.from, y);
      PassedBefore(w, leg.from, x, y);
    }
    SortedConcat(done, ahead);
    assert Sorted((done + more) + later);
    assert Sorted(done + more) by {
      assert forall i :: 0 <= i < |done + more| ==> (done + more)[i] == ((done + more) + later)[i];
    }
    forall e | e in done + more ensures Passed(w, leg.to, e) && IsUnit(w, leg.news, e) {
      if e in done {
        UnitsGrow(w, before, leg.news, e);
      } else {
        assert e in ahead;
        UnitsFromMembers(w, leg.news, leg.from, e);
      }
      SortedOnce(done + more, later, e);
      UnitsFromMembers(w, leg.news, leg.to, e);
    }
    forall e | IsUnit(w, first, e) && Passed(w, leg.to, e) ensures e in done + more {
      if !Passed(w, leg.from, e) {
        UnitsGrow(w, first, leg.news, e);
        UnitsFromMembers(w, leg.news, leg.from, e);
        UnitsFromMembers(w, leg.news, leg.to, e);
      }
    }
  }

  lemma {:induction false} FirstLegKeeps(w: Window, base: seq<Event>, leg: Leg)
    requires LegOk(w, leg) && leg.from == START && leg.trace0 == base
    ensures Kept(w, leg.news, leg.news, leg.to, leg.trace1[|base|..])
  {
    var more := leg.trace1[|base|..];
    var a, b := UnitsFrom(w, leg.news, START), UnitsFrom(w, leg.news, leg.to);
    assert leg.trace1 == base + more;
    Assoc(base, more, b);
    StripBase(base, a, more + b);
    assert [] + a == a && [] + more == more;
    assert Kept(w, leg.news, leg.news, START, []);
    LegKeeps(w, leg.news, leg, leg.news, [], more);
  }

  lemma NextLegKeeps(w: Window, base: seq<Event>, first: News, before: News, leg: Leg)
    requires LegOk(w, leg) && base <= leg.trace0
    requires Grown(first, leg.news) && Grown(before, leg.news)
    requires Kept(w, first, before, leg.from, leg.trace0[|base|..])
    ensures Kept(w, first, leg.news, leg.to, leg.trace1[|base|..])
  {
    var done, more := leg.trace0[|base|..], leg.trace1[|leg.trace0|..];
    var a, b := UnitsFrom(w, leg.news, leg.from), UnitsFrom(w, leg.news, leg.to);
    assert leg.trace0 == base + done && leg.trace1 == base + (done + more);
    Assoc(base, done, a);
    Assoc(base, done + more, b);
    StripBase(base, done + a, done + more + b);
    LegKeeps(w, first, leg, before, done, more);
    assert leg.trace1[|base|..] == done + more;
  }

  /** A chain is a shorter chain and one more part that takes up where it ended. */
  lemma ChainSplits(w: Window, base: seq<Event>, legs: seq<Leg>)
    requires |legs| > 1 && Chain(w, base, legs)
    ensures Chain(w, base, legs[..|legs| - 1])
    ensures Follows(w, legs[|legs| - 2], legs[|legs| - 1])
  {
    hide LegOk, Grown;
  }

  ghost predicate Follows(w: Window, before: Leg, leg: Leg) {
    && LegOk(w, leg)
    && leg.from == before.to && leg.trace0 == before.trace1
    && Grown(before.news, leg.news)
  }

  /** What has been kept once `leg` is over, the first part having read `first`. */
  ghost predicate KeptAfter(w: Window, base: seq<Event>, first: News, leg: Leg) {
    && base <= leg.trace1
    && Grown(first, leg.news)
    && Kept(w, first, leg.news, leg.to, leg.trace1[|base|..])
  }

  lemma {:induction false} FollowerKeeps(w: Window, base: seq<Event>, first: News, before: Leg, leg: Leg)
    requires KeptAfter(w, base, first, before) && Follows(w, before, leg)
    ensures KeptAfter(w, base, first, leg)
  {
    assert base <= leg.trace1 by { hide Kept, Grown; }
    GrownTrans(first, before.news, leg.news);
    hide Kept, Grown, LegOk;
    NextLegKeeps(w, base, first, before.news, leg);
  }

  /** Any chain of parts over a growing table keeps it: nothing runs twice, nothing original is skipped. */
  lemma {:induction false} ChainKeeps(w: Window, base: seq<Event>, legs: seq<Leg>)
    requires Chain(w, base, legs)
    ensures KeptAfter(w, base, legs[0].news, legs[|legs| - 1])
  {
    var n := |legs| - 1;
    if n == 0 {
      hide Kept;
      FirstLegKeeps(w, base, legs[0]);
    } else {
      hide Kept, Grown, LegOk, Chain, KeptAfter, Follows;
      ChainSplits(w, base, legs);
      ChainKeeps(w, base, legs[..n]);
      FollowerKeeps(w, base, legs[0].news, legs[n - 1], legs[n]);
    }
  }

  lemma StripBase(base: seq<Event>, a: seq<Event>, b: seq<Event>)
    requires base + a == base + b
    ensures a == b
  {
    assert (base + a)[|base|..] == a;
    assert (base + b)[|base|..] == b;
  }

  /** Grace days have no news: their range is empty. */
  lemma GraceDaysHaveNoNews(news: News, w: Window, t: nat, day: int)
    requires t < |w.tickers| && day * DAY_MS >= w.testEnd
    ensures DayItems(news, w, t, day) == []
  {
  }

  /**
   * A window walked to its end by any chain of parts, news arriving meanwhile: every item its first part
   * could have read ran, and within a ticker-day items ran strictly in (publishedAt, id) order.
   */
  lemma EveryItemRunsOnce(w: Window, base: seq<Event>, legs: seq<Leg>, skippedDays: nat)
    requires Chain(w, base, legs)
    requires skippedDays < |Days(w)|
    requires legs[|legs| - 1].to == Place(|Days(w)| - skippedDays, 0, None, false)
    requires skippedDays > 0 ==> Days(w)[|Days(w)| - skippedDays - 1] * DAY_MS >= w.testEnd
    ensures base <= legs[|legs| - 1].trace1
    ensures var done := legs[|legs| - 1].trace1[|base|..];
            && Sorted(done)
            && forall t, day, item ::
                 IsWalkDay(w, day) && 0 <= t < |w.tickers| && item in DayItems(legs[0].news, w, t, day) ==>
                   ItemDone(day, t, ItemKey(item)) in done
  {
    ChainKeeps(w, base, legs);
    var last := legs[|legs| - 1];
    var done := last.trace1[|base|..];
    forall t, day, item | IsWalkDay(w, day) && 0 <= t < |w.tickers| && item in DayItems(legs[0].news, w, t, day)
      ensures ItemDone(day, t, ItemKey(item)) in done
    {
      var e := ItemDone(day, t, ItemKey(item));
      if !Passed(w, last.to, e) {
        assert Days(w)[|Days(w)| - skippedDays - 1] < day;
        GraceDaysHaveNoNews(legs[0].news, w, t, day);
        assert false;
      }
      assert IsUnit(w, legs[0].news, e);
    }
  }
}
