/**
 * The day-major "signal on" walk over one test window (src/backtest/onSignalRunner.js), which a
 * subrequest budget may pause at any news item or before a day's exit check, and its cursor.
 */
module SignalWalk {
  import opened Calendar
  import opened Collections
  import opened Budget
  import opened Pipeline

  // ---- News ---------------------------------------------------------------------------

  datatype Key = Key(publishedAt: int, id: int)

  function ItemKey(item: NewsItem): Key {
    Key(item.publishedAt, item.id)
  }

  predicate KeyLess(a: Key, b: Key) {
    a.publishedAt < b.publishedAt || (a.publishedAt == b.publishedAt && a.id < b.id)
  }

  /** Strictly increasing in (publishedAt, id), the order every news read returns. */
  ghost predicate Ordered(items: seq<NewsItem>) {
    forall i, j :: 0 <= i < j < |items| ==> KeyLess(ItemKey(items[i]), ItemKey(items[j]))
  }

  /** The stored news by ticker. */
  type News = map<string, seq<NewsItem>>

  ghost predicate ValidNews(news: News) {
    forall t :: t in news ==> Ordered(news[t])
  }

  /** The key an item of the news has, or no key at all: what a resume key can be. */
  ghost predicate KnownKey(news: News, after: Option<Key>) {
    after.Some? ==> exists t, i :: t in news && i in news[t] && ItemKey(i) == after.value
  }

  /** An item's id is its row's primary key: it stands for one item, whichever tickers name it. */
  ghost predicate UniqueIds(news: News) {
    forall t, u, i, j :: t in news && u in news && i in news[t] && j in news[u] && i.id == j.id ==>
             ItemKey(i) == ItemKey(j)
  }

  function InRange(items: seq<NewsItem>, from: int, to: int): seq<NewsItem> {
    Filter(items, (i: NewsItem) => from <= i.publishedAt < to)
  }

  /** The items sorting strictly after a resume key; all of them when there is none. */
  function ItemsAfter(items: seq<NewsItem>, after: Option<Key>): seq<NewsItem> {
    match after
    case None => items
    case Some(k) => Filter(items, (i: NewsItem) => KeyLess(k, ItemKey(i)))
  }

  lemma {:induction false} FilterOrdered(items: seq<NewsItem>, p: NewsItem -> bool)
    requires Ordered(items)
    ensures Ordered(Filter(items, p))
  {
    if items != [] {
      FilterOrdered(items[1..], p);
      forall x | x in Filter(items[1..], p)
        ensures KeyLess(ItemKey(items[0]), ItemKey(x))
      {
        var j :| 0 <= j < |items[1..]| && items[1..][j] == x;
        assert items[j + 1] == x;
      }
    }
  }

  /** After item `j` of an ordered list exactly the later items remain, whatever key ran before it. */
  lemma AfterItem(items: seq<NewsItem>, j: nat)
    requires Ordered(items) && j < |items|
    ensures ItemsAfter(items, Some(ItemKey(items[j]))) == items[j + 1..]
  {
    hide Filter;
    var k, a, b := ItemKey(items[j]), items[..j + 1], items[j + 1..];
    var p := (i: NewsItem) => KeyLess(k, ItemKey(i));
    forall x | x in a ensures !p(x) {
      var m :| 0 <= m < j + 1 && items[m] == x;
      assert m == j || KeyLess(ItemKey(items[m]), k);
    }
    forall x | x in b ensures p(x) {
      var m :| 0 <= m < |b| && b[m] == x;
      assert KeyLess(k, ItemKey(items[j + 1 + m]));
    }
    FilterSuffix(a, b, p);
    assert items == a + b;
    FilterSame(items, (i: NewsItem) => KeyLess(k, ItemKey(i)), p);
  }

  /** A list whose first element is not past the key loses it; one whose elements all are keeps them. */
  lemma AfterHead(items: seq<NewsItem>, k: Key)
    requires Ordered(items) && items != []
    ensures !KeyLess(k, ItemKey(items[0])) ==> ItemsAfter(items, Some(k)) == ItemsAfter(items[1..], Some(k))
    ensures KeyLess(k, ItemKey(items[0])) ==> ItemsAfter(items, Some(k)) == items
  {
    if KeyLess(k, ItemKey(items[0])) {
      forall x | x in items ensures KeyLess(k, ItemKey(x)) {
        var m :| 0 <= m < |items| && items[m] == x;
      }
      FilterAll(items, (i: NewsItem) => KeyLess(k, ItemKey(i)));
      FilterSame(items, (i: NewsItem) => KeyLess(k, ItemKey(i)), (i: NewsItem) => KeyLess(k, ItemKey(i)));
    }
  }

  /** The items published in [from, to), oldest first, those of one instant by id. */
  ghost predicate SortedRange(rows: seq<NewsItem>, from: int, to: int, items: seq<NewsItem>) {
    && (forall i :: i in items <==> i in rows && from <= i.publishedAt < to)
    && forall i, j :: 0 <= i < j < |items| ==>
         items[i].publishedAt < items[j].publishedAt
         || (items[i].publishedAt == items[j].publishedAt && items[i].id < items[j].id)
  }

  lemma RangeMeans(rows: seq<NewsItem>, from: int, to: int)
    requires Ordered(rows)
    ensures SortedRange(rows, from, to, InRange(rows, from, to))
  {
    FilterOrdered(rows, (i: NewsItem) => from <= i.publishedAt < to);
    hide Filter;
  }

  /**
   * The keyset-paged range read: pages of at most `pageSize` rows after the previous page's last key,
   * until a short page. It returns the whole range whatever the page size.
   */
  method GetNewsItemsInRange(rows: seq<NewsItem>, from: int, to: int, pageSize: nat) returns (items: seq<NewsItem>)
    requires Ordered(rows) && pageSize >= 1
    ensures items == InRange(rows, from, to) && SortedRange(rows, from, to, items)
  {
    hide Filter, GetNewsItemsPage, SortedRange;
    RangeMeans(rows, from, to);
    var all := InRange(rows, from, to);
    FilterOrdered(rows, (i: NewsItem) => from <= i.publishedAt < to);
    items := [];
    var cursor: Option<Key> := None;
    while true
      invariant |items| <= |all| && items == all[..|items|]
      invariant ItemsAfter(all, cursor) == all[|items|..]
      decreases |all| - |items|
    {
      var page := GetNewsItemsPage(all, cursor, pageSize);
      PageExtends(all, |items|, cursor, pageSize);
      items := items + page;
      if |page| < pageSize {
        return;
      }
      cursor := Some(ItemKey(page[|page| - 1]));
    }
  }

  /** One page: the first `pageSize` rows of the range strictly after `cursor`. */
  function GetNewsItemsPage(range: seq<NewsItem>, cursor: Option<Key>, pageSize: nat): seq<NewsItem> {
    var rest := ItemsAfter(range, cursor);
    rest[..Min(pageSize, |rest|)]
  }

  lemma PageExtends(all: seq<NewsItem>, n: nat, cursor: Option<Key>, pageSize: nat)
    requires Ordered(all) && n <= |all| && pageSize >= 1 && ItemsAfter(all, cursor) == all[n..]
    ensures var page := GetNewsItemsPage(all, cursor, pageSize);
            && n + |page| <= |all|
            && all[..n] + page == all[..n + |page|]
            && (|page| < pageSize ==> n + |page| == |all|)
            && (|page| == pageSize ==> ItemsAfter(all, Some(ItemKey(page[|page| - 1]))) == all[n + |page|..])
            && |page| <= pageSize
  {
    var k := Min(pageSize, |all| - n);
    var page := GetNewsItemsPage(all, cursor, pageSize);
    assert page == all[n..n + k];
    assert all[..n] + all[n..n + k] == all[..n + k];
    if k == pageSize {
      AfterItem(all, n + k - 1);
    }
    hide ItemsAfter, Ordered, GetNewsItemsPage;
  }

  // ---- The window's days --------------------------------------------------------------

  datatype Window = Window(tickers: seq<string>, testStart: int, testEnd: int, walkEnd: int, isLast: bool)

  /** Calendar days that always cover `tradingDays` trading days: whole weeks. */
  function CalendarDaysCovering(tradingDays: int): int {
    if tradingDays <= 0 then 0 else (tradingDays + 4) / 5 * 7
  }

  /** Where the walk stops; `now` is the pinned clock that a grace period may not outrun. */
  function ComputeWalkEnd(testEnd: int, graceDays: Option<int>, maxHoldDays: int, now: Option<int>, isLast: bool): int {
    if !isLast then testEnd - DAY_MS
    else
      var grace := if graceDays.Some? then graceDays.value else CalendarDaysCovering(maxHoldDays);
      var end := testEnd + grace * DAY_MS;
      if now.Some? && end > now.value then now.value else end
  }

  /** A grace of whole weeks, the fewest whose weekdays cover the trading days asked for. */
  lemma GraceMeans(tradingDays: int)
    ensures var days := CalendarDaysCovering(tradingDays);
            && days % 7 == 0 && days >= 0 && days / 7 * 5 >= tradingDays
            && (days > 0 ==> (days / 7 - 1) * 5 < tradingDays)
  {
  }

  /**
   * The last window's walk goes on for its grace days after the test, but not past now; any other one ends a day before
   * its test ends, where the next one starts.
   */
  lemma WalkEndMeans(testEnd: int, graceDays: Option<int>, maxHoldDays: int, now: int, isLast: bool)
    ensures var end := ComputeWalkEnd(testEnd, graceDays, maxHoldDays, Some(now), isLast);
            if isLast then
              var days := if graceDays.Some? then graceDays.value else CalendarDaysCovering(maxHoldDays);
              end <= now && end <= testEnd + days * 86_400_000 && (end == now || end == testEnd + days * 86_400_000)
            else end == testEnd - 86_400_000
  {
  }

  /** Every day from the one holding `start` to the one holding `end`. */
  function DayRange(start: int, end: int): (r: seq<int>)
    ensures |r| == Max(0, DayOf(end) - DayOf(start) + 1)
    ensures forall i :: 0 <= i < |r| ==> r[i] == DayOf(start) + i
  {
    seq(Max(0, DayOf(end) - DayOf(start) + 1), i => DayOf(start) + i)
  }

  method EachDay(start: int, end: int) returns (days: seq<int>)
    ensures days == DayRange(start, end)
  {
    days := [];
    var cursor := DayOf(start);
    while cursor * DAY_MS <= end
      invariant cursor == DayOf(start) + |days|
      invariant |days| <= |DayRange(start, end)| && days == DayRange(start, end)[..|days|]
      decreases DayOf(end) - cursor + 1
    {
      days := days + [cursor];
      cursor := cursor + 1;
    }
  }

  function Days(w: Window): seq<int> {
    DayRange(w.testStart, w.walkEnd)
  }

  /** One ticker-day's items: the day's own range clipped to [testStart, testEnd). */
  function DayItems(news: News, w: Window, t: nat, day: int): seq<NewsItem>
    requires t < |w.tickers|
  {
    var from := if w.testStart >= day * DAY_MS then w.testStart else day * DAY_MS;
    var to := if w.testEnd <= (day + 1) * DAY_MS then w.testEnd else (day + 1) * DAY_MS;
    if w.tickers[t] in news && from < to then InRange(news[w.tickers[t]], from, to) else []
  }

  lemma NoKeyIsKnown(news: News)
    ensures KnownKey(news, None)
  {
  }

  lemma DayItemsAreNews(news: News, w: Window, t: nat, day: int, i: NewsItem)
    requires t < |w.tickers| && i in DayItems(news, w, t, day)
    ensures KnownKey(news, Some(ItemKey(i)))
  {
    assert i in news[w.tickers[t]];
  }

  lemma DayItemsOrdered(news: News, w: Window, t: nat, day: int)
    requires ValidNews(news) && t < |w.tickers|
    ensures Ordered(DayItems(news, w, t, day))
  {
    if w.tickers[t] in news {
      var from := if w.testStart >= day * DAY_MS then w.testStart else day * DAY_MS;
      var to := if w.testEnd <= (day + 1) * DAY_MS then w.testEnd else (day + 1) * DAY_MS;
      FilterOrdered(news[w.tickers[t]], (i: NewsItem) => from <= i.publishedAt < to);
    }
  }

  // ---- What one uninterrupted walk does -----------------------------------------------

  /** The walk's observable progress: the hooks it calls when a unit finishes. */
  datatype Event = ItemDone(day: int, ticker: nat, key: Key) | StepDone(day: int, ticker: nat) | ExitsDone(day: int)

  /** The run's store plus what its cursor carries; `trace` is every hook call so far. */
  datatype RunState<B, D> = RunState(store: Store<B, D>, skipped: nat, steps: nat, trace: seq<Event>)

  /**
   * The parts the walk calls: the item pipeline; one day's fills and exit check, which returns the new
   * book and how many pending entries still wait (None when it throws); and the read telling that nothing
   * is open or pending. `maxSkipped` caps the items skipped for unusable model output.
   */
  datatype Engine<!B, !D> = Engine(
    desk: Desk<B, D>,
    exits: (int, B) -> Option<(B, nat)>,
    nothingLeft: (int, B) -> bool,
    maxSkipped: nat)

  function RunItem<B, D>(e: Engine<B, D>, w: Window, day: int, t: nat, item: NewsItem,
                         st: RunState<B, D>): Option<RunState<B, D>>
    requires t < |w.tickers|
  {
    var trace := st.trace + [ItemDone(day, t, ItemKey(item))];
    match RunPipeline(e.desk, Job(w.testStart, w.tickers[t], item), st.store)
    case Completed(s) => Some(st.(store := s, trace := trace))
    case Unusable(s) =>
      if e.maxSkipped == 0 || st.skipped + 1 > e.maxSkipped then None
      else Some(st.(store := s, skipped := st.skipped + 1, trace := trace))
    case Crashed => None
  }

  function RunItems<B, D>(e: Engine<B, D>, w: Window, day: int, t: nat, items: seq<NewsItem>,
                          st: RunState<B, D>): Option<RunState<B, D>>
    requires t < |w.tickers|
  {
    if items == [] then Some(st)
    else
      match RunItem(e, w, day, t, items[0], st)
      case None => None
      case Some(st1) => RunItems(e, w, day, t, items[1..], st1)
  }

  function StepTaken<B, D>(st: RunState<B, D>, day: int, t: nat): RunState<B, D> {
    st.(steps := st.steps + 1, trace := st.trace + [StepDone(day, t)])
  }

  function RunDayNews<B, D>(e: Engine<B, D>, w: Window, news: News, day: int, t: nat, after: Option<Key>,
                            st: RunState<B, D>): Option<RunState<B, D>>
    decreases |w.tickers| - t
  {
    if t >= |w.tickers| then Some(st)
    else
      match RunItems(e, w, day, t, ItemsAfter(DayItems(news, w, t, day), after), st)
      case None => None
      case Some(st1) => RunDayNews(e, w, news, day, t + 1, None, StepTaken(st1, day, t))
  }

  /** One day's exit unit: the state after it and whether the grace tail may stop there. */
  function RunExits<B, D>(e: Engine<B, D>, w: Window, i: nat, st: RunState<B, D>): Option<(RunState<B, D>, bool)>
    requires i < |Days(w)|
  {
    var day := Days(w)[i];
    match e.exits(day, st.store.book)
    case None => None
    case Some(r) =>
      var st1 := st.(store := st.store.(book := r.0), trace := st.trace + [ExitsDone(day)]);
      Some((st1, w.isLast && r.1 == 0 && day * DAY_MS >= w.testEnd && i < |Days(w)| - 1 && e.nothingLeft(day, r.0)))
  }

  datatype WalkEnd<B, D> = Done(st: RunState<B, D>, skippedDays: nat) | Broken

  /** The uninterrupted walk from day index `i`, ticker `t`, after key `after` (`exits`: that day's news is done). */
  function RunDays<B, D>(e: Engine<B, D>, w: Window, news: News, i: nat, t: nat, after: Option<Key>, exits: bool,
                         st: RunState<B, D>): WalkEnd<B, D>
    decreases |Days(w)| - i
  {
    if i >= |Days(w)| then Done(st, 0)
    else
      match (if exits then Some(st) else RunDayNews(e, w, news, Days(w)[i], t, after, st))
      case None => Broken
      case Some(st1) => RunFromExits(e, w, news, i, st1)
  }

  function RunFromExits<B, D>(e: Engine<B, D>, w: Window, news: News, i: nat, st: RunState<B, D>): WalkEnd<B, D>
    requires i < |Days(w)|
    decreases |Days(w)| - i, 0
  {
    match RunExits(e, w, i, st)
    case None => Broken
    case Some(r) =>
      if r.1 then Done(r.0, |Days(w)| - 1 - i)
      else RunDays(e, w, news, i + 1, 0, None, false, r.0)
  }

  // ---- What the trace says of the store ------------------------------------------------

  /** The item a ticker's news has under a key. */
  function ItemAt(items: seq<NewsItem>, key: Key): Option<NewsItem> {
    if items == [] then None
    else if ItemKey(items[0]) == key then Some(items[0])
    else ItemAt(items[1..], key)
  }

  lemma {:induction false} ItemIsAt(items: seq<NewsItem>, item: NewsItem)
    requires Ordered(items) && item in items
    ensures ItemAt(items, ItemKey(item)) == Some(item)
  {
    var j :| 0 <= j < |items| && items[j] == item;
    if j > 0 {
      assert KeyLess(ItemKey(items[0]), ItemKey(items[j]));
      assert items[1..][j - 1] == item;
      ItemIsAt(items[1..], item);
    }
  }

  /** One reported unit, done again on a store: the event, the window and the news name the whole of its work. */
  function Redo<B, D>(e: Engine<B, D>, w: Window, news: News, event: Event, s: Store<B, D>, skipped: nat)
    : Option<(Store<B, D>, nat)>
  {
    match event
    case ItemDone(_, t, key) => (
      if t >= |w.tickers| || w.tickers[t] !in news || ItemAt(news[w.tickers[t]], key).None? then None
      else
        match RunPipeline(e.desk, Job(w.testStart, w.tickers[t], ItemAt(news[w.tickers[t]], key).value), s)
        case Completed(s1) => Some((s1, skipped))
        case Unusable(s1) => if skipped < e.maxSkipped then Some((s1, skipped + 1)) else None
        case Crashed => None)
    case StepDone(_, _) => Some((s, skipped))
    case ExitsDone(day) => (
      match e.exits(day, s.book)
      case Some(r) => Some((s.(book := r.0), skipped))
      case None => None)
  }

  /** The reported units, done again one after the other. */
  function Replay<B, D>(e: Engine<B, D>, w: Window, news: News, events: seq<Event>, s: Store<B, D>, skipped: nat)
    : Option<(Store<B, D>, nat)>
    decreases |events|
  {
    if events == [] then Some((s, skipped))
    else
      match Replay(e, w, news, events[..|events| - 1], s, skipped)
      case None => None
      case Some(r) => Redo(e, w, news, events[|events| - 1], r.0, r.1)
  }

  /** The store is what the units reported since `st0` make of the store of `st0`. */
  ghost predicate Wrought<B, D>(e: Engine<B, D>, w: Window, news: News, st0: RunState<B, D>, st: RunState<B, D>) {
    && st0.trace <= st.trace
    && Replay(e, w, news, st.trace[|st0.trace|..], st0.store, st0.skipped) == Some((st.store, st.skipped))
  }

  /** The same but for one item, whose checkpoint may be further on; not even the book has changed otherwise. */
  ghost predicate WroughtBut<B, D>(e: Engine<B, D>, w: Window, news: News, st0: RunState<B, D>, st: RunState<B, D>,
                                   key: RunKey)
  {
    && st0.trace <= st.trace
    && var r := Replay(e, w, news, st.trace[|st0.trace|..], st0.store, st0.skipped);
       r.Some? && r.value.0.book == st.store.book && OthersSame(r.value.0, st.store, key) && r.value.1 == st.skipped
  }

  lemma {:induction false} ReplayConcat<B, D>(e: Engine<B, D>, w: Window, news: News, a: seq<Event>, b: seq<Event>,
                                              s: Store<B, D>, skipped: nat)
    requires Replay(e, w, news, a, s, skipped).Some?
    ensures var r := Replay(e, w, news, a, s, skipped).value;
            Replay(e, w, news, a + b, s, skipped) == Replay(e, w, news, b, r.0, r.1)
    decreases |b|
  {
    hide Redo;
    if b == [] {
      assert a + b == a;
    } else {
      assert (a + b)[..|a + b| - 1] == a + b[..|b| - 1];
      ReplayConcat(e, w, news, a, b[..|b| - 1], s, skipped);
    }
  }

  lemma WroughtHere<B, D>(e: Engine<B, D>, w: Window, news: News, st: RunState<B, D>)
    ensures Wrought(e, w, news, st, st)
  {
    assert st.trace[|st.trace|..] == [];
  }

  lemma WroughtTrans<B, D>(e: Engine<B, D>, w: Window, news: News, st0: RunState<B, D>, st: RunState<B, D>,
                           su: RunState<B, D>)
    requires Wrought(e, w, news, st0, st)
    ensures Wrought(e, w, news, st, su) ==> Wrought(e, w, news, st0, su)
    ensures forall key :: WroughtBut(e, w, news, st, su, key) ==> WroughtBut(e, w, news, st0, su, key)
  {
    hide Replay;
    if st.trace <= su.trace {
      var a, b := st.trace[|st0.trace|..], su.trace[|st.trace|..];
      assert su.trace[|st0.trace|..] == a + b;
      ReplayConcat(e, w, news, a, b, st0.store, st0.skipped);
    }
  }

  /** A unit whose redoing gives the new store. */
  lemma WroughtUnit<B, D>(e: Engine<B, D>, w: Window, news: News, st: RunState<B, D>, event: Event, su: RunState<B, D>)
    requires su.trace == st.trace + [event]
    requires Redo(e, w, news, event, st.store, st.skipped) == Some((su.store, su.skipped))
    ensures Wrought(e, w, news, st, su)
  {
    hide Redo;
    assert su.trace[|st.trace|..] == [event];
    assert [event][..0] == [];
    assert Replay(e, w, news, [event][..0], st.store, st.skipped) == Some((st.store, st.skipped));
  }

  /** A unit of which nothing was reported. */
  lemma WroughtHeld<B, D>(e: Engine<B, D>, w: Window, news: News, st: RunState<B, D>, su: RunState<B, D>, key: RunKey)
    requires su.trace == st.trace && su.skipped == st.skipped && su.store.book == st.store.book
    requires OthersSame(st.store, su.store, key)
    ensures WroughtBut(e, w, news, st, su, key)
  {
    assert su.trace[|st.trace|..] == [];
  }

  // ---- The units still ahead of a position --------------------------------------------

  function ItemEvents(day: int, t: nat, items: seq<NewsItem>): seq<Event> {
    if items == [] then [] else [ItemDone(day, t, ItemKey(items[0]))] + ItemEvents(day, t, items[1..])
  }

  function DayEvents(w: Window, news: News, day: int, t: nat, after: Option<Key>): seq<Event>
    decreases |w.tickers| - t
  {
    if t >= |w.tickers| then []
    else
      ItemEvents(day, t, ItemsAfter(DayItems(news, w, t, day), after))
      + ([StepDone(day, t)] + DayEvents(w, news, day, t + 1, None))
  }

  /** Every unit from a position to the end of the window's day list, in order. */
  function EventsFrom(w: Window, news: News, i: nat, t: nat, after: Option<Key>, exits: bool): seq<Event>
    decreases |Days(w)| - i
  {
    if i >= |Days(w)| then []
    else
      (if exits then [] else DayEvents(w, news, Days(w)[i], t, after))
      + ([ExitsDone(Days(w)[i])] + EventsFrom(w, news, i + 1, 0, None, false))
  }

  function CountSteps(events: seq<Event>): nat {
    if events == [] then 0 else (if events[0].StepDone? then 1 else 0) + CountSteps(events[1..])
  }

  lemma {:induction false} CountStepsConcat(a: seq<Event>, b: seq<Event>)
    ensures CountSteps(a + b) == CountSteps(a) + CountSteps(b)
  {
    if a == [] {
      assert a + b == b;
    } else {
      assert (a + b)[1..] == a[1..] + b;
      CountStepsConcat(a[1..], b);
    }
  }

  // ---- The pausable walk --------------------------------------------------------------

  datatype Cursor = Cursor(day: int, ticker: nat, after: Option<Key>, exits: bool)

  datatype Reason = BudgetSpent | Exhausted | Transient

  datatype Fault = BadCursor | ItemFailed | ExitsFailed | VendorUnpaused

  datatype WalkResult = Complete(skippedDays: nat) | Paused(reason: Reason, cursor: Cursor) | Threw(fault: Fault)

  /** `b` is `a` or a later resume key. */
  predicate KeyAdvances(a: Option<Key>, b: Option<Key>) {
    a.None? || (b.Some? && (b == a || KeyLess(a.value, b.value)))
  }

  /** `b` is a cursor the walk reaches from `a`, or `a` itself: a walk never returns to a spot it left. */
  predicate Advances(a: Cursor, b: Cursor) {
    || a.day < b.day
    || (a.day == b.day && !a.exits && b.exits)
    || (a.day == b.day && a.exits == b.exits
        && (a.ticker < b.ticker || (a.ticker == b.ticker && KeyAdvances(a.after, b.after))))
  }

  datatype Segment = Ended | Held(reason: Reason) | Faulted(fault: Fault)

  /** What one invocation meets on the walk: item costs and outages, and the cost of reads and exit checks. */
  datatype Weather = Weather(items: Conditions, newsPages: (int, string) -> nat, exitCost: int -> seq<Channel>)

  /** A cursor the walk can resume from: its day is one of the window's walk days. */
  ghost predicate CursorOk(w: Window, c: Cursor) {
    && IsWalkDay(w, c.day)
    && c.ticker <= |w.tickers|
    && (c.exits ==> c.ticker == |w.tickers| && c.after.None?)
  }

  /** The position of `day` in the window's day list, when it is one of its walk days. */
  function DayIndex(w: Window, day: int): int {
    day - DayOf(w.testStart)
  }

  predicate IsWalkDay(w: Window, day: int) {
    0 <= DayIndex(w, day) < |Days(w)|
  }

  lemma WalkDaysAreListed(w: Window, day: int)
    ensures IsWalkDay(w, day) <==> day in Days(w)
    ensures IsWalkDay(w, day) ==> Days(w)[DayIndex(w, day)] == day
  {
    if IsWalkDay(w, day) {
      assert Days(w)[DayIndex(w, day)] == day;
    }
  }

  /** The walk still ahead of a cursor. */
  function Ahead<B, D>(e: Engine<B, D>, w: Window, news: News, c: Cursor, st: RunState<B, D>): WalkEnd<B, D>
    requires IsWalkDay(w, c.day)
  {
    RunDays(e, w, news, DayIndex(w, c.day), c.ticker, c.after, c.exits, st)
  }

  function UnitsAhead(w: Window, news: News, c: Cursor): seq<Event>
    requires IsWalkDay(w, c.day)
  {
    EventsFrom(w, news, DayIndex(w, c.day), c.ticker, c.after, c.exits)
  }

  /** Charges that are counted but not refused (a read, the exit unit), inside one unenforced region. */
  method SpendUnenforced(budget: SubrequestBudget?, chs: seq<Channel>) returns (ok: bool)
    requires budget != null ==> budget.suspendDepth == 0
    requires budget != null && budget.halted ==> forall ch :: ch in chs ==> !ch.External?
    modifies budget
    ensures ok
    ensures budget != null ==>
              && budget.View() == ChargedAll(budget.limits, old(budget.View()).(depth := 1), chs).(depth := 0)
              && budget.total == old(budget.total) + |chs|
              && ((forall ch :: ch in chs ==> ch == D1) ==> budget.d1 == old(budget.d1) + |chs|)
              && budget.suspendDepth == 0
              && budget.unitsCompleted == old(budget.unitsCompleted)
              && budget.halted == old(budget.halted)
  {
    ok := true;
    if budget != null {
      budget.Suspend();
      SuspendedIsAccepted(budget.limits, budget.View(), chs);
      ok := budget.ChargeAll(chs);
      budget.Resume();
    }
  }

  lemma OneSuspended(l: Limits, b: Counters, ch: Channel)
    requires b.depth > 0 && (b.halted ==> !ch.External?)
    ensures !Refuses(l, b, ch)
    ensures var r := Charged(l, b, ch);
            && r.depth == b.depth && r.halted == b.halted && r.units == b.units && r.total == b.total + 1
            && (ch == D1 ==> r.d1 == b.d1 + 1)
  {
  }

  lemma {:induction false} SuspendedIsAccepted(l: Limits, b: Counters, chs: seq<Channel>)
    requires b.depth > 0 && (b.halted ==> forall ch :: ch in chs ==> !ch.External?)
    ensures AllAccepted(l, b, chs)
    ensures var r := ChargedAll(l, b, chs);
            && r.depth == b.depth && r.halted == b.halted && r.units == b.units && r.total == b.total + |chs|
            && ((forall ch :: ch in chs ==> ch == D1) ==> r.d1 == b.d1 + |chs|)
    decreases |chs|
  {
    if chs != [] {
      assert chs[0] in chs && forall ch :: ch in chs[1..] ==> ch in chs;
      OneSuspended(l, b, chs[0]);
      hide Refuses, Charged;
      SuspendedIsAccepted(l, Charged(l, b, chs[0]), chs[1..]);
    }
  }

  /** One item: canStart, the pipeline, and what the walk makes of its outcome. */
  method WalkItem<B, D>(e: Engine<B, D>, w: Window, weather: Weather, budget: SubrequestBudget?, day: int, t: nat,
                        item: NewsItem, st0: RunState<B, D>)
    returns (seg: Segment, st: RunState<B, D>)
    requires t < |w.tickers|
    requires budget != null ==> budget.suspendDepth == 0
    modifies budget
    ensures seg.Ended? ==>
              && RunItem(e, w, day, t, item, st0) == Some(st)
              && st.trace == st0.trace + [ItemDone(day, t, Key(item.publishedAt, item.id))]
              && match RunPipeline(e.desk, Job(w.testStart, w.tickers[t], item), st0.store)
                 case Completed(s) => st.store == s && st.skipped == st0.skipped
                 case Unusable(s) => st.store == s && st.skipped == st0.skipped + 1 <= e.maxSkipped
                 case Crashed => false
    ensures seg.Held? ==>
              && RunItem(e, w, day, t, item, st0) == RunItem(e, w, day, t, item, st)
              && st.trace == st0.trace && st.skipped == st0.skipped && st.store.book == st0.store.book
              && OthersSame(st0.store, st.store, RunKey(w.testStart, w.tickers[t], item.id))
              && budget != null
              && (seg.reason.BudgetSpent? ==> budget.unitsCompleted > 0 || budget.halted)
              && (seg.reason.Exhausted? ==> budget.halted)
    ensures seg.Faulted? ==> seg.fault in {ItemFailed, VendorUnpaused}
    ensures seg.Faulted? ==>
              && st.trace == st0.trace && st.skipped == st0.skipped && st.store.book == st0.store.book
              && OthersSame(st0.store, st.store, RunKey(w.testStart, w.tickers[t], item.id))
    ensures seg == Faulted(ItemFailed) ==> RunItem(e, w, day, t, item, st0) == None
    ensures seg == Faulted(VendorUnpaused) ==> budget == null
    ensures st.steps == st0.steps
    ensures budget == null ==> !seg.Held?
    ensures seg == Held(Transient) || seg == Faulted(VendorUnpaused) ==>
              exists stage, d :: ResumesAt(e.desk, Job(w.testStart, w.tickers[t], item), st.store, stage, d)
                                 && weather.items.outage(Job(w.testStart, w.tickers[t], item), stage)
    ensures budget != null ==>
              var was, now := old(budget.View()), budget.View();
              var bill := Bill(e.desk, weather.items, Job(w.testStart, w.tickers[t], item), st0.store);
              var after := ChargedAll(budget.limits, was, bill);
              && (seg == Held(BudgetSpent) <==> !Fits(budget.limits, was, Item))
              && (seg == Held(BudgetSpent) ==> now == was)
              && (seg == Held(Exhausted) <==> Fits(budget.limits, was, Item) && !AllAccepted(budget.limits, was, bill))
              && (seg == Held(Exhausted) ==>
                    var job := Job(w.testStart, w.tickers[t], item);
                    || (st.store == st0.store && !AllAccepted(budget.limits, was, [D1]))
                    || StopsAt(e.desk, weather.items, job, budget.limits, was, bill, st.store))
              && (seg.Ended? ==> now == Recorded(after, Item, Cost(was.external, was.total)))
              && (!seg.Ended? && seg != Held(BudgetSpent) ==> now == after)
              && now.d1 >= was.d1
    ensures budget != null ==>
              && budget.suspendDepth == 0 && budget.unitsCompleted >= old(budget.unitsCompleted)
              && budget.unitsCompleted - |st.trace| + st.steps == old(budget.unitsCompleted) - |st0.trace| + st0.steps
  {
    hide RunPipeline, ChargedAll, AllAccepted, Bill, StopsAt, ResumesAt;
    st := st0;
    var before := Cost(0, 0);
    if budget != null {
      ChargesKeepProgress(budget.limits, budget.View(),
                          Bill(e.desk, weather.items, Job(w.testStart, w.tickers[t], item), st.store));
      var yes := budget.CanStart(Item);
      if !yes {
        return Held(BudgetSpent), st;
      }
      before := budget.Mark();
    }
    var outcome, store :=
          RunPipelineForTicker(e.desk, weather.items, budget, Job(w.testStart, w.tickers[t], item), st.store);
    st := st.(store := store);
    match outcome {
      case Failed => return Faulted(ItemFailed), st;
      case OutOfBudget => return Held(Exhausted), st;
      case VendorDown =>
        if budget != null {
          return Held(Transient), st;
        }
        return Faulted(VendorUnpaused), st;
      case SkippedOutput =>
        PipelineKeepsOthers(e.desk, Job(w.testStart, w.tickers[t], item), st0.store);
        if e.maxSkipped == 0 || st.skipped + 1 > e.maxSkipped {
          return Faulted(ItemFailed), st;
        }
        st := st.(skipped := st.skipped + 1);
      case Finished =>
    }
    if budget != null {
      budget.RecordUnit(Item, before);
    }
    st := st.(trace := st.trace + [ItemDone(day, t, ItemKey(item))]);
    seg := Ended;
  }

  /**
   * From `(items, st)` the walk still does exactly what it did from `(items0, st0)`: the same run
   * ahead, and the same units once those already done are counted.
   */
  ghost predicate SameItems<B, D>(e: Engine<B, D>, w: Window, day: int, t: nat,
                                  items0: seq<NewsItem>, st0: RunState<B, D>, items: seq<NewsItem>, st: RunState<B, D>)
    requires t < |w.tickers|
  {
    && RunItems(e, w, day, t, items0, st0) == RunItems(e, w, day, t, items, st)
    && st0.trace + ItemEvents(day, t, items0) == st.trace + ItemEvents(day, t, items)
    && st0.trace <= st.trace
    && st0.steps - CountSteps(st0.trace) == st.steps - CountSteps(st.trace)
  }

  lemma SameItemsStep<B, D>(e: Engine<B, D>, w: Window, day: int, t: nat,
                            items0: seq<NewsItem>, st0: RunState<B, D>, items: seq<NewsItem>, st: RunState<B, D>,
                            st1: RunState<B, D>)
    requires t < |w.tickers| && items != []
    requires SameItems(e, w, day, t, items0, st0, items, st)
    requires RunItem(e, w, day, t, items[0], st) == Some(st1)
    ensures SameItems(e, w, day, t, items0, st0, items[1..], st1)
  {
    var done := [ItemDone(day, t, ItemKey(items[0]))];
    CountStepsConcat(st.trace, done);
    assert st.trace + (done + ItemEvents(day, t, items[1..])) == st.trace + done + ItemEvents(day, t, items[1..]);
  }

  /** The items are news of that ticker. */
  ghost predicate ItemsOf(news: News, ticker: string, items: seq<NewsItem>) {
    forall i :: i in items ==> ticker in news && i in news[ticker]
  }

  lemma DayItemsAreOf(news: News, w: Window, t: nat, day: int)
    requires t < |w.tickers|
    ensures ItemsOf(news, w.tickers[t], DayItems(news, w, t, day))
  {
  }

  /** Held before the first of the items left: only its checkpoint may be ahead of what was reported. */
  ghost predicate HeldBefore<B, D>(e: Engine<B, D>, w: Window, news: News, t: nat, left: seq<NewsItem>,
                                   st0: RunState<B, D>, st: RunState<B, D>)
  {
    && t < |w.tickers| && left != []
    && WroughtBut(e, w, news, st0, st, RunKey(w.testStart, w.tickers[t], left[0].id))
  }

  lemma ItemWrought<B, D>(e: Engine<B, D>, w: Window, news: News, day: int, t: nat, items: seq<NewsItem>, j: nat,
                          st: RunState<B, D>, su: RunState<B, D>)
    requires t < |w.tickers| && j < |items| && ValidNews(news) && ItemsOf(news, w.tickers[t], items)
    requires su.trace == st.trace + [ItemDone(day, t, Key(items[j].publishedAt, items[j].id))]
    requires match RunPipeline(e.desk, Job(w.testStart, w.tickers[t], items[j]), st.store)
             case Completed(s) => su.store == s && su.skipped == st.skipped
             case Unusable(s) => su.store == s && su.skipped == st.skipped + 1 <= e.maxSkipped
             case Crashed => false
    ensures Wrought(e, w, news, st, su)
  {
    hide RunPipeline;
    assert items[j] in items;
    ItemIsAt(news[w.tickers[t]], items[j]);
    WroughtUnit(e, w, news, st, ItemDone(day, t, ItemKey(items[j])), su);
  }

  /** One ticker-day's items, resuming after `after0`. */
  method WalkItems<B, D>(e: Engine<B, D>, w: Window, ghost news: News, weather: Weather, budget: SubrequestBudget?,
                         day: int, t: nat, items: seq<NewsItem>, after0: Option<Key>, st0: RunState<B, D>)
    returns (seg: Segment, after: Option<Key>, st: RunState<B, D>)
    requires t < |w.tickers| && Ordered(items) && ValidNews(news) && ItemsOf(news, w.tickers[t], items)
    requires budget != null ==> budget.suspendDepth == 0
    modifies budget
    ensures seg.Ended? ==>
              SameItems(e, w, day, t, ItemsAfter(items, after0), st0, [], st) && Wrought(e, w, news, st0, st)
    ensures seg.Held? ==>
              && SameItems(e, w, day, t, ItemsAfter(items, after0), st0, ItemsAfter(items, after), st)
              && HeldBefore(e, w, news, t, ItemsAfter(items, after), st0, st)
              && budget != null
              && (seg.reason.BudgetSpent? ==> budget.unitsCompleted > 0 || budget.halted)
              && (seg.reason.Exhausted? ==> budget.halted)
    ensures KeyAdvances(after0, after) || seg.Ended?
    ensures after == after0 || exists i :: i in items && after == Some(ItemKey(i))
    ensures seg.Faulted? ==>
              seg.fault in {ItemFailed, VendorUnpaused}
              && st0.steps - CountSteps(st0.trace) == st.steps - CountSteps(st.trace)
    ensures seg == Faulted(ItemFailed) ==> RunItems(e, w, day, t, ItemsAfter(items, after0), st0) == None
    ensures seg == Faulted(VendorUnpaused) ==> budget == null
    ensures budget != null ==> budget.d1 >= old(budget.d1)
    ensures budget != null ==>
              && budget.suspendDepth == 0 && budget.unitsCompleted >= old(budget.unitsCompleted)
              && budget.unitsCompleted - |st.trace| + st.steps == old(budget.unitsCompleted) - |st0.trace| + st0.steps
  {
    hide RunItems, RunItem, ItemEvents, CountSteps, ItemsAfter, Wrought, WroughtBut, OthersSame, RunPipeline, ItemsOf;
    after, st := after0, st0;
    ghost var all := ItemsAfter(items, after0);
    WroughtHere(e, w, news, st);
    var j := 0;
    while j < |items|
      invariant 0 <= j <= |items|
      invariant ItemsAfter(items, after) == ItemsAfter(items[j..], after)
      invariant SameItems(e, w, day, t, all, st0, ItemsAfter(items, after), st)
      invariant Wrought(e, w, news, st0, st)
      invariant KeyAdvances(after0, after)
      invariant after == after0 || exists i :: i in items && after == Some(ItemKey(i))
      invariant budget != null ==> budget.d1 >= old(budget.d1)
      invariant budget != null ==>
                  && budget.suspendDepth == 0 && budget.unitsCompleted >= old(budget.unitsCompleted)
                  && budget.unitsCompleted - |st.trace| + st.steps
                       == old(budget.unitsCompleted) - |st0.trace| + st0.steps
    {
      SuffixHead(items, j, after);
      if after.Some? && !KeyLess(after.value, ItemKey(items[j])) {
        j := j + 1;
        continue;
      }
      ghost var was := st;
      seg, st := WalkItem(e, w, weather, budget, day, t, items[j], st);
      if !seg.Ended? {
        SameItemsHeld(e, w, day, t, items[j..], was, st, seg.Held?);
        if seg.Held? {
          WroughtHeld(e, w, news, was, st, RunKey(w.testStart, w.tickers[t], items[j].id));
          WroughtTrans(e, w, news, st0, was, st);
        }
        return;
      }
      SameItemsStep(e, w, day, t, all, st0, items[j..], was, st);
      ItemWrought(e, w, news, day, t, items, j, was, st);
      WroughtTrans(e, w, news, st0, was, st);
      after := Some(ItemKey(items[j]));
      NextAfter(items, j);
      j := j + 1;
    }
    NothingAfter(after);
    assert items[|items|..] == [];
    seg := Ended;
  }

  lemma SameItemsHeld<B, D>(e: Engine<B, D>, w: Window, day: int, t: nat,
                            items: seq<NewsItem>, was: RunState<B, D>, st: RunState<B, D>, held: bool)
    requires t < |w.tickers| && items != []
    requires st.trace == was.trace && st.steps == was.steps
    requires held ==> RunItem(e, w, day, t, items[0], was) == RunItem(e, w, day, t, items[0], st)
    ensures held ==> SameItems(e, w, day, t, items, was, items, st)
    ensures RunItem(e, w, day, t, items[0], was) == None ==> RunItems(e, w, day, t, items, was) == None
    ensures was.steps - CountSteps(was.trace) == st.steps - CountSteps(st.trace)
  {
  }

  lemma NothingAfter(after: Option<Key>)
    ensures ItemsAfter([], after) == []
  {
  }

  lemma NextAfter(items: seq<NewsItem>, j: nat)
    requires Ordered(items) && j < |items|
    ensures var k := Some(ItemKey(items[j]));
            ItemsAfter(items, k) == items[j + 1..] == ItemsAfter(items[j + 1..], k)
    ensures items[j..][1..] == items[j + 1..]
  {
    AfterItem(items, j);
    if j + 1 < |items| {
      AfterHead(items[j + 1..], ItemKey(items[j]));
    } else {
      assert items[j + 1..] == [];
    }
  }

  lemma SuffixHead(items: seq<NewsItem>, j: nat, after: Option<Key>)
    requires Ordered(items) && j < |items|
    ensures after.Some? && !KeyLess(after.value, ItemKey(items[j])) ==>
              ItemsAfter(items[j..], after) == ItemsAfter(items[j + 1..], after)
    ensures !(after.Some? && !KeyLess(after.value, ItemKey(items[j]))) ==> ItemsAfter(items[j..], after) == items[j..]
  {
    assert items[j..][1..] == items[j + 1..];
    if after.Some? {
      AfterHead(items[j..], after.value);
    }
  }

  /** The same relation between two positions inside one day's news. */
  ghost predicate SameDayNews<B, D>(e: Engine<B, D>, w: Window, news: News, day: int,
                                    t0: nat, after0: Option<Key>, st0: RunState<B, D>, t: nat, after: Option<Key>,
                                    st: RunState<B, D>)
  {
    && RunDayNews(e, w, news, day, t0, after0, st0) == RunDayNews(e, w, news, day, t, after, st)
    && st0.trace + DayEvents(w, news, day, t0, after0) == st.trace + DayEvents(w, news, day, t, after)
    && st0.trace <= st.trace
    && st0.steps - CountSteps(st0.trace) == st.steps - CountSteps(st.trace)
  }

  /** Within one ticker-day: what SameItems gives for the whole day's news. */
  lemma SameDayNewsInside<B, D>(e: Engine<B, D>, w: Window, news: News, day: int, t: nat,
                                after0: Option<Key>, st0: RunState<B, D>, after: Option<Key>, st: RunState<B, D>)
    requires t < |w.tickers|
    requires var items := DayItems(news, w, t, day);
             SameItems(e, w, day, t, ItemsAfter(items, after0), st0, ItemsAfter(items, after), st)
    ensures SameDayNews(e, w, news, day, t, after0, st0, t, after, st)
  {
    hide RunItems, ItemEvents, CountSteps, DayItems, ItemsAfter;
    var items := DayItems(news, w, t, day);
    var rest := [StepDone(day, t)] + DayEvents(w, news, day, t + 1, None);
    Assoc(st0.trace, ItemEvents(day, t, ItemsAfter(items, after0)), rest);
    Assoc(st.trace, ItemEvents(day, t, ItemsAfter(items, after)), rest);
  }

  /** A finished ticker-day moves on to the next ticker, counting one step. */
  lemma SameDayNewsStep<B, D>(e: Engine<B, D>, w: Window, news: News, day: int, t: nat,
                              after0: Option<Key>, st0: RunState<B, D>, st: RunState<B, D>)
    requires t < |w.tickers|
    requires SameItems(e, w, day, t, ItemsAfter(DayItems(news, w, t, day), after0), st0, [], st)
    ensures SameDayNews(e, w, news, day, t, after0, st0, t + 1, None, StepTaken(st, day, t))
  {
    var items := ItemsAfter(DayItems(news, w, t, day), after0);
    var rest := DayEvents(w, news, day, t + 1, None);
    CountStepsConcat(st.trace, [StepDone(day, t)]);
    assert st.trace + [] == st.trace;
    assert st0.trace + (ItemEvents(day, t, items) + ([StepDone(day, t)] + rest))
        == st0.trace + ItemEvents(day, t, items) + [StepDone(day, t)] + rest;
  }

  lemma BrokenDayNews<B, D>(e: Engine<B, D>, w: Window, news: News, day: int, t: nat, after: Option<Key>,
                            st: RunState<B, D>)
    requires t < |w.tickers|
    requires RunItems(e, w, day, t, ItemsAfter(DayItems(news, w, t, day), after), st) == None
    ensures RunDayNews(e, w, news, day, t, after, st) == None
  {
  }

  lemma SameDayNewsRefl<B, D>(e: Engine<B, D>, w: Window, news: News, day: int, t: nat, after: Option<Key>,
                              st: RunState<B, D>)
    ensures SameDayNews(e, w, news, day, t, after, st, t, after, st)
  {
  }

  lemma SameDayNewsTrans<B, D>(e: Engine<B, D>, w: Window, news: News, day: int,
                               t0: nat, after0: Option<Key>, st0: RunState<B, D>, t: nat, after: Option<Key>,
                               st: RunState<B, D>, u: nat, last: Option<Key>, su: RunState<B, D>)
    requires SameDayNews(e, w, news, day, t0, after0, st0, t, after, st)
    requires SameDayNews(e, w, news, day, t, after, st, u, last, su)
    ensures SameDayNews(e, w, news, day, t0, after0, st0, u, last, su)
  {
  }

  lemma SameDayNewsRun<B, D>(e: Engine<B, D>, w: Window, news: News, day: int,
                             t0: nat, after0: Option<Key>, st0: RunState<B, D>, t: nat, after: Option<Key>,
                             st: RunState<B, D>)
    requires SameDayNews(e, w, news, day, t0, after0, st0, t, after, st)
    ensures RunDayNews(e, w, news, day, t0, after0, st0) == RunDayNews(e, w, news, day, t, after, st)
    ensures st.steps - CountSteps(st.trace) == st0.steps - CountSteps(st0.trace)
  {
  }

  /** The pages read for the tickers from `t0` up to `t`. */
  function PagesRead(w: Window, weather: Weather, day: int, t0: nat, t: nat): nat
    requires t0 <= t <= |w.tickers|
  {
    if t0 == t then 0 else PagesRead(w, weather, day, t0, t - 1) + weather.newsPages(day, w.tickers[t - 1])
  }

  /** Every ticker's news of one day, resuming at ticker `t0`. */
  method WalkDayNews<B, D>(e: Engine<B, D>, w: Window, news: News, weather: Weather, budget: SubrequestBudget?,
                           day: int,
                           t0: nat, after0: Option<Key>, st0: RunState<B, D>)
    returns (seg: Segment, t: nat, after: Option<Key>, st: RunState<B, D>)
    requires ValidNews(news)
    requires t0 <= |w.tickers|
    requires budget != null ==> budget.suspendDepth == 0
    modifies budget
    ensures t <= |w.tickers|
    ensures seg.Ended? ==> t == |w.tickers|
    ensures seg.Ended? || seg.Held? ==> SameDayNews(e, w, news, day, t0, after0, st0, t, after, st)
    ensures seg.Ended? ==> Wrought(e, w, news, st0, st)
    ensures seg.Held? ==>
              t < |w.tickers| && HeldBefore(e, w, news, t, ItemsAfter(DayItems(news, w, t, day), after), st0, st)
    ensures seg.Held? ==> t0 < t || (t == t0 && KeyAdvances(after0, after))
    ensures seg.Held? && KnownKey(news, after0) ==> KnownKey(news, after)
    ensures seg.Held? ==>
              && budget != null
              && (seg.reason.BudgetSpent? ==> budget.unitsCompleted > 0 || budget.halted)
              && (seg.reason.Exhausted? ==> budget.halted)
    ensures seg.Faulted? ==> seg.fault in {ItemFailed, VendorUnpaused}
    ensures seg == Faulted(ItemFailed) ==> RunDayNews(e, w, news, day, t0, after0, st0) == None
    ensures seg == Faulted(VendorUnpaused) ==> budget == null
    ensures t0 <= t && (budget != null ==>
                          var reached := if t < |w.tickers| then t + 1 else t;
                          budget.d1 >= old(budget.d1) + PagesRead(w, weather, day, t0, reached))
    ensures st.steps - CountSteps(st.trace) == st0.steps - CountSteps(st0.trace)
    ensures budget != null ==>
              && budget.suspendDepth == 0 && budget.unitsCompleted >= old(budget.unitsCompleted)
              && budget.unitsCompleted - |st.trace| + st.steps == old(budget.unitsCompleted) - |st0.trace| + st0.steps
  {
    hide RunDayNews, DayEvents, CountSteps, SameItems, RunItems, ItemEvents, DayItems, ItemsAfter, KnownKey, Wrought,
         WroughtBut, ItemsOf, SameDayNews;
    assert KnownKey(news, None) by { NoKeyIsKnown(news); }
    t, after, st := t0, after0, st0;
    WroughtHere(e, w, news, st);
    SameDayNewsRefl(e, w, news, day, t, after, st);
    while t < |w.tickers|
      invariant t0 <= t <= |w.tickers|
      invariant budget != null ==> budget.d1 >= old(budget.d1) + PagesRead(w, weather, day, t0, t)
      invariant SameDayNews(e, w, news, day, t0, after0, st0, t, after, st)
      invariant Wrought(e, w, news, st0, st)
      invariant t0 < t || (t == t0 && KeyAdvances(after0, after))
      invariant KnownKey(news, after0) ==> KnownKey(news, after)
      invariant budget != null ==>
                  && budget.suspendDepth == 0 && budget.unitsCompleted >= old(budget.unitsCompleted)
                  && budget.unitsCompleted - |st.trace| + st.steps
                       == old(budget.unitsCompleted) - |st0.trace| + st0.steps
    {
      // Counted, never refused: a read is a fixed cost of reaching the first item.
      var _ := SpendUnenforced(budget, seq(weather.newsPages(day, w.tickers[t]), _ => D1));
      var items := DayItems(news, w, t, day);
      DayItemsOrdered(news, w, t, day);
      ghost var was, wasAfter := st, after;
      DayItemsAreOf(news, w, t, day);
      SameDayNewsRun(e, w, news, day, t0, after0, st0, t, after, st);
      seg, after, st := WalkItems(e, w, news, weather, budget, day, t, items, after, st);
      if seg.Faulted? {
        if seg.fault == ItemFailed {
          BrokenDayNews(e, w, news, day, t, wasAfter, was);
        }
        return;
      }
      if seg.Held? {
        WroughtTrans(e, w, news, st0, was, st);
        SameDayNewsInside(e, w, news, day, t, wasAfter, was, after, st);
        SameDayNewsTrans(e, w, news, day, t0, after0, st0, t, wasAfter, was, t, after, st);
        SameDayNewsRun(e, w, news, day, t0, after0, st0, t, after, st);
        if after != wasAfter {
          var i :| i in items && after == Some(ItemKey(i));
          DayItemsAreNews(news, w, t, day, i);
        }
        return;
      }
      SameDayNewsStep(e, w, news, day, t, wasAfter, was, st);
      WroughtTrans(e, w, news, st0, was, st);
      ghost var stepped := st;
      st := StepTaken(st, day, t);
      WroughtUnit(e, w, news, stepped, StepDone(day, t), st);
      WroughtTrans(e, w, news, st0, stepped, st);
      SameDayNewsTrans(e, w, news, day, t0, after0, st0, t, wasAfter, was, t + 1, None, st);
      t := t + 1;
      after := None;
    }
    SameDayNewsRun(e, w, news, day, t0, after0, st0, t, after, st);
    seg := Ended;
  }

  /** The same relation between two positions of the window walk. */
  ghost predicate SameWalk<B, D>(e: Engine<B, D>, w: Window, news: News,
                                 i0: nat, p0: Cursor, st0: RunState<B, D>, i: nat, p: Cursor, st: RunState<B, D>)
  {
    && RunDays(e, w, news, i0, p0.ticker, p0.after, p0.exits, st0) ==
         RunDays(e, w, news, i, p.ticker, p.after, p.exits, st)
    && st0.trace + EventsFrom(w, news, i0, p0.ticker, p0.after, p0.exits) ==
         st.trace + EventsFrom(w, news, i, p.ticker, p.after, p.exits)
    && st0.trace <= st.trace
    && st0.steps - CountSteps(st0.trace) == st.steps - CountSteps(st.trace)
  }

  lemma SameWalkInside<B, D>(e: Engine<B, D>, w: Window, news: News, i: nat,
                             p0: Cursor, st0: RunState<B, D>, p: Cursor, st: RunState<B, D>)
    requires i < |Days(w)| && !p0.exits && !p.exits
    requires SameDayNews(e, w, news, Days(w)[i], p0.ticker, p0.after, st0, p.ticker, p.after, st)
    ensures SameWalk(e, w, news, i, p0, st0, i, p, st)
  {
    hide RunDayNews, RunFromExits, DayEvents, CountSteps;
    var day := Days(w)[i];
    var tail := [ExitsDone(day)] + EventsFrom(w, news, i + 1, 0, None, false);
    Assoc(st0.trace, DayEvents(w, news, day, p0.ticker, p0.after), tail);
    Assoc(st.trace, DayEvents(w, news, day, p.ticker, p.after), tail);
  }

  /** A day whose news is done stands before its exit check. */
  lemma SameWalkAtExits<B, D>(e: Engine<B, D>, w: Window, news: News, i: nat, p: Cursor, st: RunState<B, D>)
    requires i < |Days(w)| && p.ticker >= |w.tickers| && !p.exits
    ensures SameWalk(e, w, news, i, p, st, i, p.(after := None, exits := true), st)
  {
    var tail := [ExitsDone(Days(w)[i])] + EventsFrom(w, news, i + 1, 0, None, false);
    assert [] + tail == tail;
  }

  /** The exit unit: the walk stops early, or goes on at the next day. */
  lemma {:induction false} SameWalkExits<B, D>(e: Engine<B, D>, w: Window, news: News, i: nat, p: Cursor,
                                               st: RunState<B, D>)
    requires i < |Days(w)| && p.exits
    requires RunExits(e, w, i, st).Some?
    ensures var (st1, stop) := RunExits(e, w, i, st).value;
            && st.trace <= st1.trace
            && (stop ==>
                  && RunDays(e, w, news, i, p.ticker, p.after, p.exits, st) == Done(st1, |Days(w)| - 1 - i)
                  && st.trace + EventsFrom(w, news, i, p.ticker, p.after, p.exits) ==
                       st1.trace + EventsFrom(w, news, i + 1, 0, None, false)
                  && st.steps - CountSteps(st.trace) == st1.steps - CountSteps(st1.trace))
            && (!stop ==> SameWalk(e, w, news, i, p, st, i + 1, Cursor(0, 0, None, false), st1))
  {
    hide RunDayNews, DayEvents;
    var day := Days(w)[i];
    var next := EventsFrom(w, news, i + 1, 0, None, false);
    CountStepsConcat(st.trace, [ExitsDone(day)]);
    assert CountSteps([ExitsDone(day)]) == 0;
    assert EventsFrom(w, news, i, p.ticker, p.after, p.exits) == [ExitsDone(day)] + next;
    assert RunDays(e, w, news, i, p.ticker, p.after, p.exits, st) == RunFromExits(e, w, news, i, st);
    var (st1, stop) := RunExits(e, w, i, st).value;
    assert RunFromExits(e, w, news, i, st) == if stop then Done(st1, |Days(w)| - 1 - i)
                                              else RunDays(e, w, news, i + 1, 0, None, false, st1);
    Assoc(st.trace, [ExitsDone(day)], next);
  }

  lemma BrokenWalk<B, D>(e: Engine<B, D>, w: Window, news: News, i: nat, p: Cursor, st: RunState<B, D>)
    requires i < |Days(w)|
    requires if p.exits then RunExits(e, w, i, st) == None
             else RunDayNews(e, w, news, Days(w)[i], p.ticker, p.after, st) == None
    ensures RunDays(e, w, news, i, p.ticker, p.after, p.exits, st) == Broken
  {
  }

  lemma WalkOver<B, D>(e: Engine<B, D>, w: Window, news: News, p: Cursor, st: RunState<B, D>)
    ensures RunDays(e, w, news, |Days(w)|, p.ticker, p.after, p.exits, st) == Done(st, 0)
    ensures EventsFrom(w, news, |Days(w)|, p.ticker, p.after, p.exits) == []
  {
  }

  lemma SameWalkRefl<B, D>(e: Engine<B, D>, w: Window, news: News, i: nat, p: Cursor, st: RunState<B, D>)
    ensures SameWalk(e, w, news, i, p, st, i, p, st)
  {
  }

  lemma SameWalkTrans<B, D>(e: Engine<B, D>, w: Window, news: News, i0: nat, p0: Cursor, st0: RunState<B, D>,
                            i: nat, p: Cursor, st: RunState<B, D>, j: nat, q: Cursor, su: RunState<B, D>)
    requires SameWalk(e, w, news, i0, p0, st0, i, p, st) && SameWalk(e, w, news, i, p, st, j, q, su)
    ensures SameWalk(e, w, news, i0, p0, st0, j, q, su)
  {
  }

  /** A walk position reads the same whatever day its (fresh) cursor names. */
  lemma SameWalkFresh<B, D>(e: Engine<B, D>, w: Window, news: News, i0: nat, p0: Cursor, st0: RunState<B, D>, i: nat,
                            st: RunState<B, D>, day: int)
    requires SameWalk(e, w, news, i0, p0, st0, i, Cursor(0, 0, None, false), st)
    ensures SameWalk(e, w, news, i0, p0, st0, i, Cursor(day, 0, None, false), st)
  {
  }

  lemma ExitsWrought<B, D>(e: Engine<B, D>, w: Window, news: News, st0: RunState<B, D>, st: RunState<B, D>, day: int,
                           su: RunState<B, D>)
    requires Wrought(e, w, news, st0, st) && su.trace == st.trace + [ExitsDone(day)] && su.skipped == st.skipped
    requires match e.exits(day, st.store.book)
             case Some((book, waiting)) => su.store == Store(book, st.store.checkpoints)
             case None => false
    ensures Wrought(e, w, news, st0, su)
  {
    WroughtUnit(e, w, news, st, ExitsDone(day), su);
    WroughtTrans(e, w, news, st0, st, su);
  }

  datatype ExitsOutcome = NotStarted | ExitsThrew | Stopped | Onward

  /**
   * One day's exit unit: pending fills and the exit check, counted by the budget but never refused, so it
   * is never cut in half; then, in the grace tail, the early stop once nothing is open or pending.
   */
  method WalkExits<B, D>(e: Engine<B, D>, w: Window, weather: Weather, budget: SubrequestBudget?, days: seq<int>,
                         i: nat, st0: RunState<B, D>)
    returns (o: ExitsOutcome, st: RunState<B, D>)
    requires days == Days(w) && i < |days|
    requires budget != null ==> budget.suspendDepth == 0
    modifies budget
    ensures o.NotStarted? ==> st == st0 && budget != null && (budget.unitsCompleted > 0 || budget.halted)
    ensures o.ExitsThrew? ==> st == st0 && RunExits(e, w, i, st0) == None
    ensures o.Stopped? ==> RunExits(e, w, i, st0) == Some((st, true))
    ensures o.Onward? ==> RunExits(e, w, i, st0) == Some((st, false))
    ensures o.Stopped? || o.Onward? ==>
              && st.trace == st0.trace + [ExitsDone(days[i])] && st.skipped == st0.skipped
              && match e.exits(days[i], st0.store.book)
                 case Some((book, waiting)) =>
                   && st.store == Store(book, st0.store.checkpoints)
                   && (o.Stopped? <==> w.isLast && waiting == 0 && days[i] * DAY_MS >= w.testEnd && i + 1 < |days|
                                       && e.nothingLeft(days[i], book))
                   && (budget != null ==>
                         var was, free := old(budget.View()), old(budget.View()).(depth := 1);
                         var after := ChargedAll(budget.limits, free, weather.exitCost(days[i])).(depth := 0);
                         var counted := Recorded(after, Exits, Cost(was.external, was.total));
                         var asks := w.isLast && waiting == 0 && days[i] * DAY_MS >= w.testEnd && i + 1 < |days|;
                         budget.View() ==
                           if !asks then counted
                           else ChargedAll(budget.limits, counted.(depth := 1), [D1, D1]).(depth := 0))
                 case None => false
    ensures budget != null ==> (o.NotStarted? <==> !Fits(budget.limits, old(budget.View()), Exits))
    ensures budget != null ==>
              && budget.suspendDepth == 0 && budget.unitsCompleted >= old(budget.unitsCompleted)
              && budget.unitsCompleted - |st.trace| + st.steps == old(budget.unitsCompleted) - |st0.trace| + st0.steps
  {
    st := st0;
    var before := Cost(0, 0);
    if budget != null {
      var yes := budget.CanStart(Exits);
      if !yes {
        return NotStarted, st;
      }
      before := budget.Mark();
    }
    // Nothing was refused so far, so not even a vendor call inside the check can be.
    var whole := SpendUnenforced(budget, weather.exitCost(days[i]));
    assert whole;
    var done := e.exits(days[i], st.store.book);
    if done.None? {
      return ExitsThrew, st;
    }
    var (book, waiting) := done.value;
    if budget != null {
      budget.RecordUnit(Exits, before);
    }
    st := st.(store := st.store.(book := book), trace := st.trace + [ExitsDone(days[i])]);
    if w.isLast && waiting == 0 && days[i] * DAY_MS >= w.testEnd && i < |days| - 1 {
      var _ := SpendUnenforced(budget, [D1, D1]);
      if e.nothingLeft(days[i], book) {
        return Stopped, st;
      }
    }
    o := Onward;
  }

  lemma SameWalkSteps<B, D>(e: Engine<B, D>, w: Window, news: News, i0: nat, p0: Cursor, st0: RunState<B, D>, i: nat,
                            p: Cursor, st: RunState<B, D>)
    requires SameWalk(e, w, news, i0, p0, st0, i, p, st)
    ensures st.steps - CountSteps(st.trace) == st0.steps - CountSteps(st0.trace)
  {
  }

  lemma BrokenAt<B, D>(e: Engine<B, D>, w: Window, news: News, i0: nat, p0: Cursor, st0: RunState<B, D>, i: nat,
                       p: Cursor, st: RunState<B, D>)
    requires SameWalk(e, w, news, i0, p0, st0, i, p, st)
    requires i < |Days(w)| && p.exits && RunExits(e, w, i, st) == None
    ensures RunDays(e, w, news, i0, p0.ticker, p0.after, p0.exits, st0) == Broken
  {
    BrokenWalk(e, w, news, i, p, st);
    hide RunDays, EventsFrom, CountSteps, RunExits, RunDayNews;
  }

  /** A break seen from a later position is the break seen from the earlier one. */
  lemma SameWalkBroken<B, D>(e: Engine<B, D>, w: Window, news: News, i0: nat, p0: Cursor, st0: RunState<B, D>, i: nat,
                             p: Cursor, st: RunState<B, D>)
    requires SameWalk(e, w, news, i0, p0, st0, i, p, st)
    requires i0 < |Days(w)| && Days(w)[i0] == p0.day
    ensures RunDays(e, w, news, i, p.ticker, p.after, p.exits, st) == Broken ==> Ahead(e, w, news, p0, st0) == Broken
  {
    hide RunDays, EventsFrom, CountSteps;
  }

  function Start(w: Window, cursor: Option<Cursor>): Cursor
    requires Days(w) != []
  {
    if cursor.Some? then cursor.value else Cursor(Days(w)[0], 0, None, false)
  }

  /** What a completed window walk leaves: the uninterrupted walk's end, all units done but the skipped grace days'. */
  ghost predicate Completes<B, D>(e: Engine<B, D>, w: Window, news: News, c0: Cursor, st0: RunState<B, D>,
                                  st: RunState<B, D>, skippedDays: nat)
    requires IsWalkDay(w, c0.day)
  {
    && Ahead(e, w, news, c0, st0) == Done(st, skippedDays)
    && skippedDays < |Days(w)|
    && st0.trace <= st.trace
    && st0.trace + UnitsAhead(w, news, c0) == st.trace + EventsFrom(w, news, |Days(w)| - skippedDays, 0, None, false)
    && (skippedDays > 0 ==> w.isLast && Days(w)[|Days(w)| - skippedDays - 1] * DAY_MS >= w.testEnd)
  }

  /** What a paused window walk leaves: from the cursor, exactly the rest of the uninterrupted walk. */
  ghost predicate Continues<B, D>(e: Engine<B, D>, w: Window, news: News, c0: Cursor, st0: RunState<B, D>,
                                  st: RunState<B, D>, c: Cursor)
    requires IsWalkDay(w, c0.day)
  {
    && CursorOk(w, c)
    && st0.trace <= st.trace
    && Ahead(e, w, news, c, st) == Ahead(e, w, news, c0, st0)
    && st0.trace + UnitsAhead(w, news, c0) == st.trace + UnitsAhead(w, news, c)
  }

  lemma PausedHere<B, D>(e: Engine<B, D>, w: Window, news: News, i0: nat, p0: Cursor, st0: RunState<B, D>, i: nat,
                         p: Cursor, st: RunState<B, D>)
    requires SameWalk(e, w, news, i0, p0, st0, i, p, st)
    requires i0 < |Days(w)| && Days(w)[i0] == p0.day && i < |Days(w)| && Days(w)[i] == p.day
    requires p.ticker <= |w.tickers| && (p.exits ==> p.ticker == |w.tickers| && p.after.None?)
    ensures Continues(e, w, news, p0, st0, st, p)
    ensures st.steps - CountSteps(st.trace) == st0.steps - CountSteps(st0.trace)
  {
    hide RunDays, EventsFrom, CountSteps, RunExits;
  }

  /** The walk stops early after day `i`'s exit check: its result, with only the later (grace) days unvisited. */
  ghost predicate StopsAfter<B, D>(e: Engine<B, D>, w: Window, news: News, i: nat, p: Cursor, st0: RunState<B, D>,
                                   st: RunState<B, D>)
    requires i < |Days(w)|
  {
    && RunDays(e, w, news, i, p.ticker, p.after, p.exits, st0) == Done(st, |Days(w)| - 1 - i)
    && st0.trace + EventsFrom(w, news, i, p.ticker, p.after, p.exits) ==
         st.trace + EventsFrom(w, news, i + 1, 0, None, false)
    && st0.trace <= st.trace
    && w.isLast && Days(w)[i] * DAY_MS >= w.testEnd
  }

  lemma StopsHere<B, D>(e: Engine<B, D>, w: Window, news: News, i: nat, p0: Cursor, st0: RunState<B, D>, p: Cursor,
                        at: RunState<B, D>)
    requires i < |Days(w)| && SameWalk(e, w, news, i, p0, st0, i, p, at)
    requires p.exits && RunExits(e, w, i, at).Some? && RunExits(e, w, i, at).value.1
    ensures var st := RunExits(e, w, i, at).value.0;
            && StopsAfter(e, w, news, i, p0, st0, st)
            && st.steps - CountSteps(st.trace) == st0.steps - CountSteps(st0.trace)
  {
    SameWalkExits(e, w, news, i, p, at);
    hide RunDays, EventsFrom, CountSteps;
  }

  lemma StoppedHere<B, D>(e: Engine<B, D>, w: Window, news: News, i0: nat, p0: Cursor, st0: RunState<B, D>, i: nat,
                          p: Cursor, st: RunState<B, D>, last: RunState<B, D>)
    requires SameWalk(e, w, news, i0, p0, st0, i, p, st)
    requires i0 < |Days(w)| && Days(w)[i0] == p0.day && i < |Days(w)|
    requires StopsAfter(e, w, news, i, p, st, last)
    ensures Completes(e, w, news, p0, st0, last, |Days(w)| - 1 - i)
  {
    hide RunDays, EventsFrom, CountSteps;
  }

  lemma OverHere<B, D>(e: Engine<B, D>, w: Window, news: News, i0: nat, p0: Cursor, st0: RunState<B, D>,
                       st: RunState<B, D>)
    requires SameWalk(e, w, news, i0, p0, st0, |Days(w)|, Cursor(0, 0, None, false), st)
    requires i0 < |Days(w)| && Days(w)[i0] == p0.day
    ensures Completes(e, w, news, p0, st0, st, 0)
    ensures st.steps - CountSteps(st.trace) == st0.steps - CountSteps(st0.trace)
  {
    hide RunDays, EventsFrom, CountSteps, RunExits;
    WalkOver(e, w, news, Cursor(0, 0, None, false), st);
  }

  /**
   * What a walk held at a cursor has done to the store: the reported units, and at most a part of the item it is at.
   */
  ghost predicate HeldAt<B, D>(e: Engine<B, D>, w: Window, news: News, c: Cursor, st0: RunState<B, D>,
                               st: RunState<B, D>)
  {
    if c.exits then Wrought(e, w, news, st0, st)
    else
      c.ticker < |w.tickers|
      && HeldBefore(e, w, news, c.ticker, ItemsAfter(DayItems(news, w, c.ticker, c.day), c.after), st0, st)
  }

  lemma HeldTrans<B, D>(e: Engine<B, D>, w: Window, news: News, c: Cursor, st0: RunState<B, D>, st: RunState<B, D>,
                        su: RunState<B, D>)
    requires Wrought(e, w, news, st0, st) && HeldAt(e, w, news, c, st, su)
    ensures HeldAt(e, w, news, c, st0, su)
  {
    WroughtTrans(e, w, news, st0, st, su);
    hide Wrought, WroughtBut, ItemsAfter, DayItems;
  }

  datatype DayEnd = DayHeld(reason: Reason) | DayFaulted(fault: Fault) | DayStopped | DayDone

  /** One day of the walk, from wherever the cursor stands in it. */
  method WalkDay<B, D>(e: Engine<B, D>, w: Window, news: News, weather: Weather, budget: SubrequestBudget?,
                       days: seq<int>, i: nat, pos0: Cursor, st0: RunState<B, D>)
    returns (d: DayEnd, pos: Cursor, st: RunState<B, D>)
    requires ValidNews(news)
    requires days == Days(w) && i < |days| && pos0.day == days[i]
    requires pos0.ticker <= |w.tickers| && (pos0.exits ==> pos0.ticker == |w.tickers| && pos0.after.None?)
    requires budget != null ==> budget.suspendDepth == 0
    modifies budget
    ensures pos.day == days[i] && pos.ticker <= |w.tickers|
            && (pos.exits ==> pos.ticker == |w.tickers| && pos.after.None?)
    ensures d.DayHeld? ==>
              && SameWalk(e, w, news, i, pos0, st0, i, pos, st)
              && HeldAt(e, w, news, pos, st0, st)
              && Advances(pos0, pos)
              && (KnownKey(news, pos0.after) ==> KnownKey(news, pos.after))
              && budget != null
              && (d.reason.BudgetSpent? ==> budget.unitsCompleted > 0 || budget.halted)
              && (d.reason.Exhausted? ==> budget.halted)
              && (pos.exits ==> d.reason.BudgetSpent?)
    ensures d.DayDone? ==> SameWalk(e, w, news, i, pos0, st0, i + 1, Cursor(0, 0, None, false), st)
    ensures d.DayStopped? ==> StopsAfter(e, w, news, i, pos0, st0, st)
    ensures d.DayDone? || d.DayStopped? ==> Wrought(e, w, news, st0, st)
    ensures d.DayFaulted? ==> d.fault in {ItemFailed, ExitsFailed, VendorUnpaused}
    ensures d == DayFaulted(VendorUnpaused) ==> budget == null
    ensures d == DayFaulted(ItemFailed) || d == DayFaulted(ExitsFailed) ==>
              RunDays(e, w, news, i, pos0.ticker, pos0.after, pos0.exits, st0) == Broken
    ensures st.steps - CountSteps(st.trace) == st0.steps - CountSteps(st0.trace)
    ensures budget != null ==>
              && budget.suspendDepth == 0 && budget.unitsCompleted >= old(budget.unitsCompleted)
              && budget.unitsCompleted - |st.trace| + st.steps == old(budget.unitsCompleted) - |st0.trace| + st0.steps
  {
    hide RunDays, EventsFrom, CountSteps, RunDayNews, DayEvents, SameDayNews, SameWalk, RunExits, DayRange, StopsAfter,
         KnownKey, Wrought, HeldBefore, ItemsAfter, DayItems;
    NoKeyIsKnown(news);
    pos, st := pos0, st0;
    WroughtHere(e, w, news, st);
    SameWalkRefl(e, w, news, i, pos, st);
    if !pos.exits {
      var seg, t, after, st1 := WalkDayNews(e, w, news, weather, budget, pos.day, pos.ticker, pos.after, st);
      st := st1;
      pos := pos.(ticker := t, after := after);
      if seg.Faulted? {
        if seg.fault == ItemFailed {
          BrokenWalk(e, w, news, i, pos0, st0);
        }
        return DayFaulted(seg.fault), pos, st;
      }
      SameWalkInside(e, w, news, i, pos0, st0, pos, st);
      if seg.Held? {
        SameWalkSteps(e, w, news, i, pos0, st0, i, pos, st);
        return DayHeld(seg.reason), pos, st;
      }
      SameWalkAtExits(e, w, news, i, pos, st);
      SameWalkTrans(e, w, news, i, pos0, st0, i, pos, st, i, pos.(after := None, exits := true), st);
      pos := pos.(after := None, exits := true);
    }
    SameWalkSteps(e, w, news, i, pos0, st0, i, pos, st);
    ghost var was := st;
    var outcome, st2 := WalkExits(e, w, weather, budget, days, i, st);
    st := st2;
    match outcome {
      case NotStarted => return DayHeld(BudgetSpent), pos, st;
      case ExitsThrew =>
        BrokenAt(e, w, news, i, pos0, st0, i, pos, was);
        return DayFaulted(ExitsFailed), pos, st;
      case Stopped =>
        ExitsWrought(e, w, news, st0, was, days[i], st);
        StopsHere(e, w, news, i, pos0, st0, pos, was);
        return DayStopped, pos, st;
      case Onward =>
        ExitsWrought(e, w, news, st0, was, days[i], st);
        SameWalkExits(e, w, news, i, pos, was);
        SameWalkTrans(e, w, news, i, pos0, st0, i, pos, was, i + 1, Cursor(0, 0, None, false), st);
        SameWalkSteps(e, w, news, i, pos0, st0, i + 1, Cursor(0, 0, None, false), st);
        return DayDone, pos, st;
    }
  }

  /** The window walk, from its start or a cursor, under an optional budget. */
  method WalkOnSignalWindow<B, D>(e: Engine<B, D>, w: Window, news: News, weather: Weather, budget: SubrequestBudget?,
                                  cursor: Option<Cursor>, st0: RunState<B, D>)
    returns (r: WalkResult, st: RunState<B, D>)
    requires ValidNews(news)
    requires Days(w) != []
    requires cursor.Some? ==>
               cursor.value.ticker <= |w.tickers|
               && (cursor.value.exits ==> cursor.value.ticker == |w.tickers| && cursor.value.after.None?)
    requires budget != null ==> budget.suspendDepth == 0
    modifies budget
    ensures r == Threw(BadCursor) <==> cursor.Some? && !IsWalkDay(w, cursor.value.day)
    ensures r.Complete? ==>
              Completes(e, w, news, Start(w, cursor), st0, st, r.skippedDays) && Wrought(e, w, news, st0, st)
    ensures r.Paused? ==>
              && Continues(e, w, news, Start(w, cursor), st0, st, r.cursor)
              && HeldAt(e, w, news, r.cursor, st0, st)
              && Advances(Start(w, cursor), r.cursor)
              && (KnownKey(news, Start(w, cursor).after) ==> KnownKey(news, r.cursor.after))
              && budget != null
              && (r.reason.BudgetSpent? ==> budget.unitsCompleted > 0 || budget.halted)
              && (r.reason.Exhausted? ==> budget.halted)
              && (r.cursor.exits ==> r.reason.BudgetSpent?)
    ensures r == Threw(ItemFailed) || r == Threw(ExitsFailed) ==> Ahead(e, w, news, Start(w, cursor), st0) == Broken
    ensures r == Threw(VendorUnpaused) ==> budget == null
    ensures st.steps - CountSteps(st.trace) == st0.steps - CountSteps(st0.trace)
    ensures budget != null ==>
              && budget.suspendDepth == 0 && budget.unitsCompleted >= old(budget.unitsCompleted)
              && budget.unitsCompleted - |st.trace| + st.steps == old(budget.unitsCompleted) - |st0.trace| + st0.steps
  {
    hide RunDays, EventsFrom, CountSteps, SameWalk, Ahead, Continues, Completes, RunExits, DayRange, StopsAfter,
         KnownKey, Wrought, HeldAt;
    NoKeyIsKnown(news);
    st := st0;
    WroughtHere(e, w, news, st);
    var days := EachDay(w.testStart, w.walkEnd);
    var pos := if cursor.Some? then cursor.value else Cursor(days[0], 0, None, false);
    var dayIndex := DayIndex(w, pos.day);
    if !(0 <= dayIndex < |days|) {
      return Threw(BadCursor), st;
    }
    ghost var i0, p0 := dayIndex, pos;
    SameWalkRefl(e, w, news, i0, p0, st0);
    while dayIndex < |days|
      invariant 0 <= dayIndex <= |days| && days == Days(w)
      invariant pos.ticker <= |w.tickers| && (pos.exits ==> pos.ticker == |w.tickers| && pos.after.None?)
      invariant dayIndex < |days| ==> pos.day <= days[dayIndex]
      invariant i0 <= dayIndex && (dayIndex == i0 ==> pos == p0)
      invariant dayIndex < |days| && pos.day == days[dayIndex] && KnownKey(news, p0.after) ==> KnownKey(news, pos.after)
      invariant var p := if dayIndex < |days| && days[dayIndex] == pos.day then pos else Cursor(0, 0, None, false);
                SameWalk(e, w, news, i0, p0, st0, dayIndex, p, st)
      invariant Wrought(e, w, news, st0, st)
      invariant st.steps - CountSteps(st.trace) == st0.steps - CountSteps(st0.trace)
      invariant budget != null ==>
                  && budget.suspendDepth == 0 && budget.unitsCompleted >= old(budget.unitsCompleted)
                  && budget.unitsCompleted - |st.trace| + st.steps
                       == old(budget.unitsCompleted) - |st0.trace| + st0.steps
    {
      if days[dayIndex] != pos.day {
        SameWalkFresh(e, w, news, i0, p0, st0, dayIndex, st, days[dayIndex]);
        pos := Cursor(days[dayIndex], 0, None, false);
      }
      ghost var was, wasPos := st, pos;
      var d, pos1, st1 := WalkDay(e, w, news, weather, budget, days, dayIndex, pos, st);
      pos, st := pos1, st1;
      match d {
        case DayHeld(reason) =>
          SameWalkTrans(e, w, news, i0, p0, st0, dayIndex, wasPos, was, dayIndex, pos, st);
          HeldTrans(e, w, news, pos, st0, was, st);
          PausedHere(e, w, news, i0, p0, st0, dayIndex, pos, st);
          return Paused(reason, pos), st;
        case DayFaulted(fault) =>
          SameWalkBroken(e, w, news, i0, p0, st0, dayIndex, wasPos, was);
          return Threw(fault), st;
        case DayStopped =>
          WroughtTrans(e, w, news, st0, was, st);
          StoppedHere(e, w, news, i0, p0, st0, dayIndex, wasPos, was, st);
          return Complete(|days| - 1 - dayIndex), st;
        case DayDone =>
          WroughtTrans(e, w, news, st0, was, st);
          SameWalkTrans(e, w, news, i0, p0, st0, dayIndex, wasPos, was, dayIndex + 1, Cursor(0, 0, None, false), st);
      }
      dayIndex := dayIndex + 1;
    }
    OverHere(e, w, news, i0, p0, st0, st);
    r := Complete(0);
  }
}
