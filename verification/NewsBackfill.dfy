/**
 * The historical news backfill (src/ingestion/ingest.js, src/ingest-worker.js): a range fetched and saved
 * window by window in bounded parts, chained through a queue. The chain stores what one unbounded call would.
 */
module NewsBackfill {
  import opened Collections
  import opened DateWindows

  // ---- Fetching a window --------------------------------------------------------------------

  datatype Item = Item(id: int, tickers: set<int>)

  /** A vendor's answer for a ticker and a span: a failure, or articles and how many raw ones there were. */
  datatype Reply = Failed | Articles(items: seq<Item>, raw: nat)

  /** What a fetch gathered, and what it cost. */
  datatype Fetched = Fetched(items: seq<Item>, requests: nat, errors: nat, truncated: nat)

  function Both(a: Fetched, b: Fetched): Fetched {
    Fetched(a.items + b.items, a.requests + b.requests, a.errors + b.errors, a.truncated + b.truncated)
  }

  /**
   * The vendor as the backfill sees it: its answers, requests per ask, and the size at which an answer looks
   * capped.
   */
  datatype Vendor = Vendor(reply: (int, Window) -> Reply, symbols: int -> nat, threshold: nat)

  /** Fetches a span; a capped answer is thrown away and both halves are fetched, down to single days. */
  function FetchSpan(v: Vendor, ticker: int, w: Window): Fetched
    decreases w.until - w.from
  {
    var cost := Fetched([], v.symbols(ticker), 0, 0);
    match v.reply(ticker, w)
    case Failed => cost.(errors := 1)
    case Articles(items, raw) =>
      if raw < v.threshold then cost.(items := items)
      else if w.from >= w.until then cost.(items := items, truncated := 1)
      else
        var halves := SplitWindow(w).value;
        Both(cost, Both(FetchSpan(v, ticker, halves.0), FetchSpan(v, ticker, halves.1)))
  }

  ghost predicate IdIn(items: seq<Item>, id: int) {
    exists i :: i in items && i.id == id
  }

  /** A vendor that knows `published` per ticker and day, answers uncapped spans in full, and never fails. */
  ghost predicate Faithful(v: Vendor, published: (int, int) -> set<int>) {
    forall ticker, w :: v.reply(ticker, w).Articles? &&
      (v.reply(ticker, w).raw < v.threshold ==>
         forall id :: IdIn(v.reply(ticker, w).items, id) <==>
                  exists day :: w.from <= day <= w.until && id in published(ticker, day))
  }

  /** Unless a single day is capped, splitting gathers every article of the window and nothing else. */
  lemma {:induction false} SplittingLosesNothing(v: Vendor, published: (int, int) -> set<int>, ticker: int, w: Window,
                                                 id: int)
    requires Faithful(v, published) && w.from <= w.until && FetchSpan(v, ticker, w).truncated == 0
    ensures FetchSpan(v, ticker, w).errors == 0
    ensures IdIn(FetchSpan(v, ticker, w).items, id) <==>
              exists day :: w.from <= day <= w.until && id in published(ticker, day)
    decreases w.until - w.from
  {
    var r := v.reply(ticker, w);
    assert r.Articles?;
    if r.raw >= v.threshold {
      var halves := SplitWindow(w).value;
      SplittingLosesNothing(v, published, ticker, halves.0, id);
      SplittingLosesNothing(v, published, ticker, halves.1, id);
      var a, b := FetchSpan(v, ticker, halves.0), FetchSpan(v, ticker, halves.1);
      assert FetchSpan(v, ticker, w).items == [] + (a.items + b.items);
    }
  }

  function FetchAll(v: Vendor, tickers: seq<int>, w: Window): Fetched {
    if tickers == [] then Fetched([], 0, 0, 0)
    else Both(FetchAll(v, tickers[..|tickers| - 1], w), FetchSpan(v, tickers[|tickers| - 1], w))
  }

  /** `f` is what two fetches gathered together, after `cost` requests of its own. */
  ghost predicate Gathers(f: Fetched, cost: nat, a: Fetched, b: Fetched) {
    && f.items == a.items + b.items && f.requests == cost + a.requests + b.requests
    && f.errors == a.errors + b.errors && f.truncated == a.truncated + b.truncated
  }

  /**
   * What a fetch of a span comes to: a failed answer counts one error; one below the threshold is taken; a capped one
   * of a single day is taken and counted as truncated; any other is thrown away and both halves are fetched. Each ask
   * costs a request a symbol.
   */
  lemma FetchSpanMeans(v: Vendor, ticker: int, w: Window)
    ensures var f, r, cost := FetchSpan(v, ticker, w), v.reply(ticker, w), v.symbols(ticker);
            if r.Failed? then f == Fetched([], cost, 1, 0)
            else if r.raw < v.threshold then f == Fetched(r.items, cost, 0, 0)
            else if w.from >= w.until then f == Fetched(r.items, cost, 0, 1)
            else
              exists mid :: w.from <= mid < w.until && 0 <= (mid - w.from) - (w.until - mid - 1) <= 1
                && Gathers(f, cost, FetchSpan(v, ticker, Window(w.from, mid)),
                           FetchSpan(v, ticker, Window(mid + 1, w.until)))
  {
    if v.reply(ticker, w).Articles? && v.reply(ticker, w).raw >= v.threshold && w.from < w.until {
      var halves := SplitWindow(w).value;
      var a, b := FetchSpan(v, ticker, halves.0), FetchSpan(v, ticker, halves.1);
      assert halves.0 == Window(w.from, halves.0.until) && halves.1 == Window(halves.0.until + 1, w.until);
      assert [] + (a.items + b.items) == a.items + b.items;
      assert Gathers(FetchSpan(v, ticker, w), v.symbols(ticker), a, b);
    }
  }

  /** Fetching for several tickers gathers what fetching for each does. */
  lemma {:induction false} FetchAllMeans(v: Vendor, a: seq<int>, b: seq<int>, w: Window)
    ensures Gathers(FetchAll(v, a + b, w), 0, FetchAll(v, a, w), FetchAll(v, b, w))
    ensures |b| == 1 ==> FetchAll(v, b, w) == FetchSpan(v, b[0], w)
    ensures b == [] ==> FetchAll(v, b, w) == Fetched([], 0, 0, 0)
  {
    hide FetchSpan, Gathers;
    var x := FetchAll(v, a, w);
    if b == [] {
      assert a + b == a;
      GathersNothing(x);
    } else {
      var n := |b| - 1;
      assert (a + b)[..|a + b| - 1] == a + b[..n];
      FetchAllMeans(v, a, b[..n], w);
      GathersOneMore(FetchAll(v, a + b[..n], w), x, FetchAll(v, b[..n], w), FetchSpan(v, b[n], w));
      if n == 0 {
        assert b[..n] == [];
        BothWithNothing(FetchSpan(v, b[0], w));
      }
    }
  }

  lemma GathersNothing(x: Fetched)
    ensures Gathers(x, 0, x, Fetched([], 0, 0, 0))
  {
    assert x.items + [] == x.items;
  }

  lemma BothWithNothing(x: Fetched)
    ensures Both(Fetched([], 0, 0, 0), x) == x
  {
    assert [] + x.items == x.items;
  }

  lemma GathersOneMore(f: Fetched, x: Fetched, y: Fetched, z: Fetched)
    requires Gathers(f, 0, x, y)
    ensures Gathers(Both(f, z), 0, x, Both(y, z))
  {
    assert (x.items + y.items) + z.items == x.items + (y.items + z.items);
  }

  // ---- Saving ---------------------------------------------------------------------------------

  const INSERT_CHUNK := 100

  /** Stored articles with their ticker links. */
  type Store = map<int, set<int>>

  function Ids(items: seq<Item>): set<int> {
    set i | i in items :: i.id
  }

  /** All tickers under which an article was fetched. */
  function TickersOf(items: seq<Item>, id: int): set<int> {
    set i, t | i in items && i.id == id && t in i.tickers :: t
  }

  lemma TickersAppend(items: seq<Item>, item: Item, id: int)
    ensures TickersOf(items + [item], id) == TickersOf(items, id) + (if id == item.id then item.tickers else {})
  {
    var a, b := TickersOf(items + [item], id), TickersOf(items, id) + (if id == item.id then item.tickers else {});
    forall t ensures t in a <==> t in b {
      if t in a {
        var i :| i in items + [item] && i.id == id && t in i.tickers;
        assert i in items || i == item;
      }
      if t in TickersOf(items, id) {
        var i :| i in items && i.id == id && t in i.tickers;
        assert i in items + [item];
      }
      assert item in items + [item];
    }
  }

  /** The new rows of a batch: unstored articles with all their tickers. */
  function NewRows(items: seq<Item>, store: Store): Store {
    map id | id in Ids(items) && id !in store :: TickersOf(items, id)
  }

  ghost predicate OneEach(items: seq<Item>) {
    forall i, j :: 0 <= i < j < |items| ==> items[i].id != items[j].id
  }

  /** One entry per article, carrying the union of its tickers. */
  method MergeDuplicateItems(items: seq<Item>) returns (merged: seq<Item>)
    ensures OneEach(merged) && Ids(merged) == Ids(items)
    ensures forall i :: i in merged ==> i.tickers == TickersOf(items, i.id)
    ensures forall i, t :: i in merged ==>
              (t in i.tickers <==> exists x :: x in items && x.id == i.id && t in x.tickers)
    ensures (set i | i in merged :: i.id) == (set x | x in items :: x.id)
  {
    merged := [];
    for k := 0 to |items|
      invariant OneEach(merged) && Ids(merged) == Ids(items[..k])
      invariant forall i :: i in merged ==> i.tickers == TickersOf(items[..k], i.id)
    {
      var item := items[k];
      assert items[..k + 1] == items[..k] + [item];
      ghost var was := merged;
      forall id
        ensures TickersOf(items[..k + 1], id) ==
                  TickersOf(items[..k], id) + (if id == item.id then item.tickers else {})
      {
        TickersAppend(items[..k], item, id);
      }
      var at := Find(merged, item.id);
      if at.None? {
        assert item.id !in Ids(items[..k]);
        assert TickersOf(items[..k], item.id) == {};
        merged := merged + [item];
      } else {
        merged := merged[at.value := Item(item.id, merged[at.value].tickers + item.tickers)];
        UpdateKeepsIds(was, at.value, merged[at.value]);
      }
      assert Ids(merged) == Ids(was) + {item.id};
    }
    assert items[..|items|] == items;
  }

  lemma IdsMean(items: seq<Item>)
    ensures forall id :: id in Ids(items) <==> exists x :: x in items && x.id == id
    ensures forall id, t :: t in TickersOf(items, id) <==> exists x :: x in items && x.id == id && t in x.tickers
  {
  }

  function Find(items: seq<Item>, id: int): (r: Option<nat>)
    ensures r.Some? ==> r.value < |items| && items[r.value].id == id
    ensures r.None? <==> id !in Ids(items)
  {
    if items == [] then None
    else if items[|items| - 1].id == id then Some(|items| - 1)
    else
      assert items == items[..|items| - 1] + [items[|items| - 1]];
      Find(items[..|items| - 1], id)
  }

  lemma UpdateKeepsIds(items: seq<Item>, k: nat, item: Item)
    requires k < |items| && items[k].id == item.id && OneEach(items)
    ensures Ids(items[k := item]) == Ids(items) && OneEach(items[k := item])
    ensures forall i :: i in items[k := item] ==> i == item || (i in items && i.id != item.id)
  {
    var s := items[k := item];
    forall id ensures id in Ids(s) <==> id in Ids(items) {
      if id in Ids(items) {
        var j :| 0 <= j < |items| && items[j].id == id;
        assert s[j].id == id && s[j] in s;
      }
    }
  }

  /** Writes the articles not stored yet, in chunks; how many rows were new. */
  method SaveItems(items: seq<Item>, store: Store) returns (after: Store, inserted: nat)
    requires OneEach(items)
    ensures after == store + NewRows(items, store)
    ensures inserted == |after| - |store|
    ensures forall id :: id in after <==> id in store || exists i :: i in items && i.id == id
    ensures forall id :: id in store ==> after[id] == store[id]
    ensures forall i :: i in items && i.id !in store ==> after[i.id] == i.tickers
  {
    after, inserted := store, 0;
    var i := 0;
    assert items[..0] == [] && NewRows([], store) == map[];
    hide NewRows, OneEach, Ids, TickersOf;
    while i < |items|
      invariant 0 <= i <= |items|
      invariant after == store + NewRows(items[..i], store)
      invariant inserted == |after| - |store|
    {
      var end := Min(i + INSERT_CHUNK, |items|);
      var chunk := items[i..end];
      var rows := NewRows(chunk, after);
      ChunkSaved(items, i, end, store, after);
      inserted := inserted + |rows|;
      after := after + rows;
      i := end;
    }
    assert items[..i] == items;
    SavedMeans(items, store);
  }

  lemma SavedMeans(items: seq<Item>, store: Store)
    requires OneEach(items)
    ensures var after := store + NewRows(items, store);
            && (forall id :: id in after <==> id in store || exists i :: i in items && i.id == id)
            && (forall id :: id in store ==> after[id] == store[id])
            && forall i :: i in items && i.id !in store ==> after[i.id] == i.tickers
  {
    IdsMean(items);
    forall i | i in items && i.id !in store ensures TickersOf(items, i.id) == i.tickers {
      forall t ensures t in TickersOf(items, i.id) <==> t in i.tickers {
        OnlyEntry(items, i);
      }
    }
    hide TickersOf, Ids;
  }

  lemma OnlyEntry(items: seq<Item>, i: Item)
    requires OneEach(items) && i in items
    ensures forall x :: x in items && x.id == i.id ==> x == i
  {
    var k :| 0 <= k < |items| && items[k] == i;
    forall x | x in items && x.id == i.id ensures x == i {
      var j :| 0 <= j < |items| && items[j] == x;
    }
  }

  /** One more chunk saved: the rows of the items so far, the new ones counted. */
  lemma ChunkSaved(items: seq<Item>, i: nat, end: nat, store: Store, after: Store)
    requires OneEach(items) && i <= end <= |items| && after == store + NewRows(items[..i], store)
    ensures var rows := NewRows(items[i..end], after);
            after + rows == store + NewRows(items[..end], store) && |after + rows| == |after| + |rows|
  {
    hide NewRows, OneEach, Ids, TickersOf;
    ChunkRows(items, i, end, store);
    NewRowsApart(items[i..end], after);
    AddedSize(after, NewRows(items[i..end], after));
  }

  lemma ChunkRows(items: seq<Item>, i: nat, end: nat, store: Store)
    requires OneEach(items) && i <= end <= |items|
    ensures var after := store + NewRows(items[..i], store);
            after + NewRows(items[i..end], after) == store + NewRows(items[..end], store)
  {
    var a, b, c := items[..i], items[i..end], items[..end];
    assert c == a + b;
    IdsOfParts(a, b);
    forall id | id in Ids(a) ensures id !in Ids(b) {
      NotInBoth(items, i, end, id);
    }
    forall id ensures TickersOf(c, id) == TickersOf(a, id) + TickersOf(b, id)
      ensures id !in Ids(a) ==> TickersOf(a, id) == {}
      ensures id !in Ids(b) ==> TickersOf(b, id) == {}
    {
      TickersOfParts(a, b, id);
    }
    hide Ids, TickersOf, OneEach;
    RowsOfParts(a, b, c, store);
  }

  lemma RowsOfParts(a: seq<Item>, b: seq<Item>, c: seq<Item>, store: Store)
    requires Ids(c) == Ids(a) + Ids(b) && Ids(a) !! Ids(b)
    requires forall id :: TickersOf(c, id) == TickersOf(a, id) + TickersOf(b, id)
    requires forall id :: (id !in Ids(a) ==> TickersOf(a, id) == {}) && (id !in Ids(b) ==> TickersOf(b, id) == {})
    ensures store + NewRows(a, store) + NewRows(b, store + NewRows(a, store)) == store + NewRows(c, store)
  {
    hide Ids, TickersOf;
    var l, r := store + NewRows(a, store) + NewRows(b, store + NewRows(a, store)), store + NewRows(c, store);
    forall id ensures id in l <==> id in r {
    }
    forall id | id in l ensures l[id] == r[id] {
      if id !in store {
        if id in Ids(a) {
          assert TickersOf(b, id) == {};
        } else {
          assert TickersOf(a, id) == {};
        }
      }
    }
  }

  lemma IdsOfParts(a: seq<Item>, b: seq<Item>)
    ensures Ids(a + b) == Ids(a) + Ids(b)
  {
    forall id ensures id in Ids(a + b) <==> id in Ids(a) || id in Ids(b) {
      if id in Ids(a) {
        var x :| x in a && x.id == id;
        assert x in a + b;
      }
      if id in Ids(b) {
        var x :| x in b && x.id == id;
        assert x in a + b;
      }
    }
  }

  lemma NewRowsApart(items: seq<Item>, store: Store)
    ensures store.Keys !! NewRows(items, store).Keys
  {
  }

  lemma NotInBoth(items: seq<Item>, i: nat, end: nat, id: int)
    requires OneEach(items) && i <= end <= |items| && id in Ids(items[..i])
    ensures id !in Ids(items[i..end])
  {
    var x :| x in items[..i] && x.id == id;
    var k :| 0 <= k < i && items[k] == x;
    forall y | y in items[i..end] ensures y.id != id {
      var m :| 0 <= m < end - i && items[i..end][m] == y;
      assert items[i + m] == y;
    }
  }

  lemma TickersOfParts(a: seq<Item>, b: seq<Item>, id: int)
    ensures TickersOf(a + b, id) == TickersOf(a, id) + TickersOf(b, id)
    ensures id !in Ids(a) ==> TickersOf(a, id) == {}
    ensures id !in Ids(b) ==> TickersOf(b, id) == {}
  {
    forall t ensures t in TickersOf(a + b, id) <==> t in TickersOf(a, id) || t in TickersOf(b, id) {
      if t in TickersOf(a, id) {
        var x :| x in a && x.id == id && t in x.tickers;
        assert x in a + b;
      }
      if t in TickersOf(b, id) {
        var x :| x in b && x.id == id && t in x.tickers;
        assert x in a + b;
      }
    }
  }

  lemma AddedSize(m: Store, rows: Store)
    requires m.Keys !! rows.Keys
    ensures |m + rows| == |m| + |rows|
  {
    assert (m + rows).Keys == m.Keys + rows.Keys;
    assert |(m + rows).Keys| == |m.Keys| + |rows.Keys|;
  }

  /** Saving the merged entries saves what the fetch gathered. */
  lemma MergedRows(items: seq<Item>, merged: seq<Item>, store: Store)
    requires OneEach(merged) && Ids(merged) == Ids(items) && forall i :: i in merged ==>
               i.tickers == TickersOf(items, i.id)
    ensures NewRows(merged, store) == NewRows(items, store)
  {
    forall id | id in Ids(merged) ensures TickersOf(merged, id) == TickersOf(items, id) {
      var x :| x in merged && x.id == id;
      forall y | y in merged && y.id == id ensures y == x {
        var i :| 0 <= i < |merged| && merged[i] == x;
        var j :| 0 <= j < |merged| && merged[j] == y;
      }
      forall t ensures t in TickersOf(merged, id) <==> t in x.tickers {
      }
    }
  }

  // ---- Windows in a row -------------------------------------------------------------------------

  /** The store, and what a call has counted. */
  datatype Totals = Totals(store: Store, inserted: int, processed: nat, requests: nat, errors: nat, truncated: nat)

  function Fresh(store: Store): Totals {
    Totals(store, 0, 0, 0, 0, 0)
  }

  function AfterWindow(v: Vendor, tickers: seq<int>, t: Totals, w: Window): Totals {
    var f := FetchAll(v, tickers, w);
    var store := t.store + NewRows(f.items, t.store);
    Totals(store, t.inserted + |store| - |t.store|, t.processed + |Ids(f.items)|, t.requests + f.requests,
           t.errors + f.errors,
           t.truncated + f.truncated)
  }

  function AfterAll(v: Vendor, tickers: seq<int>, t: Totals, ws: seq<Window>): Totals
    decreases |ws|
  {
    if ws == [] then t else AfterAll(v, tickers, AfterWindow(v, tickers, t, ws[0]), ws[1..])
  }

  lemma {:induction false} AfterAllSplit(v: Vendor, tickers: seq<int>, t: Totals, a: seq<Window>, b: seq<Window>)
    ensures AfterAll(v, tickers, t, a + b) == AfterAll(v, tickers, AfterAll(v, tickers, t, a), b)
    decreases |a|
  {
    hide AfterWindow;
    if a == [] {
      assert a + b == b;
    } else {
      assert (a + b)[0] == a[0] && (a + b)[1..] == a[1..] + b;
      AfterAllSplit(v, tickers, AfterWindow(v, tickers, t, a[0]), a[1..], b);
    }
  }

  /** Counts of `b` on top of those of `a`. */
  function OnTop(a: Totals, b: Totals): Totals {
    Totals(b.store, a.inserted + b.inserted, a.processed + b.processed, a.requests + b.requests, a.errors + b.errors,
           a.truncated + b.truncated)
  }

  /** A call that starts its counts afresh counts what it adds. */
  lemma {:induction false} FreshCounts(v: Vendor, tickers: seq<int>, t: Totals, u: Totals, ws: seq<Window>)
    ensures AfterAll(v, tickers, OnTop(t, u), ws) == OnTop(t, AfterAll(v, tickers, u, ws))
    decreases |ws|
  {
    if ws != [] {
      assert AfterWindow(v, tickers, OnTop(t, u), ws[0]) == OnTop(t, AfterWindow(v, tickers, u, ws[0]));
      hide AfterWindow;
      FreshCounts(v, tickers, t, AfterWindow(v, tickers, u, ws[0]), ws[1..]);
    }
  }

  /** What is counted as inserted is the number of articles newly stored. */
  lemma {:induction false} InsertedIsNew(v: Vendor, tickers: seq<int>, t: Totals, ws: seq<Window>)
    ensures var r := AfterAll(v, tickers, t, ws); r.inserted - t.inserted == |r.store| - |t.store|
    decreases |ws|
  {
    if ws != [] {
      InsertedIsNew(v, tickers, AfterWindow(v, tickers, t, ws[0]), ws[1..]);
    }
  }

  /** A store keeps every row, and gains exactly the ids the windows fetched. */
  function FetchedIds(v: Vendor, tickers: seq<int>, ws: seq<Window>): set<int> {
    if ws == [] then {} else Ids(FetchAll(v, tickers, ws[0]).items) + FetchedIds(v, tickers, ws[1..])
  }

  lemma WindowGains(v: Vendor, tickers: seq<int>, t: Totals, w: Window)
    ensures var after := AfterWindow(v, tickers, t, w).store;
            && after.Keys == t.store.Keys + Ids(FetchAll(v, tickers, w).items)
            && (forall id :: id in t.store ==> id in after && after[id] == t.store[id])
            && forall id :: id in after && id !in t.store ==> after[id] == TickersOf(FetchAll(v, tickers, w).items, id)
    ensures var f, u := FetchAll(v, tickers, w), AfterWindow(v, tickers, t, w);
            && u.inserted - t.inserted == |u.store| - |t.store| && u.processed == t.processed + |Ids(f.items)|
            && u.requests == t.requests + f.requests && u.errors == t.errors + f.errors
            && u.truncated == t.truncated + f.truncated
  {
    hide TickersOf, FetchAll;
  }

  lemma {:induction false} StoreGainsFetched(v: Vendor, tickers: seq<int>, t: Totals, ws: seq<Window>)
    ensures var r := AfterAll(v, tickers, t, ws);
            && r.store.Keys == t.store.Keys + FetchedIds(v, tickers, ws)
            && forall id :: id in t.store ==> id in r.store && r.store[id] == t.store[id]
    decreases |ws|
  {
    if ws != [] {
      var after := AfterWindow(v, tickers, t, ws[0]);
      WindowGains(v, tickers, t, ws[0]);
      hide AfterWindow, Ids, FetchAll;
      StoreGainsFetched(v, tickers, after, ws[1..]);
    }
  }

  // ---- One bounded call ---------------------------------------------------------------------------

  datatype Limits = Limits(maxInserts: Option<nat>, maxRequests: Option<nat>)

  /** Whether a call stops before another window. */
  predicate Stops(l: Limits, t: Totals, tickers: seq<int>) {
    (l.maxInserts.Some? && t.inserted >= l.maxInserts.value)
    || (l.maxRequests.Some? && t.requests + |tickers| > l.maxRequests.value)
  }

  lemma StopsMean(l: Limits, tickers: seq<int>)
    ensures forall t :: Stops(l, t, tickers) <==>
              (l.maxInserts.Some? && t.inserted >= l.maxInserts.value)
              || (l.maxRequests.Some? && t.requests + |tickers| > l.maxRequests.value)
  {
  }

  function Clamp(days: int, total: int): int {
    Min(total, Max(0, days))
  }

  /** The days of the whole range done once everything before `day` is. */
  function DaysDone(rangeStart: int, until: int, day: int): int {
    Clamp(day - rangeStart, Max(0, until - rangeStart + 1))
  }

  /** Days count from the start of the range, none before it and none past its end. */
  lemma DaysDoneMeans(rangeStart: int, until: int, day: int)
    ensures rangeStart <= day <= until + 1 ==> rangeStart + DaysDone(rangeStart, until, day) == day
    ensures day < rangeStart || until < rangeStart ==> DaysDone(rangeStart, until, day) == 0
    ensures day > until >= rangeStart ==> DaysDone(rangeStart, until, day) == until - rangeStart + 1
  {
  }

  function Reports(rangeStart: int, until: int, from: int, ws: seq<Window>): seq<int> {
    [DaysDone(rangeStart, until, from)]
      + seq(|ws|, i requires 0 <= i < |ws| => DaysDone(rangeStart, until, ws[i].until + 1))
  }

  method FetchTickers(v: Vendor, tickers: seq<int>, w: Window) returns (fetched: Fetched)
    ensures fetched == FetchAll(v, tickers, w)
  {
    hide FetchSpan;
    fetched := Fetched([], 0, 0, 0);
    for i := 0 to |tickers|
      invariant fetched == FetchAll(v, tickers[..i], w)
    {
      assert tickers[..i + 1][..i] == tickers[..i];
      var one := FetchSpan(v, tickers[i], w);
      fetched := Both(fetched, one);
    }
    assert tickers[..|tickers|] == tickers;
  }

  /** One window: fetched for every ticker, merged, and saved. */
  method SaveWindow(v: Vendor, tickers: seq<int>, t: Totals, w: Window) returns (after: Totals)
    ensures after == AfterWindow(v, tickers, t, w)
  {
    hide FetchAll, NewRows, Ids, OneEach, TickersOf;
    var fetched := FetchTickers(v, tickers, w);
    var merged := MergeDuplicateItems(fetched.items);
    MergedRows(fetched.items, merged, t.store);
    OnePerId(merged);
    var store, inserted := SaveItems(merged, t.store);
    after := Totals(store, t.inserted + inserted, t.processed + |merged|, t.requests + fetched.requests,
                    t.errors + fetched.errors,
                    t.truncated + fetched.truncated);
  }

  lemma {:induction false} OnePerId(items: seq<Item>)
    requires OneEach(items)
    ensures |Ids(items)| == |items|
  {
    if items != [] {
      var n := |items| - 1;
      OnePerId(items[..n]);
      assert items == items[..n] + [items[n]];
      IdsOfParts(items[..n], [items[n]]);
      assert Ids([items[n]]) == {items[n].id};
      assert items[n].id !in Ids(items[..n]);
    }
  }

  /** Walks the windows in order; the first always runs, and a limit stops it only between windows. */
  method BackfillHistoricalNews(v: Vendor, tickers: seq<int>, from: int, until: int, rangeStart: int, size: int,
                                store: Store, l: Limits)
    returns (t: Totals, nextFrom: Option<int>, reports: seq<int>, done: nat)
    requires size >= 1
    ensures var ws := Windows(from, until, size);
            && done <= |ws| && (ws != [] ==> done > 0)
            && t == AfterAll(v, tickers, Fresh(store), ws[..done])
            && nextFrom == (if done < |ws| then Some(ws[done].from) else None)
            && (done < |ws| ==> Stops(l, t, tickers))
            && (forall k :: 0 < k < done ==> !Stops(l, AfterAll(v, tickers, Fresh(store), ws[..k]), tickers))
            && reports == Reports(rangeStart, until, from, ws[..done])
    ensures var ws := Windows(from, until, size);
            && (done < |ws| ==>
                  (l.maxInserts.Some? && t.inserted >= l.maxInserts.value)
                  || (l.maxRequests.Some? && t.requests + |tickers| > l.maxRequests.value))
            && forall k :: 0 < k < done ==>
                 var u := AfterAll(v, tickers, Fresh(store), ws[..k]);
                 && (l.maxInserts.Some? ==> u.inserted < l.maxInserts.value)
                 && (l.maxRequests.Some? ==> u.requests + |tickers| <= l.maxRequests.value)
  {
    StopsMean(l, tickers);
    hide AfterWindow, AfterAll, Stops, DaysDone;
    var r := BuildWindows(from, until, size);
    var ws := r.value;
    t, nextFrom, done := Fresh(store), None, 0;
    reports := [DaysDone(rangeStart, until, from)];
    assert ws[..0] == [];
    NoWindows(v, tickers, Fresh(store));
    while done < |ws|
      invariant done <= |ws| && nextFrom == None
      invariant t == AfterAll(v, tickers, Fresh(store), ws[..done])
      invariant forall k :: 0 < k < done ==> !Stops(l, AfterAll(v, tickers, Fresh(store), ws[..k]), tickers)
      invariant reports == Reports(rangeStart, until, from, ws[..done])
    {
      if done > 0 && Stops(l, t, tickers) {
        nextFrom := Some(ws[done].from);
        break;
      }
      assert ws[..done + 1] == ws[..done] + [ws[done]];
      OneMore(v, tickers, Fresh(store), ws[..done], ws[done]);
      t := SaveWindow(v, tickers, t, ws[done]);
      reports := reports + [DaysDone(rangeStart, until, ws[done].until + 1)];
      done := done + 1;
    }
  }

  lemma NoWindows(v: Vendor, tickers: seq<int>, t: Totals)
    ensures AfterAll(v, tickers, t, []) == t
  {
  }

  lemma OneMore(v: Vendor, tickers: seq<int>, t: Totals, ws: seq<Window>, w: Window)
    ensures AfterAll(v, tickers, t, ws + [w]) == AfterWindow(v, tickers, AfterAll(v, tickers, t, ws), w)
  {
    AfterAllSplit(v, tickers, t, ws, [w]);
    hide AfterWindow;
    assert [w][1..] == [];
  }

  ghost predicate Rising(s: seq<int>) {
    forall i, j :: 0 <= i <= j < |s| ==> s[i] <= s[j]
  }

  /** Progress never goes back within a call, stays within the range, and ends where the next part starts. */
  lemma ReportsRise(rangeStart: int, until: int, from: int, size: int, done: nat)
    requires size >= 1 && done <= |Windows(from, until, size)|
    ensures var ws := Windows(from, until, size);
            var r := Reports(rangeStart, until, from, ws[..done]);
            && r != [] && Rising(r) && (forall x :: x in r ==> 0 <= x <= Max(0, until - rangeStart + 1))
            && r[0] == DaysDone(rangeStart, until, from)
            && (0 < done < |ws| ==> r[|r| - 1] == DaysDone(rangeStart, until, ws[done].from))
            && (done == |ws| && from <= until ==> r[|r| - 1] == Max(0, until - rangeStart + 1))
  {
    hide DaysDone, Reports, Rising;
    var ws := Windows(from, until, size);
    WindowsTileTheRange(from, until, size);
    hide Windows;
    var days := FirstDays(from, ws[..done]);
    DaysRise(from, ws, done);
    ReportsAre(rangeStart, until, from, ws[..done], days);
    DoneRises(rangeStart, until, days, Reports(rangeStart, until, from, ws[..done]));
    DaysDoneRises(rangeStart, until, until + 1, until + 1);
  }

  /** The day each report counts up to: the first day, then the one after each window. */
  function FirstDays(from: int, ws: seq<Window>): seq<int> {
    [from] + seq(|ws|, i requires 0 <= i < |ws| => ws[i].until + 1)
  }

  lemma DaysRise(from: int, ws: seq<Window>, done: nat)
    requires done <= |ws| && (ws != [] ==> ws[0].from == from)
    requires forall k :: 0 <= k < |ws| ==> ws[k].from <= ws[k].until
    requires forall k :: 0 <= k < |ws| - 1 ==> ws[k + 1].from == ws[k].until + 1
    ensures Rising(FirstDays(from, ws[..done]))
  {
    var days := FirstDays(from, ws[..done]);
    forall i, j | 0 <= i <= j < |days| ensures days[i] <= days[j] {
      if 0 < i {
        EndsRise(ws, i - 1, j - 1);
      } else if 0 < j {
        EndsRise(ws, 0, j - 1);
      }
    }
  }

  lemma ReportsAre(rangeStart: int, until: int, from: int, ws: seq<Window>, days: seq<int>)
    requires |days| == |ws| + 1 && days[0] == from && forall i :: 0 <= i < |ws| ==> days[i + 1] == ws[i].until + 1
    ensures |Reports(rangeStart, until, from, ws)| == |days|
    ensures forall i :: 0 <= i < |days| ==>
              Reports(rangeStart, until, from, ws)[i] == DaysDone(rangeStart, until, days[i])
  {
    hide DaysDone;
    var r := Reports(rangeStart, until, from, ws);
    forall i | 0 <= i < |days| ensures r[i] == DaysDone(rangeStart, until, days[i]) {
      if i > 0 {
        assert days[(i - 1) + 1] == ws[i - 1].until + 1;
      }
    }
  }

  lemma DoneRises(rangeStart: int, until: int, days: seq<int>, r: seq<int>)
    requires Rising(days) && |r| == |days| && forall i :: 0 <= i < |r| ==> r[i] == DaysDone(rangeStart, until, days[i])
    ensures Rising(r) && forall x :: x in r ==> 0 <= x <= Max(0, until - rangeStart + 1)
  {
    hide DaysDone;
    forall i, j | 0 <= i <= j < |r| ensures r[i] <= r[j] && 0 <= r[i] <= Max(0, until - rangeStart + 1) {
      DaysDoneRises(rangeStart, until, days[i], days[j]);
    }
    assert forall i :: 0 <= i < |r| ==> r[i] <= r[i];
  }

  lemma DaysDoneRises(rangeStart: int, until: int, a: int, b: int)
    requires a <= b
    ensures DaysDone(rangeStart, until, a) <= DaysDone(rangeStart, until, b)
    ensures 0 <= DaysDone(rangeStart, until, a) <= Max(0, until - rangeStart + 1)
    ensures a == until + 1 ==> DaysDone(rangeStart, until, a) == Max(0, until - rangeStart + 1)
  {
  }

  lemma {:induction false} EndsRise(ws: seq<Window>, i: nat, j: nat)
    requires i <= j < |ws|
    requires forall k :: 0 <= k < |ws| ==> ws[k].from <= ws[k].until
    requires forall k :: 0 <= k < |ws| - 1 ==> ws[k + 1].from == ws[k].until + 1
    ensures ws[i].until <= ws[j].until
  {
    if i < j {
      EndsRise(ws, i, j - 1);
      assert ws[(j - 1) + 1].from == ws[j - 1].until + 1;
    }
  }

  // ---- The chain of parts ---------------------------------------------------------------------------

  const MAX_BACKFILL_PARTS := 50

  /** The queue message of a part. */
  datatype Job = Job(from: int, part: nat, insertedSoFar: int, errorCountSoFar: nat, truncatedSoFar: nat)

  datatype Outcome = Completed(inserted: int, errorCount: nat, truncated: nat, parts: nat) | TooManyParts(inserted: int)

  /**
   * Handles the first message and every continuation it sends. Either the chain completes, and then it has
   * stored and counted exactly what one unbounded call over the whole range would, or it gives up after its
   * last allowed part, having done a first part of the same windows. Progress never goes back.
   */
  method RunBackfill(v: Vendor, tickers: seq<int>, from: int, until: int, size: int, store: Store, l: Limits)
    returns (after: Store, outcome: Outcome, reports: seq<int>, ghost done: nat)
    requires size >= 1
    ensures Rising(reports)
    ensures outcome.Completed? ==>
              var t := AfterAll(v, tickers, Fresh(store), Windows(from, until, size));
              && after == t.store && 1 <= outcome.parts <= MAX_BACKFILL_PARTS
              && outcome.inserted == t.inserted == |after| - |store|
              && outcome.errorCount == t.errors && outcome.truncated == t.truncated
    ensures outcome.TooManyParts? ==>
              && MAX_BACKFILL_PARTS <= done < |Windows(from, until, size)|
              && after == AfterAll(v, tickers, Fresh(store), Windows(from, until, size)[..done]).store
              && outcome.inserted == |after| - |store|
  {
    hide AfterWindow, AfterAll, Stops, DaysDone, Reports, Rising;
    ghost var ws := Windows(from, until, size);
    var job := Job(from, 1, 0, 0, 0);
    after, reports, done := store, [], 0;
    assert ws[..0] == [] && ws[0..] == ws;
    NoWindows(v, tickers, Fresh(store));
    NoReports();
    while true
      invariant done <= |ws| && 1 <= job.part <= MAX_BACKFILL_PARTS && job.part <= done + 1
      invariant job.part > 1 ==> done < |ws|
      invariant Windows(job.from, until, size) == ws[done..]
      invariant Carries(AfterAll(v, tickers, Fresh(store), ws[..done]), after, job)
      invariant Rising(reports) && (reports != [] ==> reports[|reports| - 1] == DaysDone(from, until, job.from))
      decreases MAX_BACKFILL_PARTS - job.part
    {
      var t, nextFrom, partReports, k := BackfillHistoricalNews(v, tickers, job.from, until, from, size, after, l);
      PartsAdd(v, tickers, store, ws, done, k, after, job, t);
      ReportsRise(from, until, job.from, size, k);
      JoinReports(reports, partReports);
      InsertedIsNew(v, tickers, Fresh(store), ws[..done + k]);
      reports := reports + partReports;
      after := t.store;
      done := done + k;
      var inserted := job.insertedSoFar + t.inserted;
      if nextFrom.None? {
        assert ws[..done] == ws;
        outcome := Completed(inserted, job.errorCountSoFar + t.errors, job.truncatedSoFar + t.truncated, job.part);
        return;
      }
      if job.part >= MAX_BACKFILL_PARTS {
        outcome := TooManyParts(inserted);
        return;
      }
      ContinueFromWindow(from, until, size, done);
      job := Job(nextFrom.value, job.part + 1, inserted, job.errorCountSoFar + t.errors,
                 job.truncatedSoFar + t.truncated);
    }
  }

  /** The message carries the counts of the parts so far. */
  ghost predicate Carries(t: Totals, store: Store, job: Job) {
    t.store == store && t.inserted == job.insertedSoFar && t.errors == job.errorCountSoFar
    && t.truncated == job.truncatedSoFar
  }

  lemma {:induction false} PartsAdd(v: Vendor, tickers: seq<int>, store: Store, ws: seq<Window>, done: nat, k: nat,
                                    after: Store, job: Job, t: Totals)
    requires done <= |ws| && k <= |ws[done..]| && t == AfterAll(v, tickers, Fresh(after), ws[done..][..k])
    requires Carries(AfterAll(v, tickers, Fresh(store), ws[..done]), after, job)
    ensures var all := AfterAll(v, tickers, Fresh(store), ws[..done + k]);
            && all.store == t.store && all.inserted == job.insertedSoFar + t.inserted
            && all.errors == job.errorCountSoFar + t.errors && all.truncated == job.truncatedSoFar + t.truncated
  {
    hide AfterAll;
    assert ws[..done + k] == ws[..done] + ws[done..][..k];
    AfterAllSplit(v, tickers, Fresh(store), ws[..done], ws[done..][..k]);
    var before := AfterAll(v, tickers, Fresh(store), ws[..done]);
    assert OnTop(before, Fresh(after)) == before;
    FreshCounts(v, tickers, before, Fresh(after), ws[done..][..k]);
  }

  lemma NoReports()
    ensures Rising([])
  {
  }

  lemma JoinReports(a: seq<int>, b: seq<int>)
    requires Rising(a) && Rising(b) && b != [] && (a != [] ==> a[|a| - 1] <= b[0])
    ensures Rising(a + b)
  {
    var s := a + b;
    forall i, j | 0 <= i <= j < |s| ensures s[i] <= s[j] {
      if i < |a| <= j {
        assert a[i] <= a[|a| - 1] && b[0] <= b[j - |a|];
      }
    }
  }
}
