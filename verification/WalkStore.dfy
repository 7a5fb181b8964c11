/**
 * What a walk (src/backtest/onSignalRunner.js) leaves in the run's store: every reported item is finished or counted as
 * skipped, no other item's checkpoint is written, and what is finished stays as it is.
 */
module WalkStore {
  import opened Collections
  import opened Pipeline
  import opened SignalWalk

  ghost predicate Finished<B, D>(s: Store<B, D>, key: RunKey) {
    key in s.checkpoints && s.checkpoints[key].stage == PortfolioChecked
  }

  /** The checkpoints of the items reported: of the item's id, its ticker and the window. */
  ghost function Reported(w: Window, events: seq<Event>): set<RunKey> {
    set event | event in events && event.ItemDone? && event.ticker < |w.tickers|
      :: RunKey(w.testStart, w.tickers[event.ticker], event.key.id)
  }

  ghost function Unfinished<B, D>(s: Store<B, D>, keys: set<RunKey>): set<RunKey> {
    set key | key in keys && !Finished(s, key)
  }

  /** What came of reporting `events`: the store before, the store after, and how many more items were skipped. */
  ghost predicate Accounts<B, D>(w: Window, events: seq<Event>, s: Store<B, D>, t: Store<B, D>, skips: int) {
    && t.checkpoints - Reported(w, events) == s.checkpoints - Reported(w, events)
    && (forall key :: Finished(s, key) ==> Finished(t, key) && t.checkpoints[key] == s.checkpoints[key])
    && |Unfinished(t, Reported(w, events))| <= skips
    && Written(t)
  }

  lemma ReportedNext(w: Window, events: seq<Event>, event: Event)
    ensures Reported(w, events + [event]) == Reported(w, events) + Reported(w, [event])
    ensures event.ItemDone? && event.ticker < |w.tickers| ==>
              Reported(w, [event]) == {RunKey(w.testStart, w.tickers[event.ticker], event.key.id)}
    ensures !event.ItemDone? ==> Reported(w, [event]) == {}
  {
  }

  lemma {:induction false} KeyOfItemAt(items: seq<NewsItem>, key: Key)
    ensures ItemAt(items, key).Some? ==>
              && ItemAt(items, key).value in items
              && ItemAt(items, key).value.id == key.id && ItemAt(items, key).value.publishedAt == key.publishedAt
  {
    if items != [] && ItemKey(items[0]) != key {
      KeyOfItemAt(items[1..], key);
    }
  }

  lemma RedoAccounts<B, D>(e: Engine<B, D>, w: Window, news: News, event: Event, s: Store<B, D>, skipped: nat)
    requires Written(s) && Redo(e, w, news, event, s, skipped).Some?
    ensures var r := Redo(e, w, news, event, s, skipped).value; Accounts(w, [event], s, r.0, r.1 - skipped)
  {
    ReportedNext(w, [], event);
    assert [] + [event] == [event];
    var r := Redo(e, w, news, event, s, skipped).value;
    match event
    case ItemDone(_, t, k) =>
      var key := RunKey(w.testStart, w.tickers[t], k.id);
      KeyOfItemAt(news[w.tickers[t]], k);
      var job := Job(w.testStart, w.tickers[t], ItemAt(news[w.tickers[t]], k).value);
      PipelineKeepsOthers(e.desk, job, s);
      PipelineMeans(e.desk, job, s);
      hide RunPipeline;
      OneKey(s, r.0, key);
      assert Unfinished(r.0, {key}) == if Finished(r.0, key) then {} else {key};
    case _ =>
      assert Unfinished(r.0, {}) == {};
  }

  lemma OneKey<B, D>(s: Store<B, D>, t: Store<B, D>, key: RunKey)
    requires OthersSame(s, t, key)
    ensures forall k :: k != key ==> (k in t.checkpoints <==> k in s.checkpoints)
    ensures forall k :: k != key && k in s.checkpoints ==> t.checkpoints[k] == s.checkpoints[k]
  {
    forall k | k != key
      ensures k in t.checkpoints <==> k in s.checkpoints
      ensures k in s.checkpoints ==> t.checkpoints[k] == s.checkpoints[k]
    {
      assert k in t.checkpoints - {key} <==> k in s.checkpoints - {key};
      if k in s.checkpoints {
        assert (t.checkpoints - {key})[k] == (s.checkpoints - {key})[k];
      }
    }
  }

  lemma AccountsJoin<B, D>(w: Window, events: seq<Event>, event: Event, s: Store<B, D>, t: Store<B, D>, u: Store<B, D>,
                           a: int, b: int)
    requires Accounts(w, events, s, t, a) && Accounts(w, [event], t, u, b)
    ensures Accounts(w, events + [event], s, u, a + b)
  {
    ReportedNext(w, events, event);
    var before, now := Reported(w, events), Reported(w, [event]);
    hide Finished, Reported, Unfinished, Written;
    OthersJoin(s.checkpoints, t.checkpoints, u.checkpoints, before, now);
    UnfinishedJoin(t, u, before, now);
  }

  lemma OthersJoin<K, V>(s: map<K, V>, t: map<K, V>, u: map<K, V>, before: set<K>, now: set<K>)
    requires t - before == s - before && u - now == t - now
    ensures u - (before + now) == s - (before + now)
  {
    assert u - (before + now) == (u - now) - before;
    assert s - (before + now) == (s - before) - now;
    assert (t - now) - before == (t - before) - now;
  }

  lemma UnfinishedJoin<B, D>(t: Store<B, D>, u: Store<B, D>, before: set<RunKey>, now: set<RunKey>)
    requires forall key :: Finished(t, key) ==> Finished(u, key)
    ensures |Unfinished(u, before + now)| <= |Unfinished(t, before)| + |Unfinished(u, now)|
  {
    var left, more := Unfinished(t, before), Unfinished(u, now);
    assert Unfinished(u, before + now) <= left + more;
    Smaller(Unfinished(u, before + now), left + more);
  }

  lemma Smaller<T>(a: set<T>, b: set<T>)
    requires a <= b
    ensures |a| <= |b|
  {
    assert |b| == |a| + |b - a| by {
      assert b == a + (b - a);
    }
  }

  /**
   * Every reported item is finished, except for as many as were skipped meanwhile; the checkpoints of all other items
   * are as they were, and so is every finished one.
   */
  lemma {:induction false} ReplayMeans<B, D>(e: Engine<B, D>, w: Window, news: News, events: seq<Event>, s: Store<B, D>,
                                             skipped: nat)
    requires Written(s) && Replay(e, w, news, events, s, skipped).Some?
    ensures var r := Replay(e, w, news, events, s, skipped).value; Accounts(w, events, s, r.0, r.1 - skipped)
    decreases |events|
  {
    if events == [] {
      assert Reported(w, events) == {} && Unfinished(s, {}) == {};
    } else {
      var n := |events| - 1;
      ReplayMeans(e, w, news, events[..n], s, skipped);
      var r := Replay(e, w, news, events[..n], s, skipped).value;
      RedoAccounts(e, w, news, events[n], r.0, r.1);
      var u := Redo(e, w, news, events[n], r.0, r.1).value;
      hide Redo, Replay, Accounts;
      AccountsJoin(w, events[..n], events[n], s, r.0, u.0, r.1 - skipped, u.1 - r.1);
      assert events[..n] + [events[n]] == events;
    }
  }

  /** A walk that skipped nothing has finished every item it reported, each under its own ticker and window. */
  lemma WalkFinishes<B, D>(e: Engine<B, D>, w: Window, news: News, st0: RunState<B, D>, st: RunState<B, D>,
                           event: Event)
    requires Written(st0.store) && Wrought(e, w, news, st0, st) && st.skipped == st0.skipped
    requires event in st.trace[|st0.trace|..] && event.ItemDone? && event.ticker < |w.tickers|
    ensures Finished(st.store, RunKey(w.testStart, w.tickers[event.ticker], event.key.id))
  {
    var events := st.trace[|st0.trace|..];
    ReplayMeans(e, w, news, events, st0.store, st0.skipped);
    hide Replay, Finished;
    var key := RunKey(w.testStart, w.tickers[event.ticker], event.key.id);
    assert key in Reported(w, events);
    assert Unfinished(st.store, Reported(w, events)) == {};
    assert key !in Unfinished(st.store, Reported(w, events));
  }

  /** A held walk has changed, beside what it reported, at most the checkpoint of the item it is held at. */
  lemma HeldMeans<B, D>(e: Engine<B, D>, w: Window, news: News, c: Cursor, st0: RunState<B, D>, st: RunState<B, D>)
    requires Written(st0.store) && HeldAt(e, w, news, c, st0, st)
    ensures var done := Reported(w, st.trace[|st0.trace|..]);
            if c.exits then st.store.checkpoints - done == st0.store.checkpoints - done
            else
              && c.ticker < |w.tickers|
              && exists item :: item in DayItems(news, w, c.ticker, c.day)
                   && var kept := done + {RunKey(w.testStart, w.tickers[c.ticker], item.id)};
                      st.store.checkpoints - kept == st0.store.checkpoints - kept
  {
    var events := st.trace[|st0.trace|..];
    ReplayMeans(e, w, news, events, st0.store, st0.skipped);
    hide Replay;
    if !c.exits {
      var items := DayItems(news, w, c.ticker, c.day);
      var left := ItemsAfter(items, c.after);
      assert left[0] in left && left[0] in items;
      var done, key := Reported(w, events), RunKey(w.testStart, w.tickers[c.ticker], left[0].id);
      var r := Replay(e, w, news, events, st0.store, st0.skipped).value.0;
      assert st.store.checkpoints - (done + {key}) == (st.store.checkpoints - {key}) - done;
      assert st0.store.checkpoints - (done + {key}) == (st0.store.checkpoints - done) - {key};
      assert (r.checkpoints - {key}) - done == (r.checkpoints - done) - {key};
    }
  }
}
