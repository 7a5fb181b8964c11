/**
 * A whole run: parts chained by their cursors, each with a fresh budget. Whatever the budgets and the
 * outages, the chain does what one uninterrupted run does, and it ends; it gives up exactly when the vendor
 * was out too often at one spot.
 */
module RunChain {
  import opened Collections
  import opened Budget
  import opened Pipeline
  import opened SignalWalk
  import opened WalkOrder
  import opened RunOrder
  import opened BacktestRun

  /** What bounds the parts left: parts under the cap first, then idle parts left in a row. */
  function PartsLeft(maxParts: nat, cursor: Option<RunCursor>): int {
    (maxParts - CountedBefore(cursor)) * (MAX_IDLE_PARTS_IN_A_ROW + 1) - IdleBefore(cursor)
  }

  lemma AllPartsLeft(maxParts: nat)
    ensures PartsLeft(maxParts, None) == (MAX_IDLE_PARTS_IN_A_ROW + 1) * maxParts
  {
  }

  /** Every continued part lowers it, and it stays positive: no chain is longer than 1001 x maxParts parts. */
  lemma PartsLeftDrops(p: RunParams, cursor: Option<RunCursor>, c: RunCursor)
    requires p.maxParts.Some? && IdleBefore(cursor) <= MAX_IDLE_PARTS_IN_A_ROW
    requires CountsOn(p, cursor, c)
    ensures 0 < PartsLeft(p.maxParts.value, Some(c)) < PartsLeft(p.maxParts.value, cursor)
    ensures c.idleStreak <= MAX_IDLE_PARTS_IN_A_ROW
  {
    var m := p.maxParts.value;
    assert (m - c.countedParts) * 1001 >= 1001;
    if c.idleStreak == 0 {
      assert (m - c.countedParts) * 1001 == (m - CountedBefore(cursor)) * 1001 - 1001;
    }
  }

  // ---- Stalls -------------------------------------------------------------------------

  /** One hand-over of the walk: where it paused, and whether the vendor (not for the whole day) was out. */
  datatype Pause = Pause(window: nat, cursor: Cursor, outage: bool)

  function SpotHere(p: Pause): Spot {
    SpotOf(p.window, p.cursor)
  }

  /** The stall record after these hand-overs, as the parts carry it. */
  function StallAfter(ps: seq<Pause>): Option<Stall> {
    if ps == [] then None
    else
      var last := ps[|ps| - 1];
      var prev := StallAfter(ps[..|ps| - 1]);
      if last.outage then Some(NextStall(prev, SpotHere(last))) else prev
  }

  function OutagesAt(ps: seq<Pause>, spot: Spot): nat {
    if ps == [] then 0
    else
      (if ps[|ps| - 1].outage && SpotHere(ps[|ps| - 1]) == spot then 1 else 0) + OutagesAt(ps[..|ps| - 1], spot)
  }

  predicate NotBefore(a: Pause, b: Pause) {
    a.window < b.window || (a.window == b.window && Advances(a.cursor, b.cursor))
  }

  /** The walk only moves forward, an outage stops it at an item, and every resume key is one of the news'. */
  ghost predicate Forward(news: News, ps: seq<Pause>) {
    && (forall i, j :: 0 <= i < j < |ps| ==> NotBefore(ps[i], ps[j]))
    && (forall i :: 0 <= i < |ps| ==> KnownKey(news, ps[i].cursor.after) && (ps[i].outage ==> !ps[i].cursor.exits))
  }

  /** One more pause, not before the last one. */
  lemma ForwardPushed(news: News, ps: seq<Pause>, p: Pause)
    requires Forward(news, ps)
    requires KnownKey(news, p.cursor.after) && (p.outage ==> !p.cursor.exits)
    requires ps != [] ==> NotBefore(ps[|ps| - 1], p)
    ensures Forward(news, ps + [p])
  {
    hide KnownKey;
    forall i | 0 <= i < |ps| ensures NotBefore(ps[i], p) {
      assert i == |ps| - 1 || NotBefore(ps[i], ps[|ps| - 1]);
    }
  }

  /** A spot names its resume key: by its id. */
  lemma SpotNamesKey(news: News, a: Pause, b: Pause)
    requires UniqueIds(news) && KnownKey(news, a.cursor.after) && KnownKey(news, b.cursor.after)
    requires SpotHere(a) == SpotHere(b)
    ensures a.cursor.after == b.cursor.after
  {
  }

  /** Between two outages at one spot every outage is at that spot. */
  lemma Sandwich(news: News, ps: seq<Pause>, i: nat, m: nat, n: nat)
    requires UniqueIds(news)
    requires Forward(news, ps) && i < m < n < |ps|
    requires ps[i].outage && ps[m].outage && ps[n].outage && SpotHere(ps[i]) == SpotHere(ps[n])
    ensures SpotHere(ps[m]) == SpotHere(ps[n])
  {
    assert NotBefore(ps[i], ps[m]) && NotBefore(ps[m], ps[n]);
    SpotNamesKey(news, ps[i], ps[n]);
    hide KnownKey, UniqueIds;
  }

  /** The stall record names the last outage's spot. */
  lemma {:induction false} StallNamesLastOutage(ps: seq<Pause>) returns (m: nat)
    requires StallAfter(ps).Some?
    ensures m < |ps| && ps[m].outage && SpotHere(ps[m]) == StallAfter(ps).value.spot
    ensures forall k :: m < k < |ps| ==> !ps[k].outage
  {
    var n := |ps| - 1;
    if ps[n].outage {
      m := n;
    } else {
      m := StallNamesLastOutage(ps[..n]);
    }
  }

  lemma {:induction false} SomeOutageAt(ps: seq<Pause>, spot: Spot) returns (i: nat)
    requires OutagesAt(ps, spot) > 0
    ensures i < |ps| && ps[i].outage && SpotHere(ps[i]) == spot
  {
    var n := |ps| - 1;
    if ps[n].outage && SpotHere(ps[n]) == spot {
      i := n;
    } else {
      i := SomeOutageAt(ps[..n], spot);
    }
  }

  /**
   * However budget pauses come in between, a stall record counts exactly the outage pauses at its spot;
   * there is none exactly when no outage happened.
   */
  lemma {:induction false} StallCountsItsOutages(news: News, ps: seq<Pause>)
    requires UniqueIds(news)
    requires Forward(news, ps)
    ensures StallAfter(ps).Some? <==> exists k :: 0 <= k < |ps| && ps[k].outage
    ensures StallAfter(ps).Some? ==> StallAfter(ps).value.count == OutagesAt(ps, StallAfter(ps).value.spot)
  {
    hide KnownKey, UniqueIds;
    if ps != [] {
      var n := |ps| - 1;
      var before := ps[..n];
      StallCountsItsOutages(news, before);
      assert (exists k :: 0 <= k < |ps| && ps[k].outage) <==>
               ps[n].outage || exists k :: 0 <= k < |before| && before[k].outage;
      if ps[n].outage {
        var spot := SpotHere(ps[n]);
        if StallAfter(before).Some? && StallAfter(before).value.spot != spot && OutagesAt(before, spot) > 0 {
          var i := SomeOutageAt(before, spot);
          var m := StallNamesLastOutage(before);
          assert before[i] == ps[i] && before[m] == ps[m];
          Sandwich(news, ps, i, m, n);
          assert false;
        }
        if StallAfter(before).None? && OutagesAt(before, spot) > 0 {
          var i := SomeOutageAt(before, spot);
          assert false;
        }
      }
    }
  }

  /** No spot has seen more than `limit` outages. */
  ghost predicate Bearable(ps: seq<Pause>, limit: nat) {
    forall spot :: OutagesAt(ps, spot) <= limit
  }

  /** One more pause: an outage adds one at its own spot, where the new stall record says how many there were. */
  lemma OutagePushed(news: News, ps: seq<Pause>, p: Pause)
    requires UniqueIds(news) && Forward(news, ps + [p])
    ensures StallAfter(ps + [p]) == if p.outage then Some(NextStall(StallAfter(ps), SpotHere(p))) else StallAfter(ps)
    ensures p.outage ==> OutagesAt(ps + [p], SpotHere(p)) == NextStall(StallAfter(ps), SpotHere(p)).count
    ensures forall spot :: !p.outage || spot != SpotHere(p) ==> OutagesAt(ps + [p], spot) == OutagesAt(ps, spot)
  {
    hide KnownKey, UniqueIds, Forward;
    assert (ps + [p])[..|ps|] == ps;
    StallCountsItsOutages(news, ps + [p]);
  }

  // ---- The chain ----------------------------------------------------------------------

  /** Where the walk a cursor hands on stands: at the last pause. */
  ghost predicate StandsAt(cursor: Option<RunCursor>, ps: seq<Pause>) {
    if cursor.None? then ps == []
    else cursor.value.phase == Walking ==>
      ps != [] && cursor.value.walk.Some? && ps[|ps| - 1].window == cursor.value.window
      && ps[|ps| - 1].cursor == cursor.value.walk.value
  }

  /** The pauses after a part: with its own, when its walk was handed on or stalled out. */
  function Recorded(ps: seq<Pause>, o: Outcome): seq<Pause> {
    match o
    case Continue(c, reason, _, dailyQuota) =>
      if c.walk.Some? then ps + [Pause(c.window, c.walk.value, reason.Transient? && !dailyQuota)] else ps
    case RunFailed(StalledOut(window, at)) => ps + [Pause(window, at, true)]
    case _ => ps
  }

  ghost predicate Follows(news: News, p: RunParams, cursor: Option<RunCursor>, ps: seq<Pause>) {
    && Forward(news, ps) && StandsAt(cursor, ps)
    && (cursor.None? || cursor.value.phase == Walking ==> StallOf(cursor) == StallAfter(ps))
    && (p.maxStalls > 0 ==> Bearable(ps, p.maxStalls))
  }

  lemma CursorStands(p: RunParams, c: RunCursor)
    requires CursorFits(p, c)
    ensures c.phase == Walking <==> c.walk.Some?
  {
  }

  lemma NoPauses(news: News, p: RunParams)
    ensures Follows(news, p, None, [])
  {
  }

  /** A part's pause goes on the list. */
  lemma PauseIsForward(news: News, cursor: Option<RunCursor>, ps: seq<Pause>, p: Pause)
    requires Forward(news, ps) && StandsAt(cursor, ps)
    requires PausesAt(news, cursor, p.window, p.cursor, p.outage)
    ensures Forward(news, ps + [p])
  {
    hide KnownKey;
    if ps != [] {
      assert KnownKey(news, ps[|ps| - 1].cursor.after);
    }
    ForwardPushed(news, ps, p);
  }

  /** What a part does to the list of pauses: it stays in order, and the stall record counts the outages on it. */
  lemma PartIsRecorded(news: News, p: RunParams, cursor: Option<RunCursor>, ps: seq<Pause>, o: Outcome)
    requires UniqueIds(news) && Follows(news, p, cursor, ps)
    requires o.Continue? ==>
               var outage := o.reason.Transient? && !o.dailyQuota;
               && StallsOn(p, cursor, o.cursor, outage)
               && (o.cursor.phase == Walking <==> o.cursor.walk.Some?)
               && (o.cursor.phase == Walking ==> PausesAt(news, cursor, o.cursor.window, o.cursor.walk.value, outage))
    requires o.RunFailed? && o.why.StalledOut? ==>
               && p.maxStalls > 0
               && NextStall(StallOf(cursor), SpotOf(o.why.window, o.why.at)).count > p.maxStalls
               && PausesAt(news, cursor, o.why.window, o.why.at, true)
    ensures o.Continue? ==> Follows(news, p, Some(o.cursor), Recorded(ps, o))
    ensures Forward(news, Recorded(ps, o))
    ensures o.RunFailed? && o.why.StalledOut? ==>
              OutagesAt(Recorded(ps, o), SpotOf(o.why.window, o.why.at)) > p.maxStalls
  {
    hide Forward, KnownKey, UniqueIds, NextStall, StallAfter, OutagesAt;
    var ps1 := Recorded(ps, o);
    if ps1 != ps {
      var q := ps1[|ps|];
      assert ps1 == ps + [q];
      PauseIsForward(news, cursor, ps, q);
      OutagePushed(news, ps, q);
    }
  }

  // ---- News arriving from part to part ----------------------------------------------------

  /** The table the k-th part reads: valid, and never smaller than the one before. */
  ghost predicate Arriving(news: nat -> News) {
    && (forall k: nat :: ValidNews(news(k)) && UniqueIds(news(k)))
    && (forall k: nat :: Grown(news(k), news(k + 1)))
  }

  ghost predicate Unchanging(news: nat -> News) {
    forall k: nat :: news(k) == news(0)
  }

  lemma KnownKeyGrows(a: News, b: News, after: Option<Key>)
    requires Grown(a, b) && KnownKey(a, after)
    ensures KnownKey(b, after)
  {
    if after.Some? {
      var t, i :| t in a && i in a[t] && ItemKey(i) == after.value;
      assert t in b && i in b[t];
    }
  }

  lemma FollowsGrows(a: News, b: News, p: RunParams, cursor: Option<RunCursor>, ps: seq<Pause>)
    requires Grown(a, b) && Follows(a, p, cursor, ps)
    ensures Follows(b, p, cursor, ps)
  {
    hide KnownKey, Grown, StallAfter, Bearable, StandsAt;
    forall i | 0 <= i < |ps| ensures KnownKey(b, ps[i].cursor.after) {
      KnownKeyGrows(a, b, ps[i].cursor.after);
    }
  }

  /** The run so far: its units in order, once each, and every item the first table had behind the cursor. */
  ghost predicate KeptSoFar(p: RunParams, now: int, cursor: Option<RunCursor>, first: News, news: News,
                            trace: seq<Event>)
  {
    Sound(p, now) ==>
      var ws := PlanWindows(p, now);
      PlaceAt(ws, cursor).window <= |ws| && KeptAt(ws, PlaceAt(ws, cursor), first, news, trace)
  }

  lemma NothingKeptYet(p: RunParams, now: int, news: News)
    ensures KeptSoFar(p, now, None, news, news, []) && Grown(news, news)
  {
    hide PlanWindows, KeptAt;
    if Sound(p, now) {
      KeptAtEnds(PlanWindows(p, now), news, news, []);
    }
    GrownRefl(news);
  }

  lemma PartKept(p: RunParams, now: int, news: News, cursor: Option<RunCursor>, trace0: seq<Event>, to: RunPlace,
                 trace1: seq<Event>, first: News, before: News)
    requires Sound(p, now) && Grown(before, news)
    requires KeptSoFar(p, now, cursor, first, before, trace0) && KeepsTo(p, now, news, cursor, trace0, to, trace1)
    ensures to.window <= |PlanWindows(p, now)| && KeptAt(PlanWindows(p, now), to, first, news, trace1)
  {
    hide PlanWindows, KeptAt, Sound, Grown;
  }

  /**
   * Runs parts until one completes or fails. `news` is the table each part reads, `weather`, `daily` and `retry` say
   * what the k-th part meets; `pauses` is every place the walk was handed on from, and the one it stalled out at.
   */
  method RunAllParts<B, D>(e: Engine<B, D>, p: RunParams, news: nat -> News, weather: nat -> Weather,
                           daily: nat -> bool, retry: nat -> nat,
                           coverageOk: bool, limits: Limits, now: int, store: Store<B, D>)
    returns (o: Outcome, st: RunState<B, D>, parts: nat, ghost pauses: seq<Pause>)
    requires Arriving(news)
    requires p.testDays != Some(0)
    requires p.maxParts.Some? && p.maxParts.value >= 1
    requires limits.external >= 1 && limits.total >= 1
    ensures o.RunComplete? || o.RunFailed?
    ensures 1 <= parts <= (MAX_IDLE_PARTS_IN_A_ROW + 1) * p.maxParts.value
    ensures o.RunComplete? ==>
              && Sound(p, now)
              && var ws := PlanWindows(p, now);
                 st.steps == TotalSteps(ws) && RunKept(ws, |ws|, news(0), news(parts - 1), st.trace)
    ensures o.RunComplete? && Unchanging(news) ==>
              FromCursor(e, p, now, news(0), None, PartState(None, store, [])) == RunDone(st)
    ensures o.RunFailed? && o.why in {FutureEnd, EmptySpan, NoWindow} ==> !Sound(p, now)
    ensures o == RunFailed(WalkFailed(ItemFailed)) || o == RunFailed(WalkFailed(ExitsFailed)) ==>
              && Sound(p, now)
              && (Unchanging(news) ==>
                    FromCursor(e, p, now, news(0), None, PartState(None, store, [])) == RunBroken)
    ensures o.RunFailed? && o.why.WalkFailed? ==> o.why.fault in {ItemFailed, ExitsFailed}
    ensures o == RunFailed(TooManyParts) ==> parts >= p.maxParts.value
    ensures o == RunFailed(NoProgress) ==> parts > MAX_IDLE_PARTS_IN_A_ROW
    ensures |pauses| <= parts && Forward(news(parts - 1), pauses)
    ensures o.RunFailed? && o.why.StalledOut? <==> p.maxStalls > 0 && !Bearable(pauses, p.maxStalls)
    ensures o.RunFailed? && o.why.StalledOut? ==> OutagesAt(pauses, SpotOf(o.why.window, o.why.at)) > p.maxStalls
  {
    hide FromCursor, Sound, PlanWindows, CursorFits, TotalSteps, PausesAt, Forward, KnownKey, UniqueIds, StallAfter,
         OutagesAt, NextStall, KeptSoFar, KeepsTo, KeptAt, RunKept, Grown, PlaceAt, PartsLeft;
    AllPartsLeft(p.maxParts.value);
    parts := 0;
    var cursor: Option<RunCursor> := None;
    st := PartState(None, store, []);
    pauses := [];
    ghost var st0, seen := st, news(0);
    NoPauses(news(0), p);
    NothingKeptYet(p, now, news(0));
    while true
      invariant cursor.None? ==> st == st0 && parts == 0
      invariant cursor.Some? ==>
                  && CursorFits(p, cursor.value) && cursor.value.clockNow == now
                  && Sound(p, now)
                  && PartState(cursor, st.store, st.trace) == st
      invariant cursor.Some? && Unchanging(news) ==>
                  FromCursor(e, p, now, news(0), cursor, st) == FromCursor(e, p, now, news(0), None, st0)
      invariant Grown(seen, news(parts)) && KeptSoFar(p, now, cursor, news(0), seen, st.trace)
      invariant |pauses| <= parts && Follows(seen, p, cursor, pauses)
      invariant IdleBefore(cursor) <= MAX_IDLE_PARTS_IN_A_ROW
      invariant PartsLeft(p.maxParts.value, cursor) > 0
      invariant CountedBefore(cursor) + IdleBefore(cursor) <= parts
      invariant parts + PartsLeft(p.maxParts.value, cursor) <= (MAX_IDLE_PARTS_IN_A_ROW + 1) * p.maxParts.value
      decreases PartsLeft(p.maxParts.value, cursor)
    {
      ghost var table, was := news(parts), st.trace;
      FollowsGrows(seen, table, p, cursor, pauses);
      var budget := new SubrequestBudget(limits);
      o, st := RunManualBacktest(e, p, news(parts), weather(parts), daily(parts), retry(parts), coverageOk, budget, now,
                                 cursor, st.store, st.trace);
      parts := parts + 1;
      if o.Continue? {
        CursorStands(p, o.cursor);
      }
      PartIsRecorded(table, p, cursor, pauses, o);
      pauses := Recorded(pauses, o);
      if o.RunComplete? {
        RunIsKept(p, now, table, cursor, was, st.trace, news(0), seen);
      }
      if !o.Continue? {
        return;
      }
      HandOverIsKept(e, p, now, table, cursor, was, st, o.cursor, news(0), seen);
      PartsLeftDrops(p, cursor, o.cursor);
      cursor := Some(o.cursor);
      seen := table;
    }
  }

  lemma RunIsKept(p: RunParams, now: int, news: News, cursor: Option<RunCursor>, was: seq<Event>, trace: seq<Event>,
                  first: News, before: News)
    requires Sound(p, now) && Grown(before, news) && KeptSoFar(p, now, cursor, first, before, was)
    requires KeepsTo(p, now, news, cursor, was, RunPlace(|PlanWindows(p, now)|, START), trace)
    ensures RunKept(PlanWindows(p, now), |PlanWindows(p, now)|, first, news, trace)
  {
    hide PlanWindows, KeptAt, Grown, KeptSoFar, KeepsTo, RunKept;
    PartKept(p, now, news, cursor, was, RunPlace(|PlanWindows(p, now)|, START), trace, first, before);
    KeptAtEnds(PlanWindows(p, now), first, news, trace);
  }

  lemma HandOverIsKept<B, D>(e: Engine<B, D>, p: RunParams, now: int, news: News, cursor: Option<RunCursor>,
                             was: seq<Event>, st: RunState<B, D>, c: RunCursor, first: News, before: News)
    requires Sound(p, now) && Grown(before, news) && KeptSoFar(p, now, cursor, first, before, was)
    requires KeepsTo(p, now, news, cursor, was, PlaceAt(PlanWindows(p, now), Some(c)), st.trace)
    ensures KeptSoFar(p, now, Some(c), first, news, st.trace)
  {
    hide PlanWindows, KeptAt, Grown, KeepsTo;
    PartKept(p, now, news, cursor, was, PlaceAt(PlanWindows(p, now), Some(c)), st.trace, first, before);
  }
}
