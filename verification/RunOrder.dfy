/**
 * A whole run's order: the windows one after another, each walked by any chain of parts while news keeps
 * arriving. No unit runs twice in the run, and no item the first part could have read is skipped.
 */
module RunOrder {
  import opened Calendar
  import opened Collections
  import opened SignalWalk
  import opened WalkOrder
  import opened WalkForward

  /** One window walked to its end: its parts' records, and the grace days an early stop left out. */
  datatype Walked = Walked(legs: seq<Leg>, skippedDays: nat)

  ghost predicate WalkedOver(w: Window, base: seq<Event>, x: Walked) {
    && Chain(w, base, x.legs)
    && x.skippedDays < |Days(w)|
    && x.legs[|x.legs| - 1].to == Place(|Days(w)| - x.skippedDays, 0, None, false)
    && (x.skippedDays > 0 ==> Days(w)[|Days(w)| - x.skippedDays - 1] * DAY_MS >= w.testEnd)
  }

  function TraceAfter(x: Walked): seq<Event> {
    if x.legs == [] then [] else x.legs[|x.legs| - 1].trace1
  }

  function TraceBefore(xs: seq<Walked>, k: nat): seq<Event>
    requires k <= |xs|
  {
    if k == 0 then [] else TraceAfter(xs[k - 1])
  }

  function NewsBefore(x: Walked): News {
    if x.legs == [] then map[] else x.legs[0].news
  }

  function NewsAfter(x: Walked): News {
    if x.legs == [] then map[] else x.legs[|x.legs| - 1].news
  }

  /** Every window walked over in turn, the trace and the news handed from each to the next. */
  ghost predicate WholeRun(ws: seq<Window>, xs: seq<Walked>) {
    && |xs| == |ws|
    && (forall k :: 0 <= k < |xs| ==> WalkedOver(ws[k], TraceBefore(xs, k), xs[k]))
    && (forall k :: 0 < k < |xs| ==> Grown(NewsAfter(xs[k - 1]), NewsBefore(xs[k])))
  }

  /** A unit of one of the first `n` windows. */
  ghost predicate UnitOf(ws: seq<Window>, n: nat, news: News, e: Event)
    requires n <= |ws|
  {
    exists k :: 0 <= k < n && IsUnit(ws[k], news, e)
  }

  /** What `n` windows of a run keep: units in order and once each, and every item the first table had for them. */
  ghost predicate RunKept(ws: seq<Window>, n: nat, first: News, news: News, done: seq<Event>)
    requires n <= |ws|
  {
    && Grown(first, news)
    && Sorted(done)
    && (forall e :: e in done ==> UnitOf(ws, n, news, e))
    && (forall e: Event :: e.ItemDone? && UnitOf(ws, n, first, e) ==> e in done)
  }

  /** One window: its own units, over any chain of parts. */
  lemma WindowKeeps(w: Window, base: seq<Event>, x: Walked)
    requires WalkedOver(w, base, x)
    ensures base <= TraceAfter(x) && Grown(NewsBefore(x), NewsAfter(x))
    ensures var own := TraceAfter(x)[|base|..];
            && Sorted(own)
            && (forall e :: e in own ==> IsUnit(w, NewsAfter(x), e))
            && (forall e: Event :: e.ItemDone? && IsUnit(w, NewsBefore(x), e) ==> e in own)
  {
    hide Sorted, Before, LegOk, Grown;
    ChainKeeps(w, base, x.legs);
    EveryItemRunsOnce(w, base, x.legs, x.skippedDays);
  }

  /** A later window's units come on later days. */
  lemma LaterWindowsAreLater(ws: seq<Window>, j: nat, k: nat, a: News, x: Event, b: News, y: Event)
    requires Consecutive(ws) && j < k < |ws|
    requires IsUnit(ws[j], a, x) && IsUnit(ws[k], b, y)
    ensures Before(x, y)
  {
    StartsAfterEnd(ws, j, k);
    assert x.day <= DayOf(ws[j].walkEnd) && DayOf(ws[k].testStart) <= y.day;
  }

  lemma UnitsOfGrow(ws: seq<Window>, n: nat, a: News, b: News, e: Event)
    requires n <= |ws| && Grown(a, b) && UnitOf(ws, n, a, e)
    ensures UnitOf(ws, n, b, e)
  {
    var k :| 0 <= k < n && IsUnit(ws[k], a, e);
    UnitsGrow(ws[k], a, b, e);
  }

  /** One more window. */
  lemma NextWindowKeeps(ws: seq<Window>, n: nat, first: News, before: News, done: seq<Event>, x: Walked)
    requires Consecutive(ws) && n < |ws|
    requires RunKept(ws, n, first, before, done)
    requires Grown(before, NewsBefore(x)) && WalkedOver(ws[n], done, x)
    ensures RunKept(ws, n + 1, first, NewsAfter(x), TraceAfter(x))
  {
    hide WalkedOver, Consecutive, IsUnit, Grown, Before;
    WindowKeeps(ws[n], done, x);
    var own, news := TraceAfter(x)[|done|..], NewsAfter(x);
    assert TraceAfter(x) == done + own;
    GrownTrans(first, before, NewsBefore(x));
    GrownTrans(first, NewsBefore(x), news);
    GrownTrans(before, NewsBefore(x), news);
    forall e, y | e in done && y in own ensures Before(e, y) {
      var j :| 0 <= j < n && IsUnit(ws[j], before, e);
      LaterWindowsAreLater(ws, j, n, before, e, news, y);
    }
    SortedConcat(done, own);
    forall e | e in TraceAfter(x) ensures UnitOf(ws, n + 1, news, e) {
      if e in done {
        UnitsOfGrow(ws, n, before, news, e);
        assert UnitOf(ws, n, news, e);
      } else {
        assert IsUnit(ws[n], news, e);
      }
    }
    forall e: Event | e.ItemDone? && UnitOf(ws, n + 1, first, e) ensures e in TraceAfter(x) {
      var k :| 0 <= k < n + 1 && IsUnit(ws[k], first, e);
      if k < n {
        assert UnitOf(ws, n, first, e);
      } else {
        UnitsGrow(ws[n], first, NewsBefore(x), e);
      }
    }
  }

  lemma {:induction false} WindowsKeep(ws: seq<Window>, xs: seq<Walked>, n: nat)
    requires Consecutive(ws) && WholeRun(ws, xs) && 1 <= n <= |ws|
    ensures RunKept(ws, n, NewsBefore(xs[0]), NewsAfter(xs[n - 1]), TraceAfter(xs[n - 1]))
  {
    hide Consecutive, WalkedOver, Grown;
    if n == 1 {
      NoWindowsKeep(ws, NewsBefore(xs[0]));
      NextWindowKeeps(ws, 0, NewsBefore(xs[0]), NewsBefore(xs[0]), [], xs[0]);
    } else {
      WindowsKeep(ws, xs, n - 1);
      hide RunKept;
      NextWindowKeeps(ws, n - 1, NewsBefore(xs[0]), NewsAfter(xs[n - 2]), TraceAfter(xs[n - 2]), xs[n - 1]);
    }
  }

  lemma NoWindowsKeep(ws: seq<Window>, first: News)
    ensures RunKept(ws, 0, first, first, []) && Grown(first, first)
  {
  }

  /**
   * A whole run, news arriving all along: every item of every slot the first part could have read ran,
   * whatever ran was an item of some slot, and nothing ran twice.
   */
  lemma RunRunsEveryItemOnce(ws: seq<Window>, xs: seq<Walked>)
    requires Consecutive(ws) && WholeRun(ws, xs)
    ensures var trace := TraceAfter(xs[|xs| - 1]);
            && (forall i, j :: 0 <= i < j < |trace| ==> trace[i] != trace[j])
            && (forall e: Event :: e.ItemDone? && UnitOf(ws, |ws|, NewsBefore(xs[0]), e) ==> e in trace)
            && (forall e :: e in trace ==> UnitOf(ws, |ws|, NewsAfter(xs[|xs| - 1]), e))
  {
    WindowsKeep(ws, xs, |ws|);
    hide WholeRun, Consecutive, Grown, Before, UnitOf;
    var trace := TraceAfter(xs[|xs| - 1]);
    forall i, j | 0 <= i < j < |trace| ensures trace[i] != trace[j] {
      SortedAt(trace, i, j);
    }
  }

  // ---- Part by part ---------------------------------------------------------------------------

  /** Where a run stands: in which window, and where in it. */
  datatype RunPlace = RunPlace(window: nat, place: Place)

  /** The units a run standing there has left behind: all of the earlier windows, and those passed in its own. */
  ghost predicate Behind(ws: seq<Window>, at: RunPlace, news: News, e: Event)
    requires at.window <= |ws|
  {
    || UnitOf(ws, at.window, news, e)
    || (at.window < |ws| && IsUnit(ws[at.window], news, e) && Passed(ws[at.window], at.place, e))
  }

  /** What a run keeps wherever it stands: units in order, all behind it, and every item of the first table there. */
  ghost predicate KeptAt(ws: seq<Window>, at: RunPlace, first: News, news: News, done: seq<Event>)
    requires at.window <= |ws|
  {
    && Grown(first, news)
    && Sorted(done)
    && (forall e :: e in done ==> Behind(ws, at, news, e))
    && (forall e: Event :: e.ItemDone? && Behind(ws, at, first, e) ==> e in done)
  }

  /** A stretch of the run over one news table keeps it, whatever smaller tables were read before. */
  ghost predicate StretchKeeps(ws: seq<Window>, news: News, from: RunPlace, trace0: seq<Event>, to: RunPlace,
                               trace1: seq<Event>)
    requires from.window <= |ws| && to.window <= |ws|
  {
    forall first: News, before: News ::
      Grown(before, news) && KeptAt(ws, from, first, before, trace0) ==> KeptAt(ws, to, first, news, trace1)
  }

  lemma GrownRefl(news: News)
    ensures Grown(news, news)
  {
  }

  lemma StretchStays(ws: seq<Window>, news: News, at: RunPlace, trace: seq<Event>)
    requires at.window <= |ws|
    ensures StretchKeeps(ws, news, at, trace, at, trace)
  {
    hide Sorted, Passed, IsUnit;
    forall first: News, before: News | Grown(before, news) && KeptAt(ws, at, first, before, trace)
      ensures KeptAt(ws, at, first, news, trace)
    {
      GrownTrans(first, before, news);
      forall e | e in trace ensures Behind(ws, at, news, e) {
        BehindGrows(ws, at, before, news, e);
      }
    }
  }

  lemma BehindGrows(ws: seq<Window>, at: RunPlace, a: News, b: News, e: Event)
    requires at.window <= |ws| && Grown(a, b) && Behind(ws, at, a, e)
    ensures Behind(ws, at, b, e)
  {
    hide Grown, IsUnit, Passed;
    if UnitOf(ws, at.window, a, e) {
      UnitsOfGrow(ws, at.window, a, b, e);
    } else {
      UnitsGrow(ws[at.window], a, b, e);
    }
  }

  lemma StretchesJoin(ws: seq<Window>, news: News, a: RunPlace, t0: seq<Event>, b: RunPlace, t1: seq<Event>,
                      c: RunPlace, t2: seq<Event>)
    requires a.window <= |ws| && b.window <= |ws| && c.window <= |ws|
    requires StretchKeeps(ws, news, a, t0, b, t1) && StretchKeeps(ws, news, b, t1, c, t2)
    ensures StretchKeeps(ws, news, a, t0, c, t2)
  {
    hide KeptAt, Grown;
    GrownRefl(news);
    forall first: News, before: News | Grown(before, news) && KeptAt(ws, a, first, before, t0)
      ensures KeptAt(ws, c, first, news, t2)
    {
      assert KeptAt(ws, b, first, news, t1);
    }
  }

  /** What a unit behind and one ahead have to do with each other. */
  lemma BehindIsBefore(ws: seq<Window>, at: RunPlace, a: News, x: Event, b: News, y: Event)
    requires Consecutive(ws) && at.window < |ws| && Behind(ws, at, a, x)
    requires IsUnit(ws[at.window], b, y) && !Passed(ws[at.window], at.place, y)
    ensures Before(x, y)
  {
    if UnitOf(ws, at.window, a, x) {
      var j :| 0 <= j < at.window && IsUnit(ws[j], a, x);
      LaterWindowsAreLater(ws, j, at.window, a, x, b, y);
    } else {
      PassedBefore(ws[at.window], at.place, x, y);
    }
  }

  /** One part inside one window. */
  lemma LegKeepsRun(ws: seq<Window>, k: nat, leg: Leg)
    requires Consecutive(ws) && k < |ws| && LegOk(ws[k], leg)
    ensures StretchKeeps(ws, leg.news, RunPlace(k, leg.from), leg.trace0, RunPlace(k, leg.to), leg.trace1)
  {
    hide KeptAt, Grown, LegOk, Consecutive;
    forall first: News, before: News
      | Grown(before, leg.news) && KeptAt(ws, RunPlace(k, leg.from), first, before, leg.trace0)
      ensures KeptAt(ws, RunPlace(k, leg.to), first, leg.news, leg.trace1)
    {
      LegKeepsFrom(ws, k, leg, first, before);
    }
  }

  lemma LegKeepsFrom(ws: seq<Window>, k: nat, leg: Leg, first: News, before: News)
    requires Consecutive(ws) && k < |ws| && LegOk(ws[k], leg)
    requires Grown(before, leg.news) && KeptAt(ws, RunPlace(k, leg.from), first, before, leg.trace0)
    ensures KeptAt(ws, RunPlace(k, leg.to), first, leg.news, leg.trace1)
  {
    var w, from, to := ws[k], RunPlace(k, leg.from), RunPlace(k, leg.to);
    var ahead, later := UnitsFrom(w, leg.news, leg.from), UnitsFrom(w, leg.news, leg.to);
    var done, more := leg.trace0, leg.trace1[|leg.trace0|..];
    hide Consecutive, Grown, IsUnit, Passed, UnitsFrom, Before;
    assert leg.trace1 == done + more;
    Assoc(done, more, later);
    StripBase(done, ahead, more + later);
    GrownTrans(first, before, leg.news);
    UnitsFromSorted(w, leg.news, leg.from);
    forall x, y | x in done && y in ahead ensures Before(x, y) {
      UnitsFromMembers(w, leg.news, leg.from, y);
      BehindIsBefore(ws, from, before, x, leg.news, y);
    }
    SortedConcat(done, ahead);
    assert done + ahead == leg.trace1 + later;
    SortedPrefix(leg.trace1, later);
    forall e | e in leg.trace1 ensures Behind(ws, to, leg.news, e) {
      SortedOnce(leg.trace1, later, e);
      UnitsFromMembers(w, leg.news, leg.to, e);
      if e in done {
        BehindGrows(ws, from, before, leg.news, e);
      } else {
        UnitsFromMembers(w, leg.news, leg.from, e);
      }
    }
    forall e: Event | e.ItemDone? && Behind(ws, to, first, e) ensures e in leg.trace1 {
      if !Behind(ws, from, first, e) {
        UnitsGrow(w, first, leg.news, e);
        UnitsFromMembers(w, leg.news, leg.from, e);
        UnitsFromMembers(w, leg.news, leg.to, e);
      }
    }
  }

  lemma SortedPrefix(a: seq<Event>, b: seq<Event>)
    requires Sorted(a + b)
    ensures Sorted(a)
  {
    assert forall i :: 0 <= i < |a| ==> (a + b)[i] == a[i];
  }

  /** A window walked to its end, the grace days an early stop leaves out included, is the next one's start. */
  lemma WindowEndKeeps(ws: seq<Window>, k: nat, skippedDays: nat, news: News, trace: seq<Event>)
    requires k < |ws| && skippedDays < |Days(ws[k])|
    requires skippedDays > 0 ==> Days(ws[k])[|Days(ws[k])| - skippedDays - 1] * DAY_MS >= ws[k].testEnd
    ensures StretchKeeps(ws, news, RunPlace(k, Place(|Days(ws[k])| - skippedDays, 0, None, false)), trace,
                         RunPlace(k + 1, START), trace)
  {
    var end, next := RunPlace(k, Place(|Days(ws[k])| - skippedDays, 0, None, false)), RunPlace(k + 1, START);
    forall first: News, before: News | Grown(before, news) && KeptAt(ws, end, first, before, trace)
      ensures KeptAt(ws, next, first, news, trace)
    {
      GrownTrans(first, before, news);
      forall e | e in trace ensures Behind(ws, next, news, e) {
        BehindGrows(ws, end, before, news, e);
        EndIsBehind(ws, k, skippedDays, news, e);
      }
      forall e: Event | e.ItemDone? && Behind(ws, next, first, e) ensures e in trace {
        EndIsBehind(ws, k, skippedDays, first, e);
      }
    }
  }

  lemma EndIsBehind(ws: seq<Window>, k: nat, skippedDays: nat, news: News, e: Event)
    requires k < |ws| && skippedDays < |Days(ws[k])|
    requires skippedDays > 0 ==> Days(ws[k])[|Days(ws[k])| - skippedDays - 1] * DAY_MS >= ws[k].testEnd
    ensures var end, next := RunPlace(k, Place(|Days(ws[k])| - skippedDays, 0, None, false)), RunPlace(k + 1, START);
            && (Behind(ws, end, news, e) ==> Behind(ws, next, news, e))
            && (e.ItemDone? && Behind(ws, next, news, e) ==> Behind(ws, end, news, e))
  {
    var w, end, next := ws[k], RunPlace(k, Place(|Days(ws[k])| - skippedDays, 0, None, false)), RunPlace(k + 1, START);
    if Behind(ws, end, news, e) {
      if j :| 0 <= j < k && IsUnit(ws[j], news, e) {
        assert UnitOf(ws, k + 1, news, e);
      } else {
        assert IsUnit(ws[k], news, e);
      }
    }
    if e.ItemDone? && Behind(ws, next, news, e) {
      NothingPassedAtStart(ws, k + 1, news, e);
      var j :| 0 <= j < k + 1 && IsUnit(ws[j], news, e);
      if j == k && !Passed(w, end.place, e) {
        assert Days(w)[|Days(w)| - skippedDays - 1] < e.day;
        GraceDaysHaveNoNews(news, w, e.ticker, e.day);
        assert false;
      }
    }
  }

  lemma NothingPassedAtStart(ws: seq<Window>, k: nat, news: News, e: Event)
    requires k <= |ws| && Behind(ws, RunPlace(k, START), news, e)
    ensures UnitOf(ws, k, news, e)
  {
  }

  /** A run that has not begun, and one past its last window. */
  lemma KeptAtEnds(ws: seq<Window>, first: News, news: News, done: seq<Event>)
    ensures KeptAt(ws, RunPlace(0, START), first, first, [])
    ensures KeptAt(ws, RunPlace(|ws|, START), first, news, done) ==> RunKept(ws, |ws|, first, news, done)
  {
  }
}
