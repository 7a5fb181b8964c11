/**
 * The gradual intraday backfill (src/ingestion/intraday_backfill.js): one status row per ticker and day,
 * seeded, re-opened while its day was not over, and claimed oldest first in contiguous runs.
 */
module IntradayBackfill {
  import opened Calendar
  import opened Collections

  datatype Status = Pending | InProgress | Done | Failed

  /** A day of one ticker; `lastAttempt` is when it was last claimed, or last failed. */
  datatype DayRow = DayRow(day: int, status: Status, lastAttempt: Option<int>)

  /** Every ticker's rows, each list ordered by day. */
  type Table = map<int, seq<DayRow>>

  ghost predicate ByDay(rows: seq<DayRow>) {
    forall i, j :: 0 <= i < j < |rows| ==> rows[i].day < rows[j].day
  }

  function RowsOf(t: Table, ticker: int): seq<DayRow> {
    if ticker in t then t[ticker] else []
  }

  // ---- Seeding ------------------------------------------------------------------------------

  /** Adds a pending row for a day that has none; any existing row stays. */
  function SeedDay(rows: seq<DayRow>, day: int): seq<DayRow> {
    if rows == [] || day < rows[0].day then [DayRow(day, Pending, None)] + rows
    else if rows[0].day == day then rows
    else [rows[0]] + SeedDay(rows[1..], day)
  }

  function SeedDays(rows: seq<DayRow>, from: int, until: int): seq<DayRow>
    decreases until - from
  {
    if from > until then rows else SeedDays(SeedDay(rows, from), from + 1, until)
  }

  lemma {:induction false} SeedDayKeeps(rows: seq<DayRow>, day: int)
    requires ByDay(rows)
    ensures ByDay(SeedDay(rows, day))
    ensures forall r :: r in rows ==> r in SeedDay(rows, day)
    ensures forall r :: r in SeedDay(rows, day) ==> r in rows || r == DayRow(day, Pending, None)
    ensures exists r :: r in SeedDay(rows, day) && r.day == day
  {
    if rows != [] && day > rows[0].day {
      assert rows == [rows[0]] + rows[1..];
      SeedDayKeeps(rows[1..], day);
      var rest := SeedDay(rows[1..], day);
      forall r | r in rest ensures rows[0].day < r.day {
      }
    } else {
      var s := SeedDay(rows, day);
      assert s[0] in s && s[0].day == day;
    }
  }

  lemma {:induction false} SeedDaysKeep(rows: seq<DayRow>, from: int, until: int)
    requires ByDay(rows)
    ensures ByDay(SeedDays(rows, from, until))
    ensures forall r :: r in rows ==> r in SeedDays(rows, from, until)
    ensures forall r :: r in SeedDays(rows, from, until) ==> r in rows || (from <= r.day <= until && r.status.Pending?)
    decreases until - from
  {
    if from <= until {
      SeedDayKeeps(rows, from);
      SeedDaysKeep(SeedDay(rows, from), from + 1, until);
    }
  }

  /** A day is added, waiting and never tried, exactly when it had no row. */
  ghost predicate IsNew(r: DayRow, rows: seq<DayRow>) {
    r.status == Pending && r.lastAttempt == None && forall x :: x in rows ==> x.day != r.day
  }

  lemma {:induction false} SeedDayMeans(rows: seq<DayRow>, day: int)
    requires ByDay(rows)
    ensures forall r :: r in SeedDay(rows, day) <==> r in rows || (r.day == day && IsNew(r, rows))
  {
    if rows != [] {
      assert rows == [rows[0]] + rows[1..];
      assert forall x :: x in rows <==> x == rows[0] || x in rows[1..];
      assert day < rows[0].day ==> forall x :: x in rows ==> day < x.day;
      if day > rows[0].day {
        SeedDayMeans(rows[1..], day);
      }
    }
  }

  lemma {:induction false} SeedDaysMean(rows: seq<DayRow>, from: int, until: int)
    requires ByDay(rows)
    ensures forall r :: r in SeedDays(rows, from, until) <==> r in rows || (from <= r.day <= until && IsNew(r, rows))
    decreases until - from
  {
    if from <= until {
      SeedDayKeeps(rows, from);
      SeedDayMeans(rows, from);
      SeedDaysMean(SeedDay(rows, from), from + 1, until);
      hide SeedDay, SeedDays;
    }
  }

  datatype Config = Config(lookbackDays: int, batchDays: Option<real>, reopenLookbackDays: int, reopenAgeMs: int,
                           staleAfterMs: int)

  /** The batch size: whole, at least one. */
  function BatchSize(cfg: Config): (n: nat)
    ensures n >= 1
  {
    if cfg.batchDays.Some? && cfg.batchDays.value >= 1.0 then cfg.batchDays.value.Floor else 1
  }

  /** A ticker never seen gets its whole past window; every ticker gets a row for today. */
  function Seeded(rows: seq<DayRow>, today: int, cfg: Config): seq<DayRow> {
    SeedDay(if rows == [] then SeedDays([], today - cfg.lookbackDays, today - 1) else rows, today)
  }

  /** Every row stays; a day without one is added for today, and for a ticker without any row for its look-back days. */
  lemma SeededMeans(rows: seq<DayRow>, today: int, cfg: Config)
    requires ByDay(rows)
    ensures forall r :: r in Seeded(rows, today, cfg) <==>
              r in rows
              || (IsNew(r, rows) && (r.day == today || (rows == [] && today - cfg.lookbackDays <= r.day < today)))
  {
    if rows == [] {
      SeedDaysKeep([], today - cfg.lookbackDays, today - 1);
      SeedDaysMean([], today - cfg.lookbackDays, today - 1);
      SeedDayMeans(SeedDays([], today - cfg.lookbackDays, today - 1), today);
    } else {
      SeedDayMeans(rows, today);
    }
    hide SeedDay, SeedDays;
  }

  /** The whole number of days asked for; one when that is less than one, or not given. */
  lemma BatchSizeMeans(cfg: Config)
    ensures var n := BatchSize(cfg);
            if cfg.batchDays.None? || cfg.batchDays.value < 1.0 then n == 1
            else n as real <= cfg.batchDays.value < (n + 1) as real
  {
  }

  // ---- Re-opening ---------------------------------------------------------------------------

  /** Done, in the recent past, but claimed before its day was over, and not just now. */
  predicate Incomplete(r: DayRow, today: int, now: int, cfg: Config) {
    && r.status.Done? && today - cfg.reopenLookbackDays <= r.day <= today
    && r.lastAttempt.Some? && r.lastAttempt.value / 1000 * 1000 < (r.day + 1) * DAY_MS
    && r.lastAttempt.value < now - cfg.reopenAgeMs
  }

  function Reopened(rows: seq<DayRow>, today: int, now: int, cfg: Config): (s: seq<DayRow>)
    ensures |s| == |rows|
    ensures forall i :: 0 <= i < |rows| ==>
              s[i] == if Incomplete(rows[i], today, now, cfg) then rows[i].(status := Pending) else rows[i]
  {
    seq(|rows|,
        i requires 0 <= i < |rows| => if Incomplete(rows[i], today, now, cfg) then rows[i].(status := Pending)
                                      else rows[i])
  }

  // ---- Claiming -----------------------------------------------------------------------------

  /** Waiting, failed, or left behind by a crash long enough ago. */
  predicate Eligible(r: DayRow, now: int, cfg: Config) {
    || r.status.Pending? || r.status.Failed?
    || (r.status.InProgress? && r.lastAttempt.Some? && r.lastAttempt.value < now - cfg.staleAfterMs)
  }

  /** Waiting and failed days are claimed again, done ones never, and those in progress once they are stale. */
  lemma EligibleMeans(r: DayRow, now: int, cfg: Config)
    ensures match r.status
            case Pending => Eligible(r, now, cfg)
            case Failed => Eligible(r, now, cfg)
            case Done => !Eligible(r, now, cfg)
            case InProgress =>
              Eligible(r, now, cfg) <==> exists at :: r.lastAttempt == Some(at) && now - at > cfg.staleAfterMs
  {
  }

  function EligibleRows(rows: seq<DayRow>, now: int, cfg: Config): seq<DayRow> {
    Filter(rows, (r: DayRow) => Eligible(r, now, cfg))
  }

  /** How many of the rows follow the first day by day. */
  function RunLength(rows: seq<DayRow>): (n: nat)
    requires rows != []
    ensures 1 <= n <= |rows|
    ensures forall i :: 0 <= i < n ==> rows[i].day == rows[0].day + i
    ensures n < |rows| ==> rows[n].day != rows[0].day + n
  {
    if |rows| == 1 || rows[1].day != rows[0].day + 1 then 1
    else
      var n := RunLength(rows[1..]);
      assert forall i :: 1 <= i < n + 1 ==> rows[i] == rows[1..][i - 1];
      n + 1
  }

  /** The days a tick claims: the run of days from the oldest eligible one, within the fetched rows. */
  function Claim(rows: seq<DayRow>, now: int, cfg: Config): seq<int> {
    var all := EligibleRows(rows, now, cfg);
    var fetched := if |all| > BatchSize(cfg) then all[..BatchSize(cfg)] else all;
    if fetched == [] then []
    else
      var n := RunLength(fetched);
      seq(n, i requires 0 <= i < n => fetched[i].day)
  }

  predicate EligibleDay(rows: seq<DayRow>, day: int, now: int, cfg: Config) {
    exists i :: 0 <= i < |rows| && rows[i].day == day && Eligible(rows[i], now, cfg)
  }

  lemma EligibleDaysAre(rows: seq<DayRow>, now: int, cfg: Config)
    requires ByDay(rows)
    ensures ByDay(EligibleRows(rows, now, cfg))
    ensures forall day :: EligibleDay(rows, day, now, cfg) <==>
              exists r :: r in EligibleRows(rows, now, cfg) && r.day == day
  {
    var byDay := (r: DayRow) => r.day;
    FilterStrictlyBy(rows, (r: DayRow) => Eligible(r, now, cfg), byDay);
    var s := EligibleRows(rows, now, cfg);
    forall i, j | 0 <= i < j < |s| ensures s[i].day < s[j].day {
      assert byDay(s[i]) < byDay(s[j]);
    }
    forall day ensures EligibleDay(rows, day, now, cfg) <==> exists r :: r in s && r.day == day {
      if EligibleDay(rows, day, now, cfg) {
        var i :| 0 <= i < |rows| && rows[i].day == day && Eligible(rows[i], now, cfg);
        assert rows[i] in s;
      }
      if exists r :: r in s && r.day == day {
        var r :| r in s && r.day == day;
        var i :| 0 <= i < |rows| && rows[i] == r;
      }
    }
  }

  /**
   * A claim is the longest run of consecutive eligible days that starts at the oldest eligible day, cut at the
   * batch size; it is empty only when no day is eligible.
   */
  lemma ClaimIsTheOldestRun(rows: seq<DayRow>, now: int, cfg: Config)
    requires ByDay(rows)
    ensures var c := Claim(rows, now, cfg);
            && |c| <= BatchSize(cfg)
            && (c == [] <==> forall day :: !EligibleDay(rows, day, now, cfg))
            && (forall i :: 0 <= i < |c| ==> c[i] == c[0] + i && EligibleDay(rows, c[i], now, cfg))
            && (c != [] ==> forall day :: EligibleDay(rows, day, now, cfg) ==> c[0] <= day)
            && (c != [] && |c| < BatchSize(cfg) ==> !EligibleDay(rows, c[0] + |c|, now, cfg))
  {
    EligibleDaysAre(rows, now, cfg);
    ClaimShape(rows, now, cfg);
    var all, c := EligibleRows(rows, now, cfg), Claim(rows, now, cfg);
    hide EligibleDay, Eligible, EligibleRows, Claim, BatchSize;
    if all != [] {
      assert all[0] in all;
      OldestIsFirst(all);
      forall i | 0 <= i < |c| ensures EligibleDay(rows, c[i], now, cfg) {
        assert all[i] in all && all[i].day == c[i];
      }
      if |c| < BatchSize(cfg) {
        RunEnds(all, |c|);
      }
    }
  }

  lemma ClaimShape(rows: seq<DayRow>, now: int, cfg: Config)
    ensures var all, c := EligibleRows(rows, now, cfg), Claim(rows, now, cfg);
            && (c == [] <==> all == []) && |c| <= BatchSize(cfg) && |c| <= |all|
            && (forall i :: 0 <= i < |c| ==> c[i] == all[i].day == all[0].day + i)
            && (|c| < BatchSize(cfg) && |c| < |all| ==> all[|c|].day != all[0].day + |c|)
  {
    hide EligibleRows;
  }

  lemma OldestIsFirst(all: seq<DayRow>)
    requires ByDay(all) && all != []
    ensures forall r :: r in all ==> all[0].day <= r.day
  {
  }

  lemma RunEnds(all: seq<DayRow>, n: nat)
    requires ByDay(all) && 0 < n <= |all| && (forall i :: 0 <= i < n ==> all[i].day == all[0].day + i)
    requires n < |all| ==> all[n].day != all[0].day + n
    ensures forall r :: r in all ==> r.day != all[0].day + n
  {
    forall r | r in all ensures r.day != all[0].day + n {
      var i :| 0 <= i < |all| && all[i] == r;
      if i >= n {
        assert n < i ==> all[n].day < all[i].day;
        assert all[n].day > all[n - 1].day;
      }
    }
  }

  // ---- A tick ---------------------------------------------------------------------------------

  /** What became of a claim: bars stored, the vendor failed, or the tick died before it could say. */
  datatype Outcome = Stored | VendorFailed | Crashed

  function MarkRow(r: DayRow, days: seq<int>, now: int, outcome: Outcome): DayRow {
    if r.day !in days then r
    else DayRow(r.day, match outcome case Stored => Done case VendorFailed => Failed case Crashed => InProgress,
                Some(now))
  }

  /** The rows after the claimed days were marked in progress, and then done or failed. */
  function Marked(rows: seq<DayRow>, days: seq<int>, now: int, outcome: Outcome): (s: seq<DayRow>)
    ensures |s| == |rows| && forall i :: 0 <= i < |rows| ==> s[i] == MarkRow(rows[i], days, now, outcome)
  {
    seq(|rows|, i requires 0 <= i < |rows| => MarkRow(rows[i], days, now, outcome))
  }

  function Worked(rows: seq<DayRow>, now: int, cfg: Config, outcome: Outcome): seq<DayRow> {
    Marked(rows, Claim(rows, now, cfg), now, outcome)
  }

  /**
   * A tick stamps the days it claimed with its time, and leaves them done, failed, or, when it died, in progress; all
   * other rows stay.
   */
  lemma WorkedMeans(rows: seq<DayRow>, now: int, cfg: Config, outcome: Outcome, i: nat)
    requires i < |rows|
    ensures var after := Worked(rows, now, cfg, outcome);
            && |after| == |rows| && after[i].day == rows[i].day
            && if rows[i].day in Claim(rows, now, cfg) then
                 && after[i].lastAttempt == Some(now)
                 && (after[i].status == Done <==> outcome == Stored)
                 && (after[i].status == Failed <==> outcome == VendorFailed)
                 && (after[i].status == InProgress <==> outcome == Crashed)
               else after[i] == rows[i]
  {
    hide Claim;
  }

  function PreparedRows(rows: seq<DayRow>, now: int, cfg: Config): seq<DayRow> {
    Reopened(Seeded(rows, DayOf(now), cfg), DayOf(now), now, cfg)
  }

  /** Before claiming: every ticker seeded and its incomplete days re-opened. */
  function Prepared(t: Table, tickers: seq<int>, now: int, cfg: Config): Table {
    t + map k | k in tickers :: PreparedRows(RowsOf(t, k), now, cfg)
  }

  /** Claiming and filling ticker after ticker; a crash ends the tick. */
  function Filled(t: Table, tickers: seq<int>, now: int, cfg: Config, outcome: int -> Outcome): Table
    decreases |tickers|
  {
    if tickers == [] then t
    else
      var k := tickers[0];
      var after := t[k := Worked(RowsOf(t, k), now, cfg, outcome(k))];
      if Claim(RowsOf(t, k), now, cfg) != [] && outcome(k).Crashed? then after
      else Filled(after, tickers[1..], now, cfg, outcome)
  }

  ghost predicate Valid(t: Table) {
    forall k :: k in t ==> ByDay(t[k])
  }

  class BackfillJob {
    var table: Table

    constructor (stored: Table)
      ensures table == stored
    {
      table := stored;
    }

    /** Seeds and re-opens the rows of every ticker. */
    method Prepare(tickers: seq<int>, now: int, cfg: Config)
      modifies this
      ensures table == Prepared(old(table), tickers, now, cfg)
    {
      hide PreparedRows, RowsOf;
      var t := table;
      for i := 0 to |tickers|
        invariant table == Prepared(t, tickers[..i], now, cfg)
      {
        assert tickers[..i + 1] == tickers[..i] + [tickers[i]];
        var k := tickers[i];
        var rows := RowsOf(t, k);
        table := table[k := PreparedRows(rows, now, cfg)];
      }
      assert tickers[..|tickers|] == tickers;
    }

    /** One tick over all tickers, up to where it crashed. */
    method RunTick(tickers: seq<int>, now: int, cfg: Config, outcome: int -> Outcome)
      modifies this
      ensures table == Filled(Prepared(old(table), tickers, now, cfg), tickers, now, cfg, outcome)
    {
      hide Prepared, Claim, Marked;
      Prepare(tickers, now, cfg);
      ghost var prepared := table;
      assert tickers[0..] == tickers;
      for i := 0 to |tickers|
        invariant Filled(prepared, tickers, now, cfg, outcome) == Filled(table, tickers[i..], now, cfg, outcome)
      {
        var k := tickers[i];
        assert tickers[i..][0] == k && tickers[i..][1..] == tickers[i + 1..];
        var rows := RowsOf(table, k);
        var claimed := Claim(rows, now, cfg);
        table := table[k := Marked(rows, claimed, now, outcome(k))];
        if claimed != [] && outcome(k).Crashed? {
          return;
        }
      }
    }
  }

  // ---- What every tick keeps ----------------------------------------------------------------------

  /** Fetched after its day was over. */
  predicate Settled(r: DayRow) {
    r.status.Done? && r.lastAttempt.Some? && r.lastAttempt.value >= (r.day + 1) * DAY_MS
  }

  /** A day's end is a whole second, so a stamp at or after it stays so when cut to seconds. */
  lemma WholeSecond(stamp: int, seconds: int)
    ensures stamp / 1000 * 1000 < seconds * 1000 <==> stamp < seconds * 1000
  {
  }

  lemma SettledIsComplete(r: DayRow, today: int, now: int, cfg: Config)
    ensures Settled(r) ==> !Incomplete(r, today, now, cfg) && !Eligible(r, now, cfg)
  {
    if r.lastAttempt.Some? {
      assert (r.day + 1) * DAY_MS == (r.day + 1) * 86_400 * 1000;
      WholeSecond(r.lastAttempt.value, (r.day + 1) * 86_400);
    }
  }

  ghost predicate KeepsSettled(was: seq<DayRow>, rows: seq<DayRow>) {
    ByDay(rows) && forall r :: r in was && Settled(r) ==> r in rows
  }

  lemma PreparedKeeps(rows: seq<DayRow>, today: int, now: int, cfg: Config)
    requires ByDay(rows)
    ensures ByDay(Seeded(rows, today, cfg)) && KeepsSettled(rows, Reopened(Seeded(rows, today, cfg), today, now, cfg))
  {
    SeededKeeps(rows, today, cfg);
    hide Seeded, Reopened, Settled, ByDay;
    ReopenedKeeps(Seeded(rows, today, cfg), today, now, cfg);
  }

  lemma SeededKeeps(rows: seq<DayRow>, today: int, cfg: Config)
    requires ByDay(rows)
    ensures ByDay(Seeded(rows, today, cfg)) && forall r :: r in rows ==> r in Seeded(rows, today, cfg)
  {
    hide SeedDay, SeedDays;
    if rows == [] {
      SeedDaysKeep([], today - cfg.lookbackDays, today - 1);
      SeedDayKeeps(SeedDays([], today - cfg.lookbackDays, today - 1), today);
    } else {
      SeedDayKeeps(rows, today);
    }
  }

  lemma ReopenedKeeps(rows: seq<DayRow>, today: int, now: int, cfg: Config)
    requires ByDay(rows)
    ensures KeepsSettled(rows, Reopened(rows, today, now, cfg))
  {
    hide Incomplete, Settled;
    var s := Reopened(rows, today, now, cfg);
    forall r | r in rows && Settled(r) ensures r in s {
      var i :| 0 <= i < |rows| && rows[i] == r;
      SettledIsComplete(r, today, now, cfg);
      assert s[i] == r;
    }
  }

  lemma WorkedKeeps(rows: seq<DayRow>, now: int, cfg: Config, outcome: Outcome)
    requires ByDay(rows)
    ensures KeepsSettled(rows, Worked(rows, now, cfg, outcome))
  {
    ClaimIsTheOldestRun(rows, now, cfg);
    hide Claim, Settled, Eligible;
    var c, s := Claim(rows, now, cfg), Worked(rows, now, cfg, outcome);
    forall r | r in rows && Settled(r) ensures r in s {
      var i :| 0 <= i < |rows| && rows[i] == r;
      SettledIsComplete(r, 0, now, cfg);
      if r.day in c {
        OneRowADay(rows, i, now, cfg);
        assert false;
      }
      assert s[i] == r;
    }
  }

  /** The table still holds every settled row of `was`. */
  ghost predicate TableKeeps(was: Table, t: Table) {
    Valid(t) && forall k :: k in was ==> k in t && KeepsSettled(was[k], t[k])
  }

  /** A day fetched after it was over is never re-opened, claimed or changed by any tick, whatever its outcome. */
  lemma SettledDaysStay(t: Table, tickers: seq<int>, now: int, cfg: Config, outcome: int -> Outcome)
    requires Valid(t)
    ensures TableKeeps(t, Filled(Prepared(t, tickers, now, cfg), tickers, now, cfg, outcome))
  {
    hide Seeded, Reopened, Settled, KeepsSettled;
    var p := Prepared(t, tickers, now, cfg);
    forall k | k in p ensures ByDay(p[k]) && (k in t ==> KeepsSettled(t[k], p[k])) {
      KeepsOnce(RowsOf(t, k), p[k]);
      if k in tickers {
        PreparedKeeps(RowsOf(t, k), DayOf(now), now, cfg);
        KeepsOnce(RowsOf(t, k), p[k]);
      }
    }
    FilledKeeps(t, p, tickers, now, cfg, outcome);
  }

  lemma KeepsOnce(was: seq<DayRow>, rows: seq<DayRow>)
    ensures was == rows && ByDay(rows) ==> KeepsSettled(was, rows)
    ensures KeepsSettled(was, rows) ==> ByDay(rows)
  {
  }

  lemma KeepsTwice(a: seq<DayRow>, b: seq<DayRow>, c: seq<DayRow>)
    requires KeepsSettled(a, b) && KeepsSettled(b, c)
    ensures KeepsSettled(a, c)
  {
  }

  lemma {:induction false} FilledKeeps(was: Table, t: Table, tickers: seq<int>, now: int, cfg: Config,
                                       outcome: int -> Outcome)
    requires TableKeeps(was, t)
    ensures TableKeeps(was, Filled(t, tickers, now, cfg, outcome))
    decreases |tickers|
  {
    hide Worked, KeepsSettled, ByDay, Claim;
    if tickers != [] {
      var k := tickers[0];
      var rows := RowsOf(t, k);
      EmptyIsOrdered();
      WorkedKeeps(rows, now, cfg, outcome(k));
      var after := t[k := Worked(rows, now, cfg, outcome(k))];
      KeepsOnce(rows, after[k]);
      if k in was {
        KeepsTwice(was[k], t[k], after[k]);
      }
      FilledKeeps(was, after, tickers[1..], now, cfg, outcome);
    }
  }

  lemma EmptyIsOrdered()
    ensures ByDay([])
  {
  }

  // ---- Progress -------------------------------------------------------------------------------------

  /** How many days before `today` are not settled yet. */
  function Unsettled(rows: seq<DayRow>, today: int): nat {
    if rows == [] then 0 else (if rows[0].day < today && !Settled(rows[0]) then 1 else 0) + Unsettled(rows[1..], today)
  }

  lemma {:induction false} NoMoreUnsettled(was: seq<DayRow>, rows: seq<DayRow>, today: int)
    requires |was| == |rows|
    requires forall i :: 0 <= i < |was| ==> rows[i].day == was[i].day && (Settled(was[i]) ==> Settled(rows[i]))
    ensures Unsettled(rows, today) <= Unsettled(was, today)
    ensures (exists i :: 0 <= i < |was| && was[i].day < today && !Settled(was[i]) && Settled(rows[i])) ==>
              Unsettled(rows, today) < Unsettled(was, today)
  {
    hide Settled;
    if was != [] {
      NoMoreUnsettled(was[1..], rows[1..], today);
      if i :| 0 <= i < |was| && was[i].day < today && !Settled(was[i]) && Settled(rows[i]) {
        if i > 0 {
          assert was[1..][i - 1] == was[i] && rows[1..][i - 1] == rows[i];
        }
      }
    }
  }

  /** Re-opening leaves the days that are settled settled, and the others not. */
  lemma ReopeningCountsTheSame(rows: seq<DayRow>, today: int, now: int, cfg: Config)
    ensures Unsettled(Reopened(rows, today, now, cfg), today) == Unsettled(rows, today)
  {
    var s := Reopened(rows, today, now, cfg);
    forall i | 0 <= i < |rows| ensures s[i].day == rows[i].day && (Settled(rows[i]) <==> Settled(s[i])) {
      SettledIsComplete(rows[i], today, now, cfg);
    }
    NoMoreUnsettled(rows, s, today);
    NoMoreUnsettled(s, rows, today);
  }

  /**
   * Claiming and marking never raise a ticker's number of unsettled past days, and lower it when a past day is
   * stored.
   */
  lemma EachSuccessSettlesDays(rows: seq<DayRow>, now: int, cfg: Config, outcome: Outcome)
    requires ByDay(rows)
    ensures var c, after := Claim(rows, now, cfg), Worked(rows, now, cfg, outcome);
            && Unsettled(after, DayOf(now)) <= Unsettled(rows, DayOf(now))
            && (outcome.Stored? && c != [] && c[0] < DayOf(now) ==>
                  Unsettled(after, DayOf(now)) < Unsettled(rows, DayOf(now)))
  {
    ClaimIsTheOldestRun(rows, now, cfg);
    var c, after, today := Claim(rows, now, cfg), Worked(rows, now, cfg, outcome), DayOf(now);
    hide Claim;
    forall i | 0 <= i < |rows| ensures after[i].day == rows[i].day && (Settled(rows[i]) ==> Settled(after[i])) {
      SettledIsComplete(rows[i], today, now, cfg);
      if Settled(rows[i]) && rows[i].day in c {
        OneRowADay(rows, i, now, cfg);
        assert false;
      }
    }
    if outcome.Stored? && c != [] && c[0] < today {
      var j :| 0 <= j < |rows| && rows[j].day == c[0] && Eligible(rows[j], now, cfg);
      SettledIsComplete(rows[j], today, now, cfg);
      assert c[0] in c;
      assert !Settled(rows[j]) && Settled(after[j]);
    }
    NoMoreUnsettled(rows, after, today);
  }

  /** Seeding a day adds one unsettled past day when it had no row and is past. */
  lemma {:induction false} SeedingCounts(rows: seq<DayRow>, day: int, today: int)
    requires ByDay(rows)
    ensures var isNew := forall r :: r in rows ==> r.day != day;
            Unsettled(SeedDay(rows, day), today) == Unsettled(rows, today) + (if isNew && day < today then 1 else 0)
  {
    assert !Settled(DayRow(day, Pending, None));
    hide Settled;
    if rows == [] || day < rows[0].day {
      assert ([DayRow(day, Pending, None)] + rows)[1..] == rows;
    } else if day > rows[0].day {
      SeedingCounts(rows[1..], day, today);
      NewAfterFirst(rows, day);
      hide ByDay;
      assert ([rows[0]] + SeedDay(rows[1..], day))[1..] == SeedDay(rows[1..], day);
    } else {
      assert rows[0] in rows;
    }
  }

  lemma NewAfterFirst(rows: seq<DayRow>, day: int)
    requires rows != [] && rows[0].day != day
    ensures (forall r :: r in rows ==> r.day != day) <==> (forall r :: r in rows[1..] ==> r.day != day)
  {
    assert rows == [rows[0]] + rows[1..];
  }

  lemma {:induction false} SeedingDaysCounts(rows: seq<DayRow>, from: int, today: int)
    requires ByDay(rows) && forall r :: r in rows ==> r.day < from
    ensures Unsettled(SeedDays(rows, from, today - 1), today) == Unsettled(rows, today) + Max(0, today - from)
    decreases today - from
  {
    if from < today {
      SeedDayKeeps(rows, from);
      SeedingCounts(rows, from, today);
      SeedingDaysCounts(SeedDay(rows, from), from + 1, today);
    }
  }

  /** Preparing leaves a known ticker's count as it is; a new ticker starts with its look-back days unsettled. */
  lemma PreparingCounts(rows: seq<DayRow>, now: int, cfg: Config)
    requires ByDay(rows)
    ensures Unsettled(PreparedRows(rows, now, cfg), DayOf(now)) == if rows == [] then Max(0, cfg.lookbackDays)
                                                                   else Unsettled(rows, DayOf(now))
  {
    hide SeedDay, Incomplete, Settled, Reopened;
    var today := DayOf(now);
    var first := if rows == [] then SeedDays([], today - cfg.lookbackDays, today - 1) else rows;
    if rows == [] {
      SeedDaysKeep([], today - cfg.lookbackDays, today - 1);
      SeedingDaysCounts([], today - cfg.lookbackDays, today);
    }
    assert ByDay(first);
    hide SeedDays, ByDay, Unsettled;
    SeedingCounts(first, today, today);
    ReopeningCountsTheSame(SeedDay(first, today), today, now, cfg);
  }

  /** The claim for `ticker` ends the tick: it found something to fetch and died. */
  predicate Dies(t: Table, ticker: int, now: int, cfg: Config, outcome: int -> Outcome) {
    outcome(ticker).Crashed? && Claim(RowsOf(t, ticker), now, cfg) != []
  }

  /** The tick comes to `k`: no ticker before it dies. */
  ghost predicate Reached(t: Table, tickers: seq<int>, k: int, now: int, cfg: Config, outcome: int -> Outcome) {
    exists i :: 0 <= i < |tickers| && tickers[i] == k && forall j :: 0 <= j < i ==>
      !Dies(t, tickers[j], now, cfg, outcome)
  }

  /** Stores a past day of ticker `k`. */
  ghost predicate SettlesPast(t: Table, tickers: seq<int>, k: int, now: int, cfg: Config, outcome: int -> Outcome) {
    && Reached(t, tickers, k, now, cfg, outcome) && outcome(k).Stored?
    && var c := Claim(RowsOf(t, k), now, cfg);
       c != [] && c[0] < DayOf(now)
  }

  lemma IdleWork(rows: seq<DayRow>, now: int, cfg: Config, outcome: Outcome)
    requires Claim(rows, now, cfg) == []
    ensures Worked(rows, now, cfg, outcome) == rows
  {
    hide Claim;
  }

  /** Past the first ticker the tick still comes to `k`, with `k`'s rows as they were. */
  lemma StillReached(t: Table, tickers: seq<int>, k: int, now: int, cfg: Config, outcome: int -> Outcome)
    requires tickers != [] && tickers[0] != k && SettlesPast(t, tickers, k, now, cfg, outcome)
    ensures !Dies(t, tickers[0], now, cfg, outcome)
    ensures var after := t[tickers[0] := Worked(RowsOf(t, tickers[0]), now, cfg, outcome(tickers[0]))];
            SettlesPast(after, tickers[1..], k, now, cfg, outcome)
  {
    hide Worked, Claim;
    var j := tickers[0];
    var after := t[j := Worked(RowsOf(t, j), now, cfg, outcome(j))];
    var i :| 0 <= i < |tickers| && tickers[i] == k && forall j :: 0 <= j < i ==>
          !Dies(t, tickers[j], now, cfg, outcome);
    assert !Dies(t, tickers[0], now, cfg, outcome);
    forall m | 0 <= m < i - 1 ensures !Dies(after, tickers[1..][m], now, cfg, outcome) {
      assert !Dies(t, tickers[m + 1], now, cfg, outcome);
      if tickers[m + 1] == j && outcome(j).Crashed? {
        IdleWork(RowsOf(t, j), now, cfg, outcome(j));
      }
    }
    assert tickers[1..][i - 1] == k;
  }

  lemma {:induction false} FillingSettles(t: Table, tickers: seq<int>, now: int, cfg: Config, outcome: int -> Outcome,
                                          k: int)
    requires Valid(t) && k in t
    ensures var after, today := Filled(t, tickers, now, cfg, outcome), DayOf(now);
            && k in after
            && Unsettled(after[k], today) <= Unsettled(t[k], today)
            && (SettlesPast(t, tickers, k, now, cfg, outcome) ==> Unsettled(after[k], today) < Unsettled(t[k], today))
    decreases |tickers|
  {
    hide Worked, Claim, Unsettled, ByDay, SettlesPast;
    if tickers == [] {
      NotReached(t, k, now, cfg, outcome);
    } else {
      var j := tickers[0];
      EmptyIsOrdered();
      WorkedKeeps(RowsOf(t, j), now, cfg, outcome(j));
      EachSuccessSettlesDays(RowsOf(t, j), now, cfg, outcome(j));
      var after := t[j := Worked(RowsOf(t, j), now, cfg, outcome(j))];
      assert Valid(after) by { hide Settled; }
      FillingSettles(after, tickers[1..], now, cfg, outcome, k);
      if SettlesPast(t, tickers, k, now, cfg, outcome) {
        if j == k {
          PastIsSettled(t, tickers, k, now, cfg, outcome);
        } else {
          StillReached(t, tickers, k, now, cfg, outcome);
        }
      }
    }
  }

  lemma NotReached(t: Table, k: int, now: int, cfg: Config, outcome: int -> Outcome)
    ensures !SettlesPast(t, [], k, now, cfg, outcome)
  {
    hide Claim;
  }

  lemma PastIsSettled(t: Table, tickers: seq<int>, k: int, now: int, cfg: Config, outcome: int -> Outcome)
    requires SettlesPast(t, tickers, k, now, cfg, outcome)
    ensures var c := Claim(RowsOf(t, k), now, cfg);
            outcome(k).Stored? && c != [] && c[0] < DayOf(now)
  {
    hide Claim;
  }

  /**
   * A whole tick never raises the number of unsettled past days of a ticker that has rows, and lowers it when it
   * gets to that ticker and stores a claim of past days. A new ticker ends its first tick owing at most its look-back.
   */
  lemma TickSettlesDays(t: Table, tickers: seq<int>, now: int, cfg: Config, outcome: int -> Outcome, k: int)
    requires Valid(t) && (k in t || k in tickers)
    ensures var p, today := Prepared(t, tickers, now, cfg), DayOf(now);
            var after := Filled(p, tickers, now, cfg, outcome);
            var owed := if RowsOf(t, k) == [] && k in tickers then Max(0, cfg.lookbackDays)
                        else Unsettled(RowsOf(t, k), today);
            && k in after
            && Unsettled(after[k], today) <= owed
            && (SettlesPast(p, tickers, k, now, cfg, outcome) ==> Unsettled(after[k], today) < owed)
  {
    hide Unsettled, PreparedRows, Filled, SettlesPast, KeepsSettled;
    var p := Prepared(t, tickers, now, cfg);
    EmptyIsOrdered();
    forall j | j in p ensures ByDay(p[j]) {
      if j in tickers {
        PreparedIsOrdered(RowsOf(t, j), now, cfg);
      }
    }
    PreparingCounts(RowsOf(t, k), now, cfg);
    FillingSettles(p, tickers, now, cfg, outcome, k);
  }

  lemma PreparedIsOrdered(rows: seq<DayRow>, now: int, cfg: Config)
    requires ByDay(rows)
    ensures ByDay(PreparedRows(rows, now, cfg))
  {
    PreparedKeeps(rows, DayOf(now), now, cfg);
  }

  lemma OneRowADay(rows: seq<DayRow>, i: nat, now: int, cfg: Config)
    requires ByDay(rows) && i < |rows| && EligibleDay(rows, rows[i].day, now, cfg)
    ensures Eligible(rows[i], now, cfg)
  {
  }

  /** History is filled before today: while a past day is eligible, a claim starts with one. */
  lemma PastDaysComeFirst(rows: seq<DayRow>, now: int, cfg: Config, day: int)
    requires ByDay(rows) && EligibleDay(rows, day, now, cfg) && day < DayOf(now)
    ensures Claim(rows, now, cfg) != [] && Claim(rows, now, cfg)[0] <= day < DayOf(now)
  {
    ClaimIsTheOldestRun(rows, now, cfg);
  }

  /**
   * Which done days are re-opened: exactly those of the recent past, not claimed just now, that are not
   * settled. One that stays incomplete until it has left the recent past is never re-opened again.
   */
  lemma ReopenedIff(r: DayRow, today: int, now: int, cfg: Config)
    requires r.status.Done? && r.lastAttempt.Some?
    ensures Incomplete(r, today, now, cfg) <==>
            !Settled(r) && today - cfg.reopenLookbackDays <= r.day <= today
            && r.lastAttempt.value < now - cfg.reopenAgeMs
    ensures Settled(r) <==> r.lastAttempt.value >= r.day * 86_400_000 + 86_400_000
  {
    assert (r.day + 1) * DAY_MS == (r.day + 1) * 86_400 * 1000;
    WholeSecond(r.lastAttempt.value, (r.day + 1) * 86_400);
  }

  /** Only done days that were once claimed are re-opened, or are settled. */
  lemma OthersStay(r: DayRow, today: int, now: int, cfg: Config)
    requires !r.status.Done? || r.lastAttempt.None?
    ensures !Incomplete(r, today, now, cfg) && !Settled(r)
  {
  }

  /** No ticker before the `i`-th ends the tick. */
  ghost predicate Comes(t: Table, tickers: seq<int>, i: nat, now: int, cfg: Config, outcome: int -> Outcome)
    requires i <= |tickers|
  {
    forall j :: 0 <= j < i ==> !Dies(t, tickers[j], now, cfg, outcome)
  }

  /** A tick works the tickers in turn, up to and including the first that ends it, each from its own rows. */
  lemma {:induction false} FilledMeans(t: Table, tickers: seq<int>, now: int, cfg: Config, outcome: int -> Outcome)
    requires forall i, j :: 0 <= i < j < |tickers| ==> tickers[i] != tickers[j]
    ensures var after := Filled(t, tickers, now, cfg, outcome);
            && (forall k :: k !in tickers ==> RowsOf(after, k) == RowsOf(t, k))
            && forall i :: 0 <= i < |tickers| ==>
                 RowsOf(after, tickers[i])
                 == if Comes(t, tickers, i, now, cfg, outcome) then
                      Worked(RowsOf(t, tickers[i]), now, cfg, outcome(tickers[i]))
                    else RowsOf(t, tickers[i])
    decreases |tickers|
  {
    hide Worked, Claim;
    if tickers != [] {
      var k, rest := tickers[0], tickers[1..];
      var after := t[k := Worked(RowsOf(t, k), now, cfg, outcome(k))];
      assert forall i :: 0 < i < |tickers| ==> tickers[i] == rest[i - 1];
      assert k !in rest;
      FilledMeans(after, rest, now, cfg, outcome);
      forall i | 0 < i < |tickers|
        ensures Comes(t, tickers, i, now, cfg, outcome) <==>
                !Dies(t, k, now, cfg, outcome) && Comes(after, rest, i - 1, now, cfg, outcome)
      {
        forall j | 0 <= j < i - 1
          ensures Dies(after, rest[j], now, cfg, outcome) <==> Dies(t, tickers[j + 1], now, cfg, outcome)
        {
          assert rest[j] == tickers[j + 1];
        }
        if !Comes(t, tickers, i, now, cfg, outcome) {
          var j :| 0 <= j < i && Dies(t, tickers[j], now, cfg, outcome);
          assert j > 0 ==> Dies(after, rest[j - 1], now, cfg, outcome);
        }
      }
    }
  }

  /**
   * A day claimed at its noon and not looked at again within the look-back stays done and half fetched: no tick from
   * the fifteenth day on changes its row.
   */
  lemma HalfDayIsLeft(now: int, cfg: Config, outcome: int -> Outcome)
    requires cfg.reopenLookbackDays == 14 && DayOf(now) >= 15
    ensures var half := DayRow(0, Done, Some(43_200_000));
            && !Settled(half)
            && half in Filled(Prepared(map[7 := [half]], [7], now, cfg), [7], now, cfg, outcome)[7]
  {
    var half, today := DayRow(0, Done, Some(43_200_000)), DayOf(now);
    var rows := [half, DayRow(today, Pending, None)];
    assert SeedDay([half], today) == rows by {
      assert [half][1..] == [];
    }
    assert PreparedRows([half], now, cfg) == rows;
    assert Prepared(map[7 := [half]], [7], now, cfg) == map[7 := rows];
    ClaimIsTheOldestRun(rows, now, cfg);
    hide Claim;
    assert Worked(rows, now, cfg, outcome(7))[0] == half;
  }
}
