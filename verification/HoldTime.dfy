/** Hold days and the instant a position's time exit falls due (src/agents/risk_mgmt/exit.js). */
module HoldTime {
  import opened Calendar
  import opened Collections

  const MAX_HOLD_DAYS := 1000

  /** 0 is Sunday; day 0 was a Thursday. */
  function Weekday(day: int): int {
    (day + 4) % 7
  }

  predicate CountsAsHoldDay(day: int, sevenDay: bool) {
    sevenDay || (Weekday(day) != 0 && Weekday(day) != 6)
  }

  /** Hold days in (from, to]. */
  function HoldDays(from: int, to: int, sevenDay: bool): nat
    decreases to - from
  {
    if to <= from then 0 else HoldDays(from, to - 1, sevenDay) + (if CountsAsHoldDay(to, sevenDay) then 1 else 0)
  }

  method TradingDaysBetween(from: int, to: int, sevenDay: bool) returns (count: nat)
    ensures count == HoldDays(DayOf(from), DayOf(to), sevenDay)
  {
    count := 0;
    var t := DayOf(from) + 1;
    while t <= DayOf(to)
      invariant DayOf(from) < t && (t <= DayOf(to) + 1 || t == DayOf(from) + 1)
      invariant count == HoldDays(DayOf(from), t - 1, sevenDay)
    {
      if CountsAsHoldDay(t, sevenDay) {
        count := count + 1;
      }
      t := t + 1;
    }
  }

  /** Days left until one that counts: at most a weekend. */
  function DaysToHoldDay(day: int, sevenDay: bool): nat {
    if CountsAsHoldDay(day, sevenDay) then 0 else if Weekday(day) == 6 then 2 else 1
  }

  /** The first day at or after `day` at which `needed` more hold days, beyond `count`, have passed. */
  function DueDay(day: int, count: int, needed: int, sevenDay: bool): int
    requires count < needed
    decreases needed - count, DaysToHoldDay(day, sevenDay)
  {
    var passed := if CountsAsHoldDay(day, sevenDay) then count + 1 else count;
    if passed >= needed then day else DueDay(day + 1, passed, needed, sevenDay)
  }

  /** The first instant of an open position at which the hold rule holds, for any limit. */
  function HoldStart(openedAt: int, maxHoldDays: int, sevenDay: bool): int {
    if maxHoldDays <= 0 then openedAt else DueDay(DayOf(openedAt) + 1, 0, maxHoldDays, sevenDay) * DAY_MS
  }

  /** The due instant; none for an unusable limit. */
  function TimeExitDue(openedAt: int, maxHoldDays: int, sevenDay: bool): Option<int> {
    if maxHoldDays <= 0 || maxHoldDays > MAX_HOLD_DAYS then None else Some(HoldStart(openedAt, maxHoldDays, sevenDay))
  }

  method TimeExitDueAt(openedAt: int, maxHoldDays: int, sevenDay: bool) returns (due: Option<int>)
    ensures due == TimeExitDue(openedAt, maxHoldDays, sevenDay)
  {
    if maxHoldDays <= 0 || maxHoldDays > MAX_HOLD_DAYS {
      return None;
    }
    var count := 0;
    var t := DayOf(openedAt) + 1;
    while true
      invariant count < maxHoldDays
      invariant DueDay(DayOf(openedAt) + 1, 0, maxHoldDays, sevenDay) == DueDay(t, count, maxHoldDays, sevenDay)
      decreases maxHoldDays - count, DaysToHoldDay(t, sevenDay)
    {
      if CountsAsHoldDay(t, sevenDay) {
        count := count + 1;
      }
      if count >= maxHoldDays {
        return Some(t * DAY_MS);
      }
      t := t + 1;
    }
  }

  lemma {:induction false} HoldDaysGrow(from: int, a: int, b: int, sevenDay: bool)
    requires a <= b
    ensures HoldDays(from, a, sevenDay) <= HoldDays(from, b, sevenDay)
    decreases b - a
  {
    if a < b {
      HoldDaysGrow(from, a, b - 1, sevenDay);
    }
  }

  lemma {:induction false} DueDayIsFirst(from: int, day: int, needed: int, sevenDay: bool)
    requires from < day && HoldDays(from, day - 1, sevenDay) < needed
    ensures var d := DueDay(day, HoldDays(from, day - 1, sevenDay), needed, sevenDay);
            d >= day && HoldDays(from, d, sevenDay) >= needed && HoldDays(from, d - 1, sevenDay) < needed
    decreases needed - HoldDays(from, day - 1, sevenDay), DaysToHoldDay(day, sevenDay)
  {
    if HoldDays(from, day, sevenDay) < needed {
      DueDayIsFirst(from, day + 1, needed, sevenDay);
    }
  }

  /** The hold rule holds exactly from its start on. */
  lemma HoldStartIsFirst(openedAt: int, maxHoldDays: int, sevenDay: bool, asOf: int)
    requires maxHoldDays > 0 || openedAt <= asOf
    ensures var start := HoldStart(openedAt, maxHoldDays, sevenDay);
            && start >= openedAt && (maxHoldDays > 0 ==> start > openedAt && start % DAY_MS == 0)
            && (HoldDays(DayOf(openedAt), DayOf(asOf), sevenDay) >= maxHoldDays <==> asOf >= start)
  {
    if maxHoldDays > 0 {
      var from := DayOf(openedAt);
      DueDayIsFirst(from, from + 1, maxHoldDays, sevenDay);
      var d := DueDay(from + 1, 0, maxHoldDays, sevenDay);
      if DayOf(asOf) >= d {
        HoldDaysGrow(from, d, DayOf(asOf), sevenDay);
      } else {
        HoldDaysGrow(from, DayOf(asOf), d - 1, sevenDay);
      }
    }
  }

  /** The due instant is exactly the first at which the hold rule holds. */
  lemma DueIsTheFirstInstant(openedAt: int, maxHoldDays: int, sevenDay: bool, asOf: int)
    requires TimeExitDue(openedAt, maxHoldDays, sevenDay).Some?
    ensures var due := TimeExitDue(openedAt, maxHoldDays, sevenDay).value;
            && due > openedAt && due % DAY_MS == 0
            && (HoldDays(DayOf(openedAt), DayOf(asOf), sevenDay) >= maxHoldDays <==> asOf >= due)
  {
    hide HoldStart;
    HoldStartIsFirst(openedAt, maxHoldDays, sevenDay, asOf);
  }

  /** 3 January 1970, day 2, was a Saturday. */
  predicate IsWeekend(day: int) {
    day % 7 == 2 || day % 7 == 3
  }

  lemma CountsMean(day: int, sevenDay: bool)
    ensures CountsAsHoldDay(day, sevenDay) <==> sevenDay || !IsWeekend(day)
  {
  }

  /** The days in (start, end] that count: all of them, or all but the weekends. */
  ghost function DaysHeld(start: int, end: int, sevenDay: bool): set<int> {
    set d: int | start < d <= end && (sevenDay || !IsWeekend(d))
  }

  lemma {:induction false} HoldDaysMean(start: int, end: int, sevenDay: bool)
    ensures HoldDays(start, end, sevenDay) == |DaysHeld(start, end, sevenDay)|
    decreases end - start
  {
    hide CountsAsHoldDay, IsWeekend;
    if start < end {
      CountsMean(end, sevenDay);
      HoldDaysMean(start, end - 1, sevenDay);
      var rest := DaysHeld(start, end - 1, sevenDay);
      assert DaysHeld(start, end, sevenDay) == if CountsAsHoldDay(end, sevenDay) then rest + {end} else rest;
    } else {
      assert DaysHeld(start, end, sevenDay) == {};
    }
  }

  /** Limits from 1 to 1000 days are usable. */
  lemma UsableLimits(openedAt: int, maxHoldDays: int, sevenDay: bool)
    ensures TimeExitDue(openedAt, maxHoldDays, sevenDay).Some? <==> 1 <= maxHoldDays <= 1000
  {
  }
}
