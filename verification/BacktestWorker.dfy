/**
 * The backtest queue consumer (src/backtest-worker.js): the daily quota gate, and one delivery handled
 * start to finish, which is a path of the protocol's steps.
 */
module BacktestWorker {
  import opened Collections
  import opened RunRegistry
  import opened RunProtocol

  // ---- The daily quota gate -----------------------------------------------------------

  datatype Trigger = WriteBudget | QuotaThreshold

  /** One counter against its daily share, pausing at `pct` percent; no `pct` or no share switches it off. */
  datatype Check = Check(trigger: Trigger, used: int, share: int, pct: Option<int>)

  /** Why a run is parked, and at which counter. */
  datatype Reached = Reached(trigger: Trigger, counter: nat)

  /** The counters in the order they are checked; the write share still applies at 100% with the percent check off. */
  function Checks(pausePct: int, used: (int, int, int, int), share: (int, int, int, int)): seq<Check> {
    var pct := if pausePct > 0 then Some(pausePct) else None;
    [Check(WriteBudget, used.0, share.0, if pct.Some? then pct else Some(100)),
     Check(QuotaThreshold, used.1, share.1, pct),
     Check(QuotaThreshold, used.2, share.2, pct),
     Check(QuotaThreshold, used.3, share.3, pct)]
  }

  /**
   * The first counter at `pausePct` percent of its share; without a percentage only the writes are held, to their
   * whole share.
   */
  method QuotaTrigger(pausePct: int, used: (int, int, int, int), share: (int, int, int, int))
    returns (t: Option<Reached>)
    ensures var us, ss := [used.0, used.1, used.2, used.3], [share.0, share.1, share.2, share.3];
            && (t.Some? ==>
                  var k := t.value.counter;
                  && k < 4 && ss[k] > 0 && (t.value.trigger == WriteBudget <==> k == 0)
                  && if pausePct > 0 then us[k] * 100 >= ss[k] * pausePct else k == 0 && us[k] >= ss[k])
            && (forall k :: 0 <= k < (if t.Some? then t.value.counter else 4) && ss[k] > 0 ==>
                  if pausePct > 0 then us[k] * 100 < ss[k] * pausePct else k == 0 ==> us[k] < ss[k])
  {
    var checks := Checks(pausePct, used, share);
    ghost var us, ss := [used.0, used.1, used.2, used.3], [share.0, share.1, share.2, share.3];
    var i := 0;
    while i < |checks|
      invariant 0 <= i <= |checks|
      invariant forall k :: 0 <= k < i && ss[k] > 0 ==>
                  if pausePct > 0 then us[k] * 100 < ss[k] * pausePct else k == 0 ==> us[k] < ss[k]
    {
      var c := checks[i];
      assert c.used == us[i] && c.share == ss[i] && (c.trigger == WriteBudget <==> i == 0);
      assert c.pct == if pausePct > 0 then Some(pausePct) else if i == 0 then Some(100) else None;
      if c.share > 0 && c.pct.Some? {
        if c.used * 100 >= c.share * c.pct.value {
          return Some(Reached(c.trigger, i));
        }
      }
      i := i + 1;
    }
    t := None;
  }

  // ---- One delivery -------------------------------------------------------------------

  /** How the part this delivery runs ends, and whether a quota parks it or the send of the next part works. */
  datatype Run = EndsComplete | EndsFailed | Continues(next: int, parks: bool, sendOk: bool)

  /** Two rows the protocol cannot tell apart: same status, same stored cursor. */
  predicate SameRow(a: Option<Row<Message>>, b: Option<Row<Message>>) {
    a.Some? == b.Some? && (a.Some? ==> a.value.status == b.value.status && a.value.cursor == b.value.cursor)
  }

  /** A delivery of a run that is over, or a continuation of one that is gone. */
  predicate Stale(was: Option<Row<Message>>, m: Message) {
    if was.None? then m.part > 1 else Terminal(was.value.status)
  }

  predicate Stands(row: Option<Row<Message>>, status: Status, cursor: Option<Message>) {
    row.Some? && row.value.status == status && row.value.cursor == cursor
  }

  /** What running the part answers. */
  predicate Ran(stored: Option<Message>, m: Message, run: Run, row: Option<Row<Message>>, acked: bool,
                sent: seq<Message>) {
    match run
    case EndsComplete => acked && sent == [] && Stands(row, Complete, stored)
    case EndsFailed => acked && sent == [] && Stands(row, Failed, stored)
    case Continues(next, parks, sendOk) =>
      var e := Message(m.part + 1, Some(next));
      if parks then acked && sent == [] && Stands(row, Paused, Some(e))
      else acked == sendOk && sent == (if sendOk then [e] else []) && Stands(row, Running, stored)
  }

  /**
   * What the handler answers. A stale delivery is dropped; one for a paused run saves its cursor, when it has
   * one; a continuation over quota is parked; any other runs its part, and the run is over, parked with the
   * next envelope, handed on by one message, or, when that send fails, retried by this very message.
   */
  predicate Answers(was: Option<Row<Message>>, m: Message, overQuota: bool, run: Run,
                    row: Option<Row<Message>>, acked: bool, sent: seq<Message>)
  {
    var stored := if was.Some? then was.value.cursor else None;
    if Stale(was, m) then acked && sent == [] && row == was
    else if was.Some? && was.value.status.Paused? then
      acked && sent == [] && if m.cursor.Some? then Stands(row, Paused, Some(m)) else row == was
    else if overQuota && m.part > 1 then acked && sent == [] && Stands(row, Paused, Some(m))
    else Ran(stored, m, run, row, acked, sent)
  }

  lemma {:induction false} ExecSnoc(s: State, steps: seq<Step>, c: State, step: Step)
    requires Exec(s, steps) == Some(c)
    ensures Exec(s, steps + [step]) == Next(c, step)
  {
    ExecConcat(s, steps, [step]);
    var one := [step];
    assert Exec(c, one) == Next(c, step) by {
      if Next(c, step).Some? {
        assert one[1..] == [];
      }
    }
  }

  function RowOf(rows: map<string, Row<Message>>, id: string): Option<Row<Message>> {
    if id in rows then Some(rows[id]) else None
  }

  /** The rows of the other runs, untouched. */
  twostate predicate OthersUntouched(reg: Registry<Message>, id: string)
    reads reg
  {
    forall other :: other != id ==> RowOf(reg.rows, other) == RowOf(old(reg.rows), other)
  }

  /** A path of protocol steps from `s` ending where this worker and this row now stand. */
  ghost predicate Reaches(s: State, steps: seq<Step>, t: State, row: Option<Row<Message>>) {
    Exec(s, steps) == Some(t) && SameRow(t.row, row) && t.handlers == s.handlers
  }

  lemma ReachesNext(s: State, steps: seq<Step>, c: State, row: Option<Row<Message>>, step: Step,
                    row1: Option<Row<Message>>)
    requires Reaches(s, steps, c, row)
    requires Next(c, step).Some? && SameRow(Next(c, step).value.row, row1) && Next(c, step).value.handlers == c.handlers
    ensures Reaches(s, steps + [step], Next(c, step).value, row1)
  {
    hide Exec, Next;
    ExecSnoc(s, steps, c, step);
  }

  /** Runs the part and hands the run on: parked, sent, retried, or ended. */
  method RunPart(reg: Registry<Message>, id: string, m: Message, run: Run, now: int, ghost s: State,
                 ghost steps0: seq<Step>, ghost c0: State)
    returns (acked: bool, sent: seq<Message>, ghost steps: seq<Step>, ghost c: State)
    requires Reaches(s, steps0, c0, RowOf(reg.rows, id))
    requires c0.worker == Going(m) && c0.queue == []
    modifies reg
    ensures Reaches(s, steps, c, RowOf(reg.rows, id))
    ensures c.queue == sent + (if acked then [] else [m])
    ensures if acked then c.worker.Acking? || c.worker.Leaving? else c.worker.Idle?
    ensures OthersUntouched(reg, id)
    ensures id in old(reg.rows) && old(reg.rows)[id].status.Running? ==>
              Ran(old(reg.rows)[id].cursor, m, run, RowOf(reg.rows, id), acked, sent)
  {
    hide Reaches;
    sent, steps, c := [], steps0, c0;
    ghost var was := RowOf(reg.rows, id);
    ReachesSame(s, steps, c, was);
    match run {
      case EndsComplete =>
        reg.MarkComplete(id, "result", now);
        ReachesNext(s, steps, c, was, CompleteRun, RowOf(reg.rows, id));
        steps, c := steps + [CompleteRun], Next(c, CompleteRun).value;
        acked := true;
      case EndsFailed =>
        reg.MarkFailed(id, "error", now);
        ReachesNext(s, steps, c, was, FailRun, RowOf(reg.rows, id));
        steps, c := steps + [FailRun], Next(c, FailRun).value;
        acked := true;
      case Continues(next, parks, sendOk) =>
        ReachesNext(s, steps, c, was, PartEnds(next), was);
        steps, c := steps + [PartEnds(next)], c.(worker := Ended(m, next));
        var e := Message(m.part + 1, Some(next));
        if parks {
          var _ := reg.Pause(id, "quota", Some(e), now, None);
          ReachesNext(s, steps, c, was, ParkNext, RowOf(reg.rows, id));
          steps, c := steps + [ParkNext], Next(c, ParkNext).value;
          acked := true;
        } else if sendOk {
          sent := [e];
          ReachesNext(s, steps, c, was, SendNext, was);
          steps, c := steps + [SendNext], Next(c, SendNext).value;
          acked := true;
        } else {
          ReachesNext(s, steps, c, was, Retry, was);
          steps, c := steps + [Retry], Next(c, Retry).value;
          acked := false;
        }
    }
  }

  lemma ReachesSame(s: State, steps: seq<Step>, c: State, row: Option<Row<Message>>)
    requires Reaches(s, steps, c, row)
    ensures SameRow(c.row, row) && c.handlers == s.handlers && Exec(s, steps) == Some(c)
  {
    hide Exec;
  }

  lemma StatusIsRead(s: State, m: Message, row: Option<Row<Message>>)
    requires s.worker.Idle? && s.queue == [m] && SameRow(s.row, row)
    ensures Reaches(s, [Deliver(0), ReadStatus], Next(s.(queue := [], worker := Fetched(m)), ReadStatus).value, row)
  {
    hide Exec;
    var c := s.(queue := [], worker := Fetched(m));
    assert Without([m], 0) == [];
    StartsHere(s, row);
    ReachesNext(s, [], s, row, Deliver(0), row);
    ReachesNext(s, [] + [Deliver(0)], c, row, ReadStatus, row);
    assert [] + [Deliver(0)] + [ReadStatus] == [Deliver(0), ReadStatus];
  }

  /**
   * Saving a paused delivery's cursor, or parking one over quota: the row keeps the message, and the worker
   * only acks.
   */
  lemma Parks(s: State, steps: seq<Step>, c: State, was: Option<Row<Message>>, m: Message, row: Option<Row<Message>>,
              step: Step) returns (d: State)
    requires Reaches(s, steps, c, was) && WellFormedMessage(m)
    requires if step.SavePaused? then c.worker == SawPaused(m)
             else step.QuotaPark? && c.worker == Going(m) && m.part > 1
    requires m.cursor.Some? && was.Some? ==> SameRow(row, Some(PausedBy(was.value, "operator", Some(m), 0, None)))
    requires m.cursor.None? || was.None? ==> row == was
    ensures Reaches(s, steps + [step], d, row) && d.worker == Acking && d.queue == c.queue
  {
    ReachesSame(s, steps, c, was);
    ReachesNext(s, steps, c, was, step, row);
    d := Next(c, step).value;
  }

  /**
   * What the handler does before it runs the part, if it runs it at all: skip, save the cursor, park, or insert
   * the row.
   */
  method OpenDelivery(reg: Registry<Message>, id: string, m: Message, overQuota: bool, now: int, ghost s: State)
    returns (go: bool, ghost steps: seq<Step>, ghost c: State)
    requires WellFormedMessage(m)
    requires s.worker.Idle? && s.queue == [m] && SameRow(s.row, RowOf(reg.rows, id))
    modifies reg
    ensures Reaches(s, steps, c, RowOf(reg.rows, id))
    ensures c.queue == [] && c.worker == (if go then Going(m) else Acking)
    ensures OthersUntouched(reg, id)
    ensures var was, row := RowOf(old(reg.rows), id), RowOf(reg.rows, id);
            && (go ==> Stands(row, Running, if was.Some? then was.value.cursor else None)
                       && !Stale(was, m) && !(was.Some? && was.value.status.Paused?) && !(overQuota && m.part > 1))
            && (!go ==> (Stale(was, m) || (was.Some? && was.value.status.Paused?) || (overQuota && m.part > 1))
                        && forall run: Run :: Answers(was, m, overQuota, run, row, true, []))
  {
    hide Reaches;
    ghost var was := RowOf(reg.rows, id);
    StatusIsRead(s, m, was);
    steps, c := [Deliver(0), ReadStatus], Next(s.(queue := [], worker := Fetched(m)), ReadStatus).value;
    ReachesSame(s, steps, c, was);

    var known := id in reg.rows;
    if (m.part > 1 && !known) || (known && Terminal(reg.rows[id].status)) {
      return false, steps, c;
    }
    if known && reg.rows[id].status.Paused? {
      if m.cursor.Some? {
        var _ := reg.Pause(id, "operator", Some(m), now, None);
      }
      c := Parks(s, steps, c, was, m, RowOf(reg.rows, id), SavePaused);
      steps := steps + [SavePaused];
      return false, steps, c;
    }
    if overQuota && m.part > 1 {
      var _ := reg.Pause(id, "quota", Some(m), now, None);
      c := Parks(s, steps, c, was, m, RowOf(reg.rows, id), QuotaPark);
      steps := steps + [QuotaPark];
      return false, steps, c;
    }
    if m.cursor.None? {
      reg.Insert(id, now);
      ReachesNext(s, steps, c, was, InsertRow, RowOf(reg.rows, id));
      steps, c := steps + [InsertRow], Next(c, InsertRow).value;
    }
    go := true;
  }

  /**
   * Handles one delivery with nothing in between its statements. `overQuota` is the gate's answer before
   * the part, `now` the clock. Returns whether the message was acked (else retried) and what was sent:
   * exactly a path of the protocol's steps.
   */
  method HandleDelivery(reg: Registry<Message>, id: string, m: Message, overQuota: bool, run: Run, now: int,
                        ghost s: State)
    returns (acked: bool, sent: seq<Message>, ghost steps: seq<Step>)
    requires WellFormedMessage(m)
    requires s.worker.Idle? && s.queue == [m] && SameRow(s.row, RowOf(reg.rows, id))
    modifies reg
    ensures Exec(s, steps).Some?
    ensures var t := Exec(s, steps).value;
            && SameRow(t.row, RowOf(reg.rows, id))
            && t.queue == sent + (if acked then [] else [m])
            && t.worker.Idle? && t.handlers == s.handlers
    ensures forall other :: other != id ==>
              && (other in reg.rows <==> other in old(reg.rows))
              && (other in reg.rows ==> reg.rows[other] == old(reg.rows)[other])
    ensures id !in old(reg.rows) && m.part > 1 ==> acked && sent == [] && id !in reg.rows
    ensures id in old(reg.rows) && old(reg.rows)[id].status in {Complete, Failed, Cancelled} ==>
              acked && sent == [] && id in reg.rows && reg.rows[id] == old(reg.rows)[id]
    ensures id in old(reg.rows) && old(reg.rows)[id].status == Paused ==>
              && acked && sent == [] && id in reg.rows
              && (m.cursor.Some? ==> reg.rows[id].status == Paused && reg.rows[id].cursor == Some(m))
              && (m.cursor.None? ==> reg.rows[id] == old(reg.rows)[id])
    ensures id in old(reg.rows) && old(reg.rows)[id].status == Running && overQuota && m.part > 1 ==>
              acked && sent == [] && id in reg.rows && reg.rows[id].status == Paused && reg.rows[id].cursor == Some(m)
    ensures (if id in old(reg.rows) then old(reg.rows)[id].status == Running && !(overQuota && m.part > 1)
             else m.part == 1) ==>
              var stored := if id in old(reg.rows) then old(reg.rows)[id].cursor else None;
              && id in reg.rows
              && var row := reg.rows[id];
                 match run
                 case EndsComplete => acked && sent == [] && row.status == Complete && row.cursor == stored
                 case EndsFailed => acked && sent == [] && row.status == Failed && row.cursor == stored
                 case Continues(next, parks, sendOk) =>
                   var e := Message(m.part + 1, Some(next));
                   if parks then acked && sent == [] && row.status == Paused && row.cursor == Some(e)
                   else if sendOk then acked && sent == [e] && row.status == Running && row.cursor == stored
                   else !acked && sent == [] && row.status == Running && row.cursor == stored
  {
    hide Exec;
    ghost var c;
    var go;
    go, steps, c := OpenDelivery(reg, id, m, overQuota, now, s);
    acked, sent := true, [];
    if go {
      acked, sent, steps, c := RunPart(reg, id, m, run, now, s, steps, c);
    }
    assert Answers(RowOf(old(reg.rows), id), m, overQuota, run, RowOf(reg.rows, id), acked, sent);
    forall other | other != id
      ensures other in reg.rows <==> other in old(reg.rows)
      ensures other in reg.rows ==> reg.rows[other] == old(reg.rows)[other]
    {
      assert RowOf(reg.rows, other) == RowOf(old(reg.rows), other);
    }
    if acked {
      ReachesSame(s, steps, c, RowOf(reg.rows, id));
      ReachesNext(s, steps, c, RowOf(reg.rows, id), Ack, RowOf(reg.rows, id));
      steps := steps + [Ack];
    }
  }

  lemma StartsHere(s: State, row: Option<Row<Message>>)
    requires SameRow(s.row, row)
    ensures Reaches(s, [], s, row)
  {
  }
}
