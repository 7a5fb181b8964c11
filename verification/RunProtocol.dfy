/**
 * The pause / resume / cancel protocol of one backtest run, statement by statement: the worker's queue
 * handler (src/backtest-worker.js), the operator's routes (src/index.js) and the registry row they share.
 * Each delivery is acked or retried once and registry writes succeed.
 */
module RunProtocol {
  import opened Collections
  import opened RunRegistry

  /** A part to run. The first part's message carries no cursor; an envelope is a message with one. */
  datatype Message = Message(part: nat, cursor: Option<int>)

  /**
   * The one consumer. It holds its message until it has handed the run on: `Leaving` still may be retried
   * (the run ended in this delivery), `Acking` has passed the run on, or found nothing to do, and only acks.
   */
  datatype Worker = Idle | Fetched(m: Message) | SawPaused(m: Message) | Going(m: Message)
                  | Ended(m: Message, next: int)
                  | Leaving(m: Message) | Acking

  /** A resume request after its read, after its claim, and after a failed send. */
  datatype Handler = HasRead(e: Message) | InHand(e: Message) | Reparking(e: Message)

  /**
   * `newest` is the continuation last sent or parked by the worker; `dropped` tells that a message
   * without a cursor was acked because the run was paused.
   */
  datatype State = State(row: Option<Row<Message>>, queue: seq<Message>, worker: Worker, handlers: seq<Handler>,
                         newest: Message, dropped: bool)

  /** One SQL statement, queue operation or request, with the outcome the outside world gave it. */
  datatype Step =
    | PauseRoute | CancelRoute | Purge
    | ResumeRead | ResumeClaim(h: nat) | ResumeSend(h: nat) | ResumeSendFails(h: nat) | ResumeRepark(h: nat)
    | Deliver(q: nat) | ReadStatus | SavePaused | InsertRow | QuotaPark | PartEnds(next: int)
    | ParkNext | SendNext | CompleteRun | FailRun | Ack | Retry

  function Without<T>(s: seq<T>, i: nat): seq<T>
    requires i < |s|
  {
    s[..i] + s[i + 1..]
  }

  function Repaused(row: Option<Row<Message>>, cursor: Option<Message>): Option<Row<Message>> {
    if row.Some? then Some(PausedBy(row.value, "operator", cursor, 0, None)) else None
  }

  predicate IsLive(s: State) {
    s.row.Some? && Live(s.row.value)
  }

  /** The state after a step, or None when the step is not possible. */
  function Next(s: State, step: Step): Option<State> {
    match step
    case PauseRoute => Some(s.(row := Repaused(s.row, None)))
    case CancelRoute => Some(s.(row := if s.row.Some? then Some(CancelledBy(s.row.value, "operator", 0)) else None))
    case Purge =>
      if s.row.Some? && (s.row.value.status.Failed? || s.row.value.status.Cancelled?) then Some(s.(row := None))
      else None
    case ResumeRead =>
      if s.row.Some? && Claimable(s.row.value) then
        Some(s.(handlers := s.handlers + [HasRead(s.row.value.cursor.value)])) else None
    case ResumeClaim(h) =>
      if h < |s.handlers| && s.handlers[h].HasRead? then
        if s.row.Some? && Claimable(s.row.value) then
          Some(s.(row := Some(Resumed(s.row.value)), handlers := s.handlers[h := InHand(s.handlers[h].e)]))
        else Some(s.(handlers := Without(s.handlers, h)))
      else None
    case ResumeSend(h) =>
      if h < |s.handlers| && s.handlers[h].InHand? then
        Some(s.(queue := s.queue + [s.handlers[h].e], handlers := Without(s.handlers, h)))
      else None
    case ResumeSendFails(h) =>
      if h < |s.handlers| && s.handlers[h].InHand? then
        Some(s.(handlers := s.handlers[h := Reparking(s.handlers[h].e)])) else None
    case ResumeRepark(h) =>
      if h < |s.handlers| && s.handlers[h].Reparking? then
        Some(s.(row := Repaused(s.row, Some(s.handlers[h].e)), handlers := Without(s.handlers, h)))
      else None
    case Deliver(q) =>
      if q < |s.queue| && s.worker.Idle? then Some(s.(queue := Without(s.queue, q), worker := Fetched(s.queue[q])))
      else None
    case ReadStatus =>
      if !s.worker.Fetched? then None
      else
        var m := s.worker.m;
        if s.row.None? then Some(s.(worker := if m.part > 1 then Acking else Going(m)))
        else if Terminal(s.row.value.status) then Some(s.(worker := Acking))
        else if s.row.value.status.Paused? then Some(s.(worker := SawPaused(m)))
        else Some(s.(worker := Going(m)))
    case SavePaused =>
      if !s.worker.SawPaused? then None
      else if s.worker.m.cursor.Some? then Some(s.(row := Repaused(s.row, Some(s.worker.m)), worker := Acking))
      else Some(s.(worker := Acking, dropped := true))
    case InsertRow =>
      if s.worker.Going? && s.worker.m.cursor.None? then
        Some(s.(row := if s.row.Some? then s.row else Some(NewRow(0)))) else None
    case QuotaPark =>
      if s.worker.Going? && s.worker.m.part > 1 then
        Some(s.(row := Repaused(s.row, Some(s.worker.m)), worker := Acking)) else None
    case PartEnds(next) =>
      if s.worker.Going? then Some(s.(worker := Ended(s.worker.m, next))) else None
    case ParkNext =>
      if s.worker.Ended? then
        var e := Message(s.worker.m.part + 1, Some(s.worker.next));
        Some(s.(row := Repaused(s.row, Some(e)), worker := Acking, newest := e))
      else None
    case SendNext =>
      if s.worker.Ended? then
        var e := Message(s.worker.m.part + 1, Some(s.worker.next));
        Some(s.(queue := s.queue + [e], worker := Acking, newest := e))
      else None
    case CompleteRun =>
      if s.worker.Going? then
        Some(s.(row := if s.row.Some? then Some(Completed(s.row.value, "", 0)) else None,
                worker := Leaving(s.worker.m)))
      else None
    case FailRun =>
      if s.worker.Going? then
        Some(s.(row := if s.row.Some? then Some(FailedWith(s.row.value, "", 0)) else None,
                worker := Leaving(s.worker.m)))
      else None
    case Ack => if s.worker.Acking? || s.worker.Leaving? then Some(s.(worker := Idle)) else None
    case Retry =>
      if !s.worker.Idle? && !s.worker.Acking? then Some(s.(queue := s.queue + [s.worker.m], worker := Idle)) else None
  }

  function Exec(s: State, steps: seq<Step>): Option<State>
    decreases |steps|
  {
    if steps == [] then Some(s)
    else
      match Next(s, steps[0])
      case None => None
      case Some(t) => Exec(t, steps[1..])
  }

  /** A run just started: its row, when the route managed to write it, and its part-1 message. */
  function Started(registered: bool): State {
    var m := Message(1, None);
    State(if registered then Some(NewRow(0)) else None, [m], Idle, [], m, false)
  }

  // ---- The token ----------------------------------------------------------------------

  predicate Holds(w: Worker) {
    !w.Idle? && !w.Acking?
  }

  function HandTokens(hs: seq<Handler>): seq<Message> {
    if hs == [] then []
    else (if hs[0].HasRead? then [] else [hs[0].e]) + HandTokens(hs[1..])
  }

  /**
   * Every place the run's continuation can be: a queued message, the delivery in the worker, the stored
   * cursor, or an envelope in a resume request's hand.
   */
  function Tokens(s: State): seq<Message> {
    s.queue
    + (if Holds(s.worker) then [s.worker.m] else [])
    + (if s.row.Some? && s.row.value.cursor.Some? then [s.row.value.cursor.value] else [])
    + HandTokens(s.handlers)
  }

  lemma {:induction false} HandTokensConcat(a: seq<Handler>, b: seq<Handler>)
    ensures HandTokens(a + b) == HandTokens(a) + HandTokens(b)
  {
    if a == [] {
      assert a + b == b;
    } else {
      assert (a + b)[1..] == a[1..] + b;
      HandTokensConcat(a[1..], b);
    }
  }

  function HandToken(h: Handler): seq<Message> {
    if h.HasRead? then [] else [h.e]
  }

  lemma {:induction false} HandTokensAt(hs: seq<Handler>, i: nat)
    requires i < |hs|
    ensures HandTokens(hs) == HandTokens(hs[..i]) + HandToken(hs[i]) + HandTokens(hs[i + 1..])
  {
    hide HandTokens;
    var a, b, c := hs[..i], [hs[i]], hs[i + 1..];
    assert hs == a + (b + c);
    HandTokensConcat(a, b + c);
    HandTokensConcat(b, c);
    NoHandToken(hs[i]);
    Assoc(HandTokens(a), HandTokens(b), HandTokens(c));
  }

  lemma HandTokensRemoved(hs: seq<Handler>, i: nat)
    requires i < |hs|
    ensures HandTokens(Without(hs, i)) == HandTokens(hs[..i]) + HandTokens(hs[i + 1..])
  {
    HandTokensConcat(hs[..i], hs[i + 1..]);
  }

  lemma HandTokensReplaced(hs: seq<Handler>, i: nat, h: Handler)
    requires i < |hs|
    ensures HandTokens(hs[i := h]) == HandTokens(hs[..i]) + HandToken(h) + HandTokens(hs[i + 1..])
  {
    var n := hs[i := h];
    HandTokensAt(n, i);
    assert n[..i] == hs[..i] && n[i + 1..] == hs[i + 1..];
  }

  predicate WellFormedMessage(m: Message) {
    m.part >= 1 && (m.cursor.None? <==> m.part == 1)
  }

  /**
   * The protocol's invariant. A stored cursor belongs to a paused row; there is never a second token; a
   * running or paused run has exactly one, unless a cursor-less message was acked while paused -- and then
   * the run is not running and no token will ever come back.
   */
  ghost predicate Inv(s: State) {
    && (s.row.Some? && s.row.value.cursor.Some? ==> s.row.value.status.Paused? && s.row.value.cursor.value.cursor.Some?)
    && (forall m :: m in Tokens(s) ==> WellFormedMessage(m))
    && WellFormedMessage(s.newest)
    && (s.newest.cursor.Some? ==> forall m :: m in Tokens(s) ==> m.cursor.Some?)
    && (forall h :: h in s.handlers ==> h.e.cursor.Some? && WellFormedMessage(h.e))
    && |Tokens(s)| <= 1
    && (s.dropped ==> Tokens(s) == [] && !(s.row.Some? && s.row.value.status.Running?))
    && (IsLive(s) && !s.dropped ==> |Tokens(s)| == 1)
    && (s.worker.Leaving? ==> !IsLive(s))
    && (s.worker.SawPaused? ==> !(s.row.Some? && s.row.value.status.Running?))
  }

  lemma StartedOk(registered: bool)
    ensures Inv(Started(registered))
  {
    assert Tokens(Started(registered)) == [Message(1, None)];
  }

  predicate OfOperator(step: Step) {
    step.PauseRoute? || step.CancelRoute? || step.Purge?
  }

  predicate OfRequest(step: Step) {
    step.ResumeRead? || step.ResumeClaim? || step.ResumeSend? || step.ResumeSendFails? || step.ResumeRepark?
  }

  lemma OperatorStepKeeps(s: State, step: Step)
    requires Inv(s) && Next(s, step).Some? && OfOperator(step)
    ensures Inv(Next(s, step).value)
  {
    hide HandTokens;
  }

  lemma ReadKeeps(s: State)
    requires Inv(s) && Next(s, ResumeRead).Some?
    ensures Inv(Next(s, ResumeRead).value)
  {
    hide HandTokens;
    HandTokensConcat(s.handlers, [HasRead(s.row.value.cursor.value)]);
    NoHandToken(HasRead(s.row.value.cursor.value));
    assert s.row.value.cursor.value in Tokens(s);
  }

  lemma ClaimKeeps(s: State, h: nat)
    requires Inv(s) && Next(s, ResumeClaim(h)).Some?
    ensures Inv(Next(s, ResumeClaim(h)).value)
  {
    hide HandTokens;
    HandTokensAt(s.handlers, h);
    HandTokensRemoved(s.handlers, h);
    HandTokensReplaced(s.handlers, h, InHand(s.handlers[h].e));
  }

  lemma {:induction false} SendKeeps(s: State, h: nat)
    requires Inv(s) && Next(s, ResumeSend(h)).Some?
    ensures Inv(Next(s, ResumeSend(h)).value)
  {
    hide HandTokens;
    HandTokensAt(s.handlers, h);
    HandTokensRemoved(s.handlers, h);
  }

  lemma SendFailureKeeps(s: State, h: nat)
    requires Inv(s) && Next(s, ResumeSendFails(h)).Some?
    ensures Inv(Next(s, ResumeSendFails(h)).value)
  {
    hide HandTokens;
    HandTokensAt(s.handlers, h);
    HandTokensReplaced(s.handlers, h, Reparking(s.handlers[h].e));
    var t := Next(s, ResumeSendFails(h)).value;
    assert Tokens(t) == Tokens(s);
    hide Tokens;
    forall k | k in t.handlers ensures k.e.cursor.Some? && WellFormedMessage(k.e) {
      var i :| 0 <= i < |t.handlers| && t.handlers[i] == k;
      assert s.handlers[i] in s.handlers && k.e == s.handlers[i].e;
    }
  }

  lemma ReparkKeeps(s: State, h: nat)
    requires Inv(s) && Next(s, ResumeRepark(h)).Some?
    ensures Inv(Next(s, ResumeRepark(h)).value)
  {
    var t := Next(s, ResumeRepark(h)).value;
    ReparkerIsAlone(s, h);
    hide HandTokens;
    forall k | k in t.handlers ensures k in s.handlers {
    }
    assert Tokens(t) == if t.row.Some? && t.row.value.cursor.Some? then [t.row.value.cursor.value] else [];
    hide Tokens;
  }

  /** While a resume request re-parks its envelope, nothing else carries the run on. */
  lemma ReparkerIsAlone(s: State, h: nat)
    requires Inv(s) && h < |s.handlers| && s.handlers[h].Reparking?
    ensures Tokens(s) == [s.handlers[h].e] && s.handlers[h].e.cursor.Some? && WellFormedMessage(s.handlers[h].e)
    ensures s.queue == [] && !Holds(s.worker) && !(s.row.Some? && s.row.value.cursor.Some?)
    ensures HandTokens(Without(s.handlers, h)) == []
  {
    hide HandTokens;
    HandTokensAt(s.handlers, h);
    HandTokensRemoved(s.handlers, h);
    assert s.handlers[h] in s.handlers;
    assert s.handlers[h].e in Tokens(s);
  }

  lemma NoHandToken(h: Handler)
    ensures HandTokens([h]) == HandToken(h)
  {
  }

  /** While the worker holds its message, nothing else carries the run on. */
  lemma HolderIsAlone(s: State)
    requires Inv(s) && Holds(s.worker)
    ensures Tokens(s) == [s.worker.m] && s.queue == [] && HandTokens(s.handlers) == []
    ensures s.row.Some? ==> s.row.value.cursor.None?
    ensures WellFormedMessage(s.worker.m) && (s.newest.cursor.Some? ==> s.worker.m.cursor.Some?)
  {
    hide HandTokens;
    assert s.worker.m in Tokens(s);
  }

  predicate HandsOn(step: Step) {
    step.SavePaused? || step.QuotaPark? || step.ParkNext? || step.SendNext?
  }

  predicate EndsRun(step: Step) {
    step.CompleteRun? || step.FailRun?
  }

  lemma {:induction false} HandingOnKeeps(s: State, step: Step)
    requires Inv(s) && Next(s, step).Some? && HandsOn(step)
    ensures Inv(Next(s, step).value)
  {
    hide HandTokens;
    HolderIsAlone(s);
    var t := Next(s, step).value;
    assert Tokens(t) == t.queue + (if t.row.Some? && t.row.value.cursor.Some? then [t.row.value.cursor.value] else []);
  }

  lemma EndingKeeps(s: State, step: Step)
    requires Inv(s) && Next(s, step).Some? && EndsRun(step)
    ensures Inv(Next(s, step).value)
  {
    hide HandTokens;
    HolderIsAlone(s);
    assert Tokens(Next(s, step).value) == [s.worker.m];
  }

  lemma DeliverKeeps(s: State, q: nat)
    requires Inv(s) && Next(s, Deliver(q)).Some?
    ensures Inv(Next(s, Deliver(q)).value)
  {
    hide HandTokens;
    assert |s.queue| <= |Tokens(s)|;
    assert q == 0 && s.queue == [s.queue[0]];
    assert Tokens(s) == s.queue;
    assert Tokens(Next(s, Deliver(q)).value) == Tokens(s);
  }

  /** Reading, registering, going on and letting go leave the token where it is, or with the queue. */
  lemma {:induction false} OtherWorkerStepKeeps(s: State, step: Step)
    requires Inv(s) && Next(s, step).Some?
    requires step.ReadStatus? || step.InsertRow? || step.PartEnds? || step.Ack? || step.Retry?
    ensures Inv(Next(s, step).value)
  {
    hide HandTokens;
    if Holds(s.worker) {
      HolderIsAlone(s);
      var t := Next(s, step).value;
      assert Tokens(t) == [s.worker.m] || Tokens(t) == [];
    } else {
      assert Tokens(Next(s, step).value) == Tokens(s);
    }
  }

  lemma WorkerStepKeeps(s: State, step: Step)
    requires Inv(s) && Next(s, step).Some? && !OfOperator(step) && !OfRequest(step)
    ensures Inv(Next(s, step).value)
  {
    if HandsOn(step) {
      HandingOnKeeps(s, step);
    } else if EndsRun(step) {
      EndingKeeps(s, step);
    } else if step.Deliver? {
      DeliverKeeps(s, step.q);
    } else {
      OtherWorkerStepKeeps(s, step);
    }
    hide Inv, Next;
  }

  /** Every step keeps the invariant. */
  lemma {:induction false} StepKeeps(s: State, step: Step)
    requires Inv(s) && Next(s, step).Some?
    ensures Inv(Next(s, step).value)
  {
    if OfOperator(step) {
      OperatorStepKeeps(s, step);
    } else if OfRequest(step) {
      match step {
        case ResumeRead => ReadKeeps(s);
        case ResumeClaim(h) => ClaimKeeps(s, h);
        case ResumeSend(h) => SendKeeps(s, h);
        case ResumeSendFails(h) => SendFailureKeeps(s, h);
        case ResumeRepark(h) => ReparkKeeps(s, h);
      }
    } else {
      WorkerStepKeeps(s, step);
    }
    hide Inv, Next;
  }

  lemma {:induction false} RunKeeps(s: State, steps: seq<Step>)
    requires Inv(s) && Exec(s, steps).Some?
    ensures Inv(Exec(s, steps).value)
    decreases |steps|
  {
    if steps != [] {
      StepKeeps(s, steps[0]);
      RunKeeps(Next(s, steps[0]).value, steps[1..]);
    }
  }

  // ---- Safety over whole runs ---------------------------------------------------------

  /**
   * Over every interleaving from the run's start: at most one token, exactly one while the run is running
   * or paused -- none if and only if a cursor-less first-part message was acked while the run was paused.
   */
  lemma OneToken(registered: bool, steps: seq<Step>)
    requires Exec(Started(registered), steps).Some?
    ensures var t := Exec(Started(registered), steps).value;
            |Tokens(t)| <= 1 && (IsLive(t) ==> |Tokens(t)| == if t.dropped then 0 else 1)
  {
    StartedOk(registered);
    RunKeeps(Started(registered), steps);
  }

  // ---- How a run is dropped -----------------------------------------------------------

  /** Where a run stands before its `n`-th step. */
  function At(s: State, steps: seq<Step>, n: nat): Option<State>
    requires n <= |steps|
  {
    Exec(s, steps[..n])
  }

  lemma {:induction false} ExecLast(s: State, steps: seq<Step>, last: Step)
    ensures Exec(s, steps + [last]) == match Exec(s, steps) case None => None case Some(t) => Next(t, last)
    decreases |steps|
  {
    hide Next;
    if steps == [] {
      assert [last][1..] == [] && steps + [last] == [last];
    } else {
      assert (steps + [last])[1..] == steps[1..] + [last];
      if Next(s, steps[0]).Some? {
        ExecLast(Next(s, steps[0]).value, steps[1..], last);
      }
    }
  }

  lemma AtNext(s: State, steps: seq<Step>, n: nat)
    requires n < |steps|
    ensures At(s, steps, n + 1) == match At(s, steps, n) case None => None case Some(t) => Next(t, steps[n])
  {
    hide Next, Exec;
    assert steps[..n + 1] == steps[..n] + [steps[n]];
    ExecLast(s, steps[..n], steps[n]);
  }

  /** A step of the operator or of a resume request: the worker does nothing. */
  predicate Aside(step: Step) {
    OfOperator(step) || OfRequest(step)
  }

  /** Step `i` reads the status of a delivered message without a cursor, and the run is paused. */
  predicate ReadsPaused(s: State, steps: seq<Step>, i: nat)
    requires i < |steps|
  {
    && steps[i].ReadStatus?
    && match At(s, steps, i)
       case None => false
       case Some(t) => t.worker.Fetched? && t.worker.m.cursor.None? && t.row.Some? && t.row.value.status.Paused?
  }

  /** A cursor-less message was read as paused, and the worker has done nothing since. */
  ghost predicate Pending(s: State, steps: seq<Step>, n: nat)
    requires n <= |steps|
  {
    exists i :: 0 <= i < n && ReadsPaused(s, steps, i) && forall k :: i < k < n ==> Aside(steps[k])
  }

  /** Such a message was acked. */
  ghost predicate AckedPaused(s: State, steps: seq<Step>, n: nat)
    requires n <= |steps|
  {
    exists j :: 0 <= j < n && steps[j].SavePaused? && Pending(s, steps, j)
  }

  predicate HoldsFirst(w: Worker) {
    w.SawPaused? && w.m.cursor.None?
  }

  lemma StepHolds(t: State, step: Step)
    requires Next(t, step).Some?
    ensures var u := Next(t, step).value;
            && (HoldsFirst(u.worker) <==>
                  || (step.ReadStatus? && t.worker.Fetched? && t.worker.m.cursor.None? && t.row.Some?
                      && t.row.value.status.Paused?)
                  || (HoldsFirst(t.worker) && Aside(step)))
            && (u.dropped <==> t.dropped || (step.SavePaused? && HoldsFirst(t.worker)))
  {
  }

  lemma PendingNext(s: State, steps: seq<Step>, n: nat)
    requires n < |steps|
    ensures Pending(s, steps, n + 1) <==> ReadsPaused(s, steps, n) || (Pending(s, steps, n) && Aside(steps[n]))
    ensures AckedPaused(s, steps, n + 1) <==> AckedPaused(s, steps, n) || (steps[n].SavePaused? && Pending(s, steps, n))
  {
    hide ReadsPaused, Aside;
  }

  lemma {:induction false} TraceTells(s: State, steps: seq<Step>, n: nat)
    requires s.worker.Idle? && !s.dropped
    requires n <= |steps| && At(s, steps, n).Some?
    ensures HoldsFirst(At(s, steps, n).value.worker) <==> Pending(s, steps, n)
    ensures At(s, steps, n).value.dropped <==> AckedPaused(s, steps, n)
  {
    hide Next, Pending, AckedPaused, Aside;
    if n == 0 {
      NothingYet(s, steps);
    } else {
      AtNext(s, steps, n - 1);
      TraceTells(s, steps, n - 1);
      StepHolds(At(s, steps, n - 1).value, steps[n - 1]);
      PendingNext(s, steps, n - 1);
    }
  }

  lemma NothingYet(s: State, steps: seq<Step>)
    ensures At(s, steps, 0) == Some(s) && !Pending(s, steps, 0) && !AckedPaused(s, steps, 0)
  {
  }

  /**
   * A live run has lost its token exactly when, somewhere in its trace, the worker read a cursor-less message's run as
   * paused and then, with only operator and resume steps in between, acked that message.
   */
  lemma LostIffAckedWhilePaused(registered: bool, steps: seq<Step>)
    requires Exec(Started(registered), steps).Some?
    ensures var s, t := Started(registered), Exec(Started(registered), steps).value;
            IsLive(t) ==> (Tokens(t) == [] <==> AckedPaused(s, steps, |steps|))
  {
    hide Next, Tokens, AckedPaused;
    assert steps[..|steps|] == steps;
    TraceTells(Started(registered), steps, |steps|);
    OneToken(registered, steps);
  }

  // ---- How a run comes back -----------------------------------------------------------

  predicate IsOver(s: State) {
    s.row.Some? && Terminal(s.row.value.status)
  }

  lemma {:induction false} EveryPrefixRuns(s: State, steps: seq<Step>, n: nat)
    requires Exec(s, steps).Some? && n <= |steps|
    ensures At(s, steps, n).Some?
    decreases |steps| - n
  {
    if n == |steps| {
      assert steps[..n] == steps;
    } else {
      EveryPrefixRuns(s, steps, n + 1);
      AtNext(s, steps, n);
    }
  }

  /** What a step can do to the row of a run that is over, or gone. */
  lemma RowStep(t: State, step: Step)
    requires Next(t, step).Some?
    ensures var u := Next(t, step).value;
            && (IsOver(t) ==> if step.Purge? then u.row.None? else IsOver(u))
            && (t.row.None? ==> if step.InsertRow? then IsLive(u) else u.row.None?)
            && (step.Purge? ==> IsOver(t))
  {
  }

  /** A row that is gone comes back live at the next insertion. */
  lemma {:induction false} NextInsertRevives(s: State, steps: seq<Step>, k: nat, j: nat) returns (m: nat)
    requires Exec(s, steps).Some? && k <= j < |steps| && steps[j].InsertRow?
    requires At(s, steps, k).Some? && At(s, steps, k).value.row.None?
    ensures k < m <= |steps| && At(s, steps, m).Some? && IsLive(At(s, steps, m).value)
    decreases j - k
  {
    hide Exec, Next;
    EveryPrefixRuns(s, steps, k + 1);
    AtNext(s, steps, k);
    RowStep(At(s, steps, k).value, steps[k]);
    if steps[k].InsertRow? {
      m := k + 1;
    } else {
      m := NextInsertRevives(s, steps, k + 1, j);
    }
  }

  /** A row that is gone and later live was inserted in between. */
  lemma {:induction false} LiveAgainWasInserted(s: State, steps: seq<Step>, k: nat, m: nat) returns (j: nat)
    requires Exec(s, steps).Some? && k <= m <= |steps|
    requires At(s, steps, k).Some? && At(s, steps, k).value.row.None?
    requires At(s, steps, m).Some? && IsLive(At(s, steps, m).value)
    ensures k <= j < m && steps[j].InsertRow?
    decreases m - k
  {
    hide Exec, Next;
    EveryPrefixRuns(s, steps, k + 1);
    AtNext(s, steps, k);
    RowStep(At(s, steps, k).value, steps[k]);
    if steps[k].InsertRow? {
      j := k;
    } else {
      j := LiveAgainWasInserted(s, steps, k + 1, m);
    }
  }

  /** A row that is over and later live was purged and inserted in between. */
  lemma {:induction false} LiveAgainWasPurged(s: State, steps: seq<Step>, n: nat, m: nat) returns (i: nat, j: nat)
    requires Exec(s, steps).Some? && n <= m <= |steps|
    requires At(s, steps, n).Some? && IsOver(At(s, steps, n).value)
    requires At(s, steps, m).Some? && IsLive(At(s, steps, m).value)
    ensures n <= i < j < m && steps[i].Purge? && steps[j].InsertRow?
    decreases m - n
  {
    hide Exec, Next;
    EveryPrefixRuns(s, steps, n + 1);
    AtNext(s, steps, n);
    RowStep(At(s, steps, n).value, steps[n]);
    if steps[n].Purge? {
      i := n;
      j := LiveAgainWasInserted(s, steps, n + 1, m);
    } else {
      i, j := LiveAgainWasPurged(s, steps, n + 1, m);
    }
  }

  /** At some point the run is over, and later it is running or paused. */
  ghost predicate ComesBack(s: State, steps: seq<Step>) {
    exists n, m :: 0 <= n < m <= |steps| && OverAt(s, steps, n) && LiveAt(s, steps, m)
  }

  predicate OverAt(s: State, steps: seq<Step>, n: nat)
    requires n <= |steps|
  {
    At(s, steps, n).Some? && IsOver(At(s, steps, n).value)
  }

  predicate LiveAt(s: State, steps: seq<Step>, n: nat)
    requires n <= |steps|
  {
    At(s, steps, n).Some? && IsLive(At(s, steps, n).value)
  }

  /** Somewhere the row is purged, and somewhere later the worker inserts one. */
  ghost predicate PurgedThenInserted(steps: seq<Step>) {
    exists i, j :: 0 <= i < j < |steps| && steps[i].Purge? && steps[j].InsertRow?
  }

  /**
   * Over every interleaving a run that is over (complete, failed or cancelled) is ever running or paused again exactly
   * when its row is purged and a first part delivered before or after that inserts it anew.
   */
  lemma ComesBackIffPurgedThenInserted(s: State, steps: seq<Step>)
    requires Exec(s, steps).Some?
    ensures ComesBack(s, steps) <==> PurgedThenInserted(steps)
  {
    hide Exec, Next, At, IsOver, IsLive;
    if n, m :| 0 <= n < m <= |steps| && OverAt(s, steps, n) && LiveAt(s, steps, m) {
      var i, j := LiveAgainWasPurged(s, steps, n, m);
    }
    if i, j :| 0 <= i < j < |steps| && steps[i].Purge? && steps[j].InsertRow? {
      EveryPrefixRuns(s, steps, i + 1);
      EveryPrefixRuns(s, steps, i);
      AtNext(s, steps, i);
      RowStep(At(s, steps, i).value, steps[i]);
      var m := NextInsertRevives(s, steps, i + 1, j);
      assert OverAt(s, steps, i) && LiveAt(s, steps, m);
    }
  }

  // ---- What a delivery does ---------------------------------------------------------------

  /** Any waiting message may be delivered to an idle worker, and leaves the queue. */
  lemma DeliveryTakesItsMessage(s: State, q: nat)
    ensures Next(s, Deliver(q)).Some? <==> q < |s.queue| && s.worker == Idle
    ensures Next(s, Deliver(q)).Some? ==>
              var u := Next(s, Deliver(q)).value;
              && u.worker == Fetched(s.queue[q]) && multiset(u.queue) + multiset{s.queue[q]} == multiset(s.queue)
              && u == s.(worker := u.worker, queue := u.queue)
  {
    if q < |s.queue| {
      assert s.queue == s.queue[..q] + [s.queue[q]] + s.queue[q + 1..];
    }
  }

  /**
   * What the worker makes of the status it reads: it runs a running run's part, or a first part without a row, saves a
   * paused run's, and drops a message of a run that is over, or a continuation of one that is gone.
   */
  lemma StatusDecides(s: State)
    ensures Next(s, ReadStatus).Some? <==> s.worker.Fetched?
    ensures s.worker.Fetched? ==>
              var u, m := Next(s, ReadStatus).value, s.worker.m;
              && u == s.(worker := u.worker)
              && if s.row.None? then u.worker == (if m.part > 1 then Acking else Going(m))
                 else
                   match s.row.value.status
                   case Running => u.worker == Going(m)
                   case Paused => u.worker == SawPaused(m)
                   case _ => u.worker == Acking
  {
  }

  /** A delivery ends by its ack, which only leaves the worker idle, or by a retry, which puts its message back. */
  lemma DeliveryEnds(s: State, step: Step)
    requires Next(s, step).Some?
    ensures var u := Next(s, step).value;
            && (s.worker != Idle && u.worker == Idle <==> step == Ack || step == Retry)
            && (step == Ack ==> (s.worker == Acking || s.worker.Leaving?) && u == s.(worker := Idle))
            && (step == Retry ==> !s.worker.Acking? && u == s.(worker := Idle, queue := s.queue + [s.worker.m]))
            && (step == SavePaused || step == QuotaPark || step == ParkNext || step == SendNext ==> u.worker == Acking)
  {
  }

  /** The part after a delivered one is its number plus one, on the cursor it ended at: sent, or parked in the row. */
  lemma NextPartIs(s: State, step: Step)
    requires Next(s, step).Some? && (step == SendNext || step == ParkNext)
    ensures var u := Next(s, step).value;
            && s.worker.Ended? && u.newest == Message(s.worker.m.part + 1, Some(s.worker.next))
            && (step == SendNext ==> u.row == s.row && u.queue == s.queue + [u.newest])
            && (step == ParkNext ==>
                  && u.queue == s.queue && (s.row.None? ==> u.row.None?)
                  && (s.row.Some? && s.row.value.status in {Running, Paused} ==>
                        u.row.Some? && u.row.value.status == Paused && u.row.value.cursor == Some(u.newest)))
  {
  }

  // ---- Who wrote a status --------------------------------------------------------------

  /** The step that makes a row read `status`, and the row it must meet. */
  predicate Writes(t: State, step: Step, status: Status) {
    var met := if t.row.None? then None else Some(t.row.value.status);
    match status
    case Running =>
      (step.InsertRow? && met == None)
      || (step.ResumeClaim? && met == Some(Status.Paused) && t.row.value.cursor.Some?)
    case Paused =>
      && met == Some(Status.Running)
      && (step.PauseRoute? || step.QuotaPark? || step.ParkNext? || step.ResumeRepark?
          || (step.SavePaused? && t.worker.SawPaused? && t.worker.m.cursor.Some?))
    case Complete => step.CompleteRun? && met != None
    case Failed => step.FailRun? && met != None
    case Cancelled => step.CancelRoute? && (met == Some(Status.Running) || met == Some(Status.Paused))
  }

  predicate Reads(s: State, status: Status) {
    s.row.Some? && s.row.value.status == status
  }

  /** A step that makes a row read a status is one that writes it, and such a step always does. */
  lemma StatusStep(t: State, step: Step, status: Status)
    requires Next(t, step).Some?
    ensures var u := Next(t, step).value;
            && (Reads(u, status) && !Reads(t, status) ==> Writes(t, step, status))
            && (Writes(t, step, status) ==> Reads(u, status))
  {
  }

  predicate ReadsAt(s: State, steps: seq<Step>, n: nat, status: Status)
    requires n <= |steps|
  {
    At(s, steps, n).Some? && Reads(At(s, steps, n).value, status)
  }

  /** The `i`-th step wrote the status that the row has read ever since. */
  ghost predicate WroteLast(s: State, steps: seq<Step>, i: nat, n: nat, status: Status)
    requires i < n <= |steps|
  {
    && At(s, steps, i).Some? && Writes(At(s, steps, i).value, steps[i], status)
    && forall k :: i < k <= n ==> ReadsAt(s, steps, k, status)
  }

  /**
   * Over every interleaving a row reads cancelled only if the operator's cancel met it live, failed only if the worker
   * failed it, complete only if the worker completed it, and so for every status, and nothing wrote another since;
   * unless it has read that from the start.
   */
  lemma {:induction false} StatusWasWritten(s: State, steps: seq<Step>, n: nat, status: Status)
    requires Exec(s, steps).Some? && n <= |steps| && ReadsAt(s, steps, n, status)
    ensures (forall k :: 0 <= k <= n ==> ReadsAt(s, steps, k, status))
            || exists i: nat :: i < n && WroteLast(s, steps, i, n, status)
  {
    hide Exec, Next, Writes, Reads;
    if n > 0 {
      EveryPrefixRuns(s, steps, n - 1);
      AtNext(s, steps, n - 1);
      StatusStep(At(s, steps, n - 1).value, steps[n - 1], status);
      if ReadsAt(s, steps, n - 1, status) {
        StatusWasWritten(s, steps, n - 1, status);
        if !(forall k :: 0 <= k <= n - 1 ==> ReadsAt(s, steps, k, status)) {
          var i: nat :| i < n - 1 && WroteLast(s, steps, i, n - 1, status);
          assert WroteLast(s, steps, i, n, status);
        }
      } else {
        assert WroteLast(s, steps, n - 1, n, status);
      }
    }
  }

  /** It does happen: a run cancelled and purged before its first part is delivered is started by it all the same. */
  lemma PurgingBeforePartOneRestarts()
    ensures var steps := [CancelRoute, Purge, Deliver(0), ReadStatus, InsertRow];
            var end := Exec(Started(true), steps);
            && end.Some? && end.value.row.Some? && end.value.row.value.status.Running?
            && ComesBack(Started(true), steps)
  {
    var s, m := Started(true), Message(1, None);
    var gone := State(None, [m], Idle, [], m, false);
    var cancelled := s.(row := Some(CancelledBy(NewRow(0), "operator", 0)));
    var f := gone.(queue := [], worker := Fetched(m));
    assert Next(s, CancelRoute) == Some(cancelled);
    assert Next(cancelled, Purge) == Some(gone);
    assert Next(gone, Deliver(0)) == Some(f) by {
      assert Without([m], 0) == [];
    }
    assert Next(f, ReadStatus) == Some(f.(worker := Going(m)));
    ExecFive(s, CancelRoute, Purge, Deliver(0), ReadStatus, InsertRow);
    var steps := [CancelRoute, Purge, Deliver(0), ReadStatus, InsertRow];
    assert steps[1].Purge? && steps[4].InsertRow?;
    ComesBackIffPurgedThenInserted(s, steps);
    hide Exec;
  }

  /** From the first continuation on nothing is ever dropped: a running or paused run has exactly one token. */
  lemma {:induction false} NothingDropsAfterAContinuation(s: State, steps: seq<Step>)
    requires Inv(s) && s.newest.cursor.Some? && !s.dropped && Exec(s, steps).Some?
    ensures var t := Exec(s, steps).value;
            t.newest.cursor.Some? && !t.dropped && (IsLive(t) ==> |Tokens(t)| == 1)
    decreases |steps|
  {
    hide Inv, Next, Tokens;
    if steps != [] {
      StepKeeps(s, steps[0]);
      StepDropsNothing(s, steps[0]);
      NothingDropsAfterAContinuation(Next(s, steps[0]).value, steps[1..]);
    } else {
      TokensOfInv(s);
    }
  }

  lemma TokensOfInv(s: State)
    requires Inv(s)
    ensures |Tokens(s)| <= 1 && (IsLive(s) && !s.dropped ==> |Tokens(s)| == 1)
    ensures s.dropped ==> Tokens(s) == [] && !(s.row.Some? && s.row.value.status.Running?)
  {
    hide Tokens;
  }

  lemma StepDropsNothing(s: State, step: Step)
    requires Inv(s) && s.newest.cursor.Some? && !s.dropped && Next(s, step).Some?
    ensures Next(s, step).value.newest.cursor.Some? && !Next(s, step).value.dropped
  {
    hide HandTokens;
    if step.SavePaused? {
      assert s.worker.m in Tokens(s);
    }
  }

  /** A dropped run is stuck: whatever the operator tries, it is never running again and no token returns. */
  lemma {:induction false} DroppedStaysStuck(s: State, steps: seq<Step>)
    requires Inv(s) && s.dropped && Exec(s, steps).Some?
    ensures var t := Exec(s, steps).value;
            t.dropped && Tokens(t) == [] && !(t.row.Some? && t.row.value.status.Running?)
    decreases |steps|
  {
    if steps != [] {
      StepKeeps(s, steps[0]);
      StillDropped(s, steps[0]);
      DroppedStaysStuck(Next(s, steps[0]).value, steps[1..]);
    }
    TokensOfInv(Exec(s, steps).value) by { RunKeeps(s, steps); }
    hide Inv, Next, Tokens;
  }

  lemma StillDropped(s: State, step: Step)
    requires s.dropped && Next(s, step).Some?
    ensures Next(s, step).value.dropped
  {
  }

  /** It does happen: pausing before part 1 is delivered leaves a paused run with nothing to resume from. */
  lemma PausingBeforePartOneDrops()
    ensures var end := Exec(Started(true), [PauseRoute, Deliver(0), ReadStatus, SavePaused, Ack]);
            && end.Some? && end.value.dropped
            && end.value.row.Some? && end.value.row.value.status.Paused? && end.value.row.value.cursor.None?
  {
    var s := Started(true);
    var m := Message(1, None);
    var paused := s.(row := Repaused(s.row, None));
    var f := paused.(queue := [], worker := Fetched(m));
    assert Next(paused, Deliver(0)) == Some(f) by {
      assert Without([m], 0) == [];
    }
    assert Next(f, ReadStatus) == Some(f.(worker := SawPaused(m)));
    ExecFive(s, PauseRoute, Deliver(0), ReadStatus, SavePaused, Ack);
    hide Exec;
  }

  lemma ExecStep(s: State, step: Step, rest: seq<Step>)
    requires Next(s, step).Some?
    ensures Exec(s, [step] + rest) == Exec(Next(s, step).value, rest)
  {
    assert ([step] + rest)[1..] == rest;
  }

  /**
   * A terminal row never becomes running or paused again: it stays terminal (its terminal status may
   * change) until it is purged, and after a continuation nothing re-inserts it.
   */
  lemma {:induction false} TerminalIsForever(s: State, steps: seq<Step>)
    requires Inv(s) && s.newest.cursor.Some?
    requires s.row.None? || Terminal(s.row.value.status)
    requires Exec(s, steps).Some?
    ensures var t := Exec(s, steps).value; t.row.None? || Terminal(t.row.value.status)
    decreases |steps|
  {
    hide Inv, Next;
    if steps != [] {
      StepKeeps(s, steps[0]);
      StepStaysTerminal(s, steps[0]);
      TerminalIsForever(Next(s, steps[0]).value, steps[1..]);
    }
  }

  lemma StepStaysTerminal(s: State, step: Step)
    requires Inv(s) && s.newest.cursor.Some? && Next(s, step).Some?
    requires s.row.None? || Terminal(s.row.value.status)
    ensures var t := Next(s, step).value; t.newest.cursor.Some? && (t.row.None? || Terminal(t.row.value.status))
  {
    hide HandTokens;
    if Holds(s.worker) {
      assert s.worker.m in Tokens(s);
    }
    hide Tokens;
  }

  /** Nothing is moving: no delivery, no queued message, no envelope in a request's hand. */
  predicate Settled(s: State) {
    s.queue == [] && !Holds(s.worker) && HandTokens(s.handlers) == []
  }

  /** A settled paused run can be resumed, unless it was dropped; a settled run is never just running. */
  lemma SettledRunsAreResumable(s: State)
    requires Inv(s) && Settled(s) && IsLive(s)
    ensures s.row.value.status.Paused?
    ensures Next(s, ResumeRead).Some? <==> !s.dropped
  {
  }

  // ---- What the token carries ---------------------------------------------------------

  /** The token is the continuation the worker last handed on (or the first part's message). */
  ghost predicate Current(s: State) {
    forall m :: m in Tokens(s) ==> m == s.newest
  }

  /** A claim of a cursor newer than the one its request read. */
  predicate StaleClaim(s: State, step: Step) {
    && step.ResumeClaim?
    && step.h < |s.handlers| && s.handlers[step.h].HasRead?
    && s.row.Some? && Claimable(s.row.value)
    && s.handlers[step.h].e != s.row.value.cursor.value
  }

  /**
   * A step hands the run on with its newest continuation exactly when it is not a resume whose read was
   * overtaken: everything else, retries and re-parks included, keeps the token's content.
   */
  lemma ContentKeptUnlessStale(s: State, step: Step)
    requires Inv(s) && Current(s) && Next(s, step).Some?
    ensures Current(Next(s, step).value) <==> !StaleClaim(s, step)
  {
    match step {
      case ResumeRead => ReadContent(s);
      case ResumeClaim(h) => ClaimContent(s, h);
      case ResumeSend(h) => SendContent(s, h);
      case ResumeSendFails(h) => ReparkContent(s, h);
      case ResumeRepark(h) => ReparkContent(s, h);
      case Deliver(q) => DeliverContent(s, q);
      case _ => if OfOperator(step) { OperatorContent(s, step); } else { WorkerContent(s, step); }
    }
    hide Inv, Current, Next;
  }

  lemma OperatorContent(s: State, step: Step)
    requires Inv(s) && Current(s) && Next(s, step).Some? && OfOperator(step)
    ensures Current(Next(s, step).value)
  {
    hide HandTokens;
    var t := Next(s, step).value;
    assert forall m :: m in Tokens(t) ==> m in Tokens(s);
  }

  lemma DeliverContent(s: State, q: nat)
    requires Inv(s) && Current(s) && Next(s, Deliver(q)).Some?
    ensures Current(Next(s, Deliver(q)).value)
  {
    hide HandTokens;
    var t := Next(s, Deliver(q)).value;
    assert s.queue == s.queue[..q] + [s.queue[q]] + s.queue[q + 1..];
    assert forall m :: m in s.queue ==> m in Tokens(s);
    assert forall m :: m in Tokens(t) ==> m in Tokens(s);
  }

  lemma WorkerContent(s: State, step: Step)
    requires Inv(s) && Current(s) && Next(s, step).Some? && !OfRequest(step) && !OfOperator(step) && !step.Deliver?
    ensures Current(Next(s, step).value)
  {
    hide HandTokens;
    if Holds(s.worker) {
      HolderIsAlone(s);
      assert s.worker.m in Tokens(s);
      hide Inv, Tokens;
      HeldStep(s, step);
      var t := Next(s, step).value;
      hide Next;
      forall m | m in Tokens(t) ensures m == t.newest {
        TokenIsSomewhere(t, m);
      }
    }
  }

  /** Where the only token is after a step of the worker that held it. */
  lemma HeldStep(s: State, step: Step)
    requires s.queue == [] && !(s.row.Some? && s.row.value.cursor.Some?)
    requires Holds(s.worker) && s.worker.m == s.newest && Next(s, step).Some?
    requires !OfRequest(step) && !OfOperator(step) && !step.Deliver?
    ensures var t := Next(s, step).value;
            && t.handlers == s.handlers
            && (t.queue == [] || t.queue == [t.newest])
            && (Holds(t.worker) ==> t.worker.m == t.newest)
            && (t.row.Some? && t.row.value.cursor.Some? ==> t.row.value.cursor == Some(t.newest))
  {
    assert forall m: Message {:trigger [m]} :: [] + [m] == [m];
  }

  lemma TokenIsSomewhere(s: State, m: Message)
    requires m in Tokens(s)
    ensures m in s.queue || (Holds(s.worker) && m == s.worker.m)
            || (s.row.Some? && s.row.value.cursor == Some(m)) || m in HandTokens(s.handlers)
  {
    hide HandTokens;
  }

  lemma ReadContent(s: State)
    requires Inv(s) && Current(s) && Next(s, ResumeRead).Some?
    ensures Current(Next(s, ResumeRead).value)
  {
    HandTokensConcat(s.handlers, [HasRead(s.row.value.cursor.value)]);
    hide HandTokens;
  }

  lemma ClaimContent(s: State, h: nat)
    requires Inv(s) && Current(s) && Next(s, ResumeClaim(h)).Some?
    ensures Current(Next(s, ResumeClaim(h)).value) <==> !StaleClaim(s, ResumeClaim(h))
  {
    hide HandTokens;
    HandTokensAt(s.handlers, h);
    HandTokensRemoved(s.handlers, h);
    HandTokensReplaced(s.handlers, h, InHand(s.handlers[h].e));
    var t := Next(s, ResumeClaim(h)).value;
    if s.row.Some? && Claimable(s.row.value) {
      var c, e := s.row.value.cursor.value, s.handlers[h].e;
      assert c in Tokens(s);
      assert Tokens(s) == [c] && s.queue == [] && HandTokens(s.handlers) == [];
      assert Tokens(t) == [e];
      hide Inv, Tokens;
      assert e in Tokens(t) && c == s.newest;
    } else {
      assert Tokens(t) == Tokens(s);
    }
  }

  lemma SendContent(s: State, h: nat)
    requires Inv(s) && Current(s) && Next(s, ResumeSend(h)).Some?
    ensures Current(Next(s, ResumeSend(h)).value)
  {
    hide HandTokens;
    HandTokensAt(s.handlers, h);
    HandTokensRemoved(s.handlers, h);
    var t, e := Next(s, ResumeSend(h)).value, s.handlers[h].e;
    assert e in Tokens(s);
    assert Tokens(s) == [e] && s.queue == [] && HandTokens(t.handlers) == [];
    assert Tokens(t) == [e];
    hide Inv, Tokens;
  }

  lemma ReparkContent(s: State, h: nat)
    requires Inv(s) && Current(s)
    ensures Next(s, ResumeSendFails(h)).Some? ==> Current(Next(s, ResumeSendFails(h)).value)
    ensures Next(s, ResumeRepark(h)).Some? ==> Current(Next(s, ResumeRepark(h)).value)
  {
    hide HandTokens;
    if Next(s, ResumeSendFails(h)).Some? {
      HandTokensAt(s.handlers, h);
      HandTokensReplaced(s.handlers, h, Reparking(s.handlers[h].e));
      assert Tokens(Next(s, ResumeSendFails(h)).value) == Tokens(s);
    }
    if Next(s, ResumeRepark(h)).Some? {
      var t := Next(s, ResumeRepark(h)).value;
      ReparkerIsAlone(s, h);
      assert s.handlers[h].e in Tokens(s);
      hide Inv;
      assert Tokens(t) == if t.row.Some? && t.row.value.cursor.Some? then [t.row.value.cursor.value] else [];
      hide Tokens;
    }
  }

  ghost predicate NeverStale(s: State, steps: seq<Step>)
    decreases |steps|
  {
    steps == []
    || (!StaleClaim(s, steps[0]) && Next(s, steps[0]).Some? && NeverStale(Next(s, steps[0]).value, steps[1..]))
  }

  /** Over every run whose resumes are not overtaken between read and claim, the token is the newest continuation. */
  lemma {:induction false} TokenIsNewest(s: State, steps: seq<Step>)
    requires Inv(s) && Current(s) && NeverStale(s, steps)
    ensures Exec(s, steps).Some? && Current(Exec(s, steps).value)
    decreases |steps|
  {
    if steps != [] {
      StepKeeps(s, steps[0]);
      ContentKeptUnlessStale(s, steps[0]);
      TokenIsNewest(Next(s, steps[0]).value, steps[1..]);
    }
  }

  /** A resume whose read and claim have nothing in between is never stale. */
  lemma ReadThenClaimIsCurrent(s: State)
    requires Next(s, ResumeRead).Some?
    ensures var t := Next(s, ResumeRead).value;
            Next(t, ResumeClaim(|s.handlers|)).Some? && !StaleClaim(t, ResumeClaim(|s.handlers|))
  {
  }

  /**
   * Staleness does happen: of two resumes that read the same cursor one runs a part and parks again,
   * then the other claims the new cursor but carries on from the old one.
   */
  lemma OvertakenResumeIsStale()
    ensures exists steps :: Exec(Started(true), steps).Some? && IsLive(Exec(Started(true), steps).value)
              && !Current(Exec(Started(true), steps).value)
  {
    var s1, s2, t := ParkedOnce(), FetchedAgain(), Overtaken();
    hide Next, Current, IsLive;
    ParksOnce();
    FetchesAgain();
    Overtakes();
    OldCursorInHand();
    var first := [Deliver(0), ReadStatus, PartEnds(10), ParkNext, Ack];
    var second := [ResumeRead, ResumeRead, ResumeClaim(1), ResumeSend(1), Deliver(0)];
    var third := [ReadStatus, PartEnds(20), ParkNext, Ack, ResumeClaim(0)];
    ExecConcat(s1, second, third);
    ExecConcat(Started(true), first, second + third);
    assert Exec(Started(true), first + (second + third)) == Some(t);
  }

  lemma OldCursorInHand()
    ensures IsLive(Overtaken()) && !Current(Overtaken())
  {
    assert Tokens(Overtaken()) == [Message(2, Some(10))];
    assert Message(2, Some(10)) in Tokens(Overtaken());
  }

  function ParkedOnce(): State {
    var e := Message(2, Some(10));
    State(Some(PausedBy(NewRow(0), "operator", Some(e), 0, None)), [], Idle, [], e, false)
  }

  /** The second of two requests claimed and sent; its message was fetched. The first still holds its read. */
  function FetchedAgain(): State {
    var e := Message(2, Some(10));
    State(Some(NewRow(0)), [], Fetched(e), [HasRead(e)], e, false)
  }

  /** The part ran and parked at (3, 20); the first request then claimed that cursor with (2, 10) in hand. */
  function Overtaken(): State {
    State(Some(NewRow(0)), [], Idle, [InHand(Message(2, Some(10)))], Message(3, Some(20)), false)
  }

  lemma {:induction false} ParksOnce()
    ensures Exec(Started(true), [Deliver(0), ReadStatus, PartEnds(10), ParkNext, Ack]) == Some(ParkedOnce())
  {
    var m := Message(1, None);
    var s := Started(true);
    var f := s.(queue := [], worker := Fetched(m));
    assert Next(s, Deliver(0)) == Some(f) by {
      assert Without([m], 0) == [];
    }
    var ended := f.(worker := Ended(m, 10));
    assert Next(f, ReadStatus) == Some(f.(worker := Going(m)));
    assert Then(Next(f, ReadStatus), PartEnds(10)) == Some(ended);
    assert Then(Next(ended, ParkNext), Ack) == Some(ParkedOnce());
    ExecFive(s, Deliver(0), ReadStatus, PartEnds(10), ParkNext, Ack);
    hide Next, Exec;
  }

  lemma FetchesAgain()
    ensures Exec(ParkedOnce(), [ResumeRead, ResumeRead, ResumeClaim(1), ResumeSend(1), Deliver(0)]) ==
              Some(FetchedAgain())
  {
    var e := Message(2, Some(10));
    var s := ParkedOnce();
    var r := s.(handlers := [HasRead(e), HasRead(e)]);
    assert Then(Next(s, ResumeRead), ResumeRead) == Some(r) by {
      assert [] + [HasRead(e)] == [HasRead(e)];
      assert [HasRead(e)] + [HasRead(e)] == r.handlers;
    }
    var c := r.(row := Some(NewRow(0)), handlers := [HasRead(e), InHand(e)]);
    assert Next(r, ResumeClaim(1)) == Some(c) by {
      assert r.handlers[1 := InHand(e)] == [HasRead(e), InHand(e)];
    }
    var q := c.(queue := [e], handlers := [HasRead(e)]);
    assert Next(c, ResumeSend(1)) == Some(q) by {
      assert Without(c.handlers, 1) == [HasRead(e)];
      assert [] + [e] == [e];
    }
    assert Next(q, Deliver(0)) == Some(FetchedAgain()) by {
      assert Without([e], 0) == [];
    }
    ExecFive(s, ResumeRead, ResumeRead, ResumeClaim(1), ResumeSend(1), Deliver(0));
  }

  lemma Overtakes()
    ensures Exec(FetchedAgain(), [ReadStatus, PartEnds(20), ParkNext, Ack, ResumeClaim(0)]) == Some(Overtaken())
  {
    var e, s := Message(2, Some(10)), FetchedAgain();
    var ended := s.(worker := Ended(e, 20));
    assert Then(Next(s, ReadStatus), PartEnds(20)) == Some(ended);
    var parked :=
          s.(row := Repaused(s.row, Some(Message(3, Some(20)))), worker := Idle, newest := Message(3, Some(20)));
    assert Then(Next(ended, ParkNext), Ack) == Some(parked);
    assert Next(parked, ResumeClaim(0)) == Some(Overtaken()) by {
      assert [HasRead(e)][0 := InHand(e)] == [InHand(e)];
    }
    ExecFive(s, ReadStatus, PartEnds(20), ParkNext, Ack, ResumeClaim(0));
    hide Next, Exec;
  }

  lemma {:induction false} ExecConcat(s: State, a: seq<Step>, b: seq<Step>)
    requires Exec(s, a).Some?
    ensures Exec(s, a + b) == Exec(Exec(s, a).value, b)
    decreases |a|
  {
    if a == [] {
      assert a + b == b;
    } else {
      assert (a + b)[1..] == a[1..] + b;
      ExecConcat(Next(s, a[0]).value, a[1..], b);
    }
  }

  function Then(s: Option<State>, step: Step): Option<State> {
    if s.Some? then Next(s.value, step) else None
  }

  lemma {:induction false} ExecFive(s: State, a: Step, b: Step, c: Step, d: Step, e: Step)
    requires Then(Then(Then(Then(Next(s, a), b), c), d), e).Some?
    ensures Exec(s, [a, b, c, d, e]) == Then(Then(Then(Then(Next(s, a), b), c), d), e)
  {
    hide Next;
    var s1 := Next(s, a).value;
    var s2 := Next(s1, b).value;
    var s3 := Next(s2, c).value;
    var s4 := Next(s3, d).value;
    assert [a, b, c, d, e] == [a] + ([b] + ([c] + ([d] + ([e] + []))));
    ExecStep(s4, e, []);
    ExecStep(s3, d, [e] + []);
    ExecStep(s2, c, [d] + ([e] + []));
    ExecStep(s1, b, [c] + ([d] + ([e] + [])));
    ExecStep(s, a, [b] + ([c] + ([d] + ([e] + []))));
  }
}
