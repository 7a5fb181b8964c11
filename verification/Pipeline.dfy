/**
 * One news item's pipeline (src/graph/pipeline.js) on top of its stage checkpoints
 * (src/graph/checkpointer.js): what a run does, and what an interrupted run resumes from.
 */
module Pipeline {
  import opened Collections
  import opened Budget

  datatype NewsItem = NewsItem(publishedAt: int, id: int, text: string)

  /** One pipeline execution: an item read for a ticker in the window that starts at `testStart`. */
  datatype Job = Job(testStart: int, ticker: string, item: NewsItem)

  datatype RunKey = RunKey(testStart: int, ticker: string, itemId: int)

  function KeyOf(job: Job): RunKey {
    RunKey(job.testStart, job.ticker, job.item.id)
  }

  datatype Stage = Ingested | Analyzed | Debated | Traded | RiskChecked | PortfolioChecked

  const STAGES := [Ingested, Analyzed, Debated, Traded, RiskChecked, PortfolioChecked]

  function Rank(s: Stage): (r: nat)
    ensures r < |STAGES| && STAGES[r] == s
  {
    match s
    case Ingested => 0
    case Analyzed => 1
    case Debated => 2
    case Traded => 3
    case RiskChecked => 4
    case PortfolioChecked => 5
  }

  /** The stage after `s`, or None when the run already completed. */
  function NextStage(s: Stage): Option<Stage> {
    if Rank(s) + 1 < |STAGES| then Some(STAGES[Rank(s) + 1]) else None
  }

  /** `D` is the item's own state (opinions, verdict, thesis), `B` the run's book (positions, decisions, lessons). */
  datatype Checkpoint<D> = Checkpoint(stage: Stage, state: D)

  datatype Store<B, D> = Store(book: B, checkpoints: map<RunKey, Checkpoint<D>>)

  datatype StageResult<D> = Good(state: D) | BadOutput | Fatal

  /** What each stage computes. Model calls are given values: their outputs are these functions. */
  datatype Desk<!B, !D> = Desk(
      blank: D,
      analyze: (Job, B) -> StageResult<D>,
      noImpact: D -> bool,
      recordNoImpact: (Job, D, B) -> (B, D),
      debate: (Job, D, B) -> StageResult<D>,
      trade: (Job, D) -> StageResult<D>,
      risk: D -> D,
      commit: (Job, D, B) -> (B, D))

  datatype Ending<B, D> = Completed(store: Store<B, D>) | Unusable(store: Store<B, D>) | Crashed

  function Save<B, D>(s: Store<B, D>, job: Job, stage: Stage, d: D): Store<B, D> {
    s.(checkpoints := s.checkpoints[KeyOf(job) := Checkpoint(stage, d)])
  }

  /** An uninterrupted run from the next-needed stage `next`. */
  function RunFrom<B, D>(desk: Desk<B, D>, job: Job, next: Stage, d: D, s: Store<B, D>): Ending<B, D>
    decreases |STAGES| - Rank(next)
  {
    match next
    case Ingested => (
      match desk.analyze(job, s.book)
      case Good(d1) => RunFrom(desk, job, Debated, d1, Save(s, job, Analyzed, d1))
      case BadOutput => Unusable(s)
      case Fatal => Crashed)
    case Analyzed => Completed(s)
    case Debated =>
      if desk.noImpact(d) then
        var (b1, d1) := desk.recordNoImpact(job, d, s.book);
        Completed(Save(s.(book := b1), job, PortfolioChecked, d1))
      else (
        match desk.debate(job, d, s.book)
        case Good(d1) => RunFrom(desk, job, Traded, d1, Save(s, job, Debated, d1))
        case BadOutput => Unusable(s)
        case Fatal => Crashed)
    case Traded => (
      match desk.trade(job, d)
      case Good(d1) => RunFrom(desk, job, RiskChecked, d1, Save(s, job, Traded, d1))
      case BadOutput => Unusable(s)
      case Fatal => Crashed)
    case RiskChecked => RunFrom(desk, job, PortfolioChecked, desk.risk(d), s)
    case PortfolioChecked =>
      var (b1, d1) := desk.commit(job, d, s.book);
      Completed(Save(s.(book := b1), job, PortfolioChecked, d1))
  }

  /** resumeFrom followed by the stages: a fresh item starts at the first stage, a completed one does nothing. */
  function RunPipeline<B, D>(desk: Desk<B, D>, job: Job, s: Store<B, D>): Ending<B, D> {
    if KeyOf(job) !in s.checkpoints then RunFrom(desk, job, Ingested, desk.blank, s)
    else
      var c := s.checkpoints[KeyOf(job)];
      match NextStage(c.stage)
      case None => Completed(s)
      case Some(next) => RunFrom(desk, job, next, c.state, s)
  }

  /** The store left behind when a run from `next` is cut after at most `n` further checkpoints. */
  function CutAfter<B, D>(desk: Desk<B, D>, job: Job, next: Stage, d: D, s: Store<B, D>, n: nat): Store<B, D>
    decreases |STAGES| - Rank(next)
  {
    if n == 0 then s
    else match next
      case Ingested => (
        match desk.analyze(job, s.book)
        case Good(d1) => CutAfter(desk, job, Debated, d1, Save(s, job, Analyzed, d1), n - 1)
        case _ => s)
      case Debated =>
        if desk.noImpact(d) then
          var (b1, d1) := desk.recordNoImpact(job, d, s.book);
          Save(s.(book := b1), job, PortfolioChecked, d1)
        else (
          match desk.debate(job, d, s.book)
          case Good(d1) => CutAfter(desk, job, Traded, d1, Save(s, job, Debated, d1), n - 1)
          case _ => s)
      case Traded => (
        match desk.trade(job, d)
        case Good(d1) => CutAfter(desk, job, RiskChecked, d1, Save(s, job, Traded, d1), n - 1)
        case _ => s)
      case RiskChecked =>
        var (b1, d1) := desk.commit(job, desk.risk(d), s.book);
        Save(s.(book := b1), job, PortfolioChecked, d1)
      case _ => s
  }

  /** The store a run over `job` leaves when cut after `n` checkpoints. */
  function Interrupted<B, D>(desk: Desk<B, D>, job: Job, s: Store<B, D>, n: nat): Store<B, D> {
    if KeyOf(job) !in s.checkpoints then CutAfter(desk, job, Ingested, desk.blank, s, n)
    else
      var c := s.checkpoints[KeyOf(job)];
      match NextStage(c.stage)
      case None => s
      case Some(next) => CutAfter(desk, job, next, c.state, s, n)
  }

  /**
   * Where a run is cut: nowhere yet, or one checkpoint on, where it is cut again; the last checkpoint is the whole
   * run's, and a stage that gives no state ends it.
   */
  lemma CutMeans<B, D>(desk: Desk<B, D>, job: Job, s: Store<B, D>, n: nat)
    ensures Interrupted(desk, job, s, 0) == s
    ensures KeyOf(job) !in s.checkpoints ==>
              match desk.analyze(job, s.book)
              case Good(d1) =>
                var saved := Store(s.book, s.checkpoints[KeyOf(job) := Checkpoint(Analyzed, d1)]);
                Interrupted(desk, job, s, n + 1) == Interrupted(desk, job, saved, n)
              case _ => Interrupted(desk, job, s, n + 1) == s
    ensures KeyOf(job) in s.checkpoints ==>
              var c := s.checkpoints[KeyOf(job)];
              match c.stage
              case Analyzed =>
                if desk.noImpact(c.state) then RunPipeline(desk, job, s) == Completed(Interrupted(desk, job, s, n + 1))
                else (
                  match desk.debate(job, c.state, s.book)
                  case Good(d1) =>
                    var saved := Store(s.book, s.checkpoints[KeyOf(job) := Checkpoint(Debated, d1)]);
                    Interrupted(desk, job, s, n + 1) == Interrupted(desk, job, saved, n)
                  case _ => Interrupted(desk, job, s, n + 1) == s)
              case Debated => (
                match desk.trade(job, c.state)
                case Good(d1) =>
                  var saved := Store(s.book, s.checkpoints[KeyOf(job) := Checkpoint(Traded, d1)]);
                  Interrupted(desk, job, s, n + 1) == Interrupted(desk, job, saved, n)
                case _ => Interrupted(desk, job, s, n + 1) == s)
              case Traded => RunPipeline(desk, job, s) == Completed(Interrupted(desk, job, s, n + 1))
              case PortfolioChecked => Interrupted(desk, job, s, n + 1) == s
              case _ => true
  {
  }

  /** Wherever an item is cut, running it again ends exactly as the uninterrupted run does. */
  lemma {:induction false} InterruptedItemResumes<B, D>(desk: Desk<B, D>, job: Job, s: Store<B, D>, n: nat)
    ensures RunPipeline(desk, job, Interrupted(desk, job, s, n)) == RunPipeline(desk, job, s)
  {
    if KeyOf(job) !in s.checkpoints {
      CutResumes(desk, job, Ingested, desk.blank, s, n);
    } else {
      var c := s.checkpoints[KeyOf(job)];
      match NextStage(c.stage) {
        case None =>
        case Some(next) => CutResumes(desk, job, next, c.state, s, n);
      }
    }
  }

  lemma {:induction false} CutResumes<B, D>(desk: Desk<B, D>, job: Job, next: Stage, d: D, s: Store<B, D>, n: nat)
    requires RunPipeline(desk, job, s) == RunFrom(desk, job, next, d, s)
    ensures RunPipeline(desk, job, CutAfter(desk, job, next, d, s, n)) == RunFrom(desk, job, next, d, s)
    decreases |STAGES| - Rank(next)
  {
    if n != 0 {
      match next {
        case Ingested =>
          var r := desk.analyze(job, s.book);
          if r.Good? { CutResumes(desk, job, Debated, r.state, Save(s, job, Analyzed, r.state), n - 1); }
        case Debated =>
          if !desk.noImpact(d) {
            var r := desk.debate(job, d, s.book);
            if r.Good? { CutResumes(desk, job, Traded, r.state, Save(s, job, Debated, r.state), n - 1); }
          }
        case Traded =>
          var r := desk.trade(job, d);
          if r.Good? { CutResumes(desk, job, RiskChecked, r.state, Save(s, job, Traded, r.state), n - 1); }
        case _ =>
      }
    }
  }

  /** A completed item is final: running it again changes nothing (a retry calls no model and books nothing twice). */
  lemma CompletedIsFinal<B, D>(desk: Desk<B, D>, job: Job, s: Store<B, D>)
    requires RunPipeline(desk, job, s).Completed?
    ensures var t := RunPipeline(desk, job, s).store;
            RunPipeline(desk, job, t) == Completed(t)
  {
    if KeyOf(job) !in s.checkpoints {
      RunCompletes(desk, job, Ingested, desk.blank, s);
    } else {
      var c := s.checkpoints[KeyOf(job)];
      match NextStage(c.stage) {
        case None =>
        case Some(next) => if next != Analyzed { RunCompletes(desk, job, next, c.state, s); }
      }
    }
  }

  lemma {:induction false} RunCompletes<B, D>(desk: Desk<B, D>, job: Job, next: Stage, d: D, s: Store<B, D>)
    requires next != Analyzed
    ensures var r := RunFrom(desk, job, next, d, s);
            r.Completed? ==>
              KeyOf(job) in r.store.checkpoints && r.store.checkpoints[KeyOf(job)].stage == PortfolioChecked
    decreases |STAGES| - Rank(next)
  {
    match next {
      case Ingested =>
        var r := desk.analyze(job, s.book);
        if r.Good? { RunCompletes(desk, job, Debated, r.state, Save(s, job, Analyzed, r.state)); }
      case Debated =>
        if !desk.noImpact(d) {
          var r := desk.debate(job, d, s.book);
          if r.Good? { RunCompletes(desk, job, Traded, r.state, Save(s, job, Debated, r.state)); }
        }
      case Traded =>
        var r := desk.trade(job, d);
        if r.Good? { RunCompletes(desk, job, RiskChecked, r.state, Save(s, job, Traded, r.state)); }
      case RiskChecked => RunCompletes(desk, job, PortfolioChecked, desk.risk(d), s);
      case _ =>
    }
  }

  /**
   * The pipeline stage by stage, from what the item's own checkpoint says: a fresh item is analyzed, an analyzed one is
   * recorded as without impact or debated, a debated one traded, and the last stages commit; unusable model output
   * leaves the store, an answer no retry helps ends the run, and a good answer is saved and gone on from.
   */
  lemma PipelineMeans<B, D>(desk: Desk<B, D>, job: Job, s: Store<B, D>)
    ensures var key, r := RunKey(job.testStart, job.ticker, job.item.id), RunPipeline(desk, job, s);
            if key !in s.checkpoints then
              match desk.analyze(job, s.book)
              case Good(d1) =>
                r == RunPipeline(desk, job, Store(s.book, s.checkpoints[key := Checkpoint(Analyzed, d1)]))
              case BadOutput => r == Unusable(s)
              case Fatal => r == Crashed
            else
              var d := s.checkpoints[key].state;
              match s.checkpoints[key].stage
              case Analyzed =>
                if desk.noImpact(d) then
                  var (b1, d1) := desk.recordNoImpact(job, d, s.book);
                  r == Completed(Store(b1, s.checkpoints[key := Checkpoint(PortfolioChecked, d1)]))
                else (
                  match desk.debate(job, d, s.book)
                  case Good(d1) =>
                    r == RunPipeline(desk, job, Store(s.book, s.checkpoints[key := Checkpoint(Debated, d1)]))
                  case BadOutput => r == Unusable(s)
                  case Fatal => r == Crashed)
              case Debated => (
                match desk.trade(job, d)
                case Good(d1) =>
                  r == RunPipeline(desk, job, Store(s.book, s.checkpoints[key := Checkpoint(Traded, d1)]))
                case BadOutput => r == Unusable(s)
                case Fatal => r == Crashed)
              case Traded =>
                var (b1, d1) := desk.commit(job, desk.risk(d), s.book);
                r == Completed(Store(b1, s.checkpoints[key := Checkpoint(PortfolioChecked, d1)]))
              case RiskChecked =>
                var (b1, d1) := desk.commit(job, d, s.book);
                r == Completed(Store(b1, s.checkpoints[key := Checkpoint(PortfolioChecked, d1)]))
              case _ => r == Completed(s)
  {
  }

  /** The two stores agree on every item but one. */
  ghost predicate OthersSame<B, D>(s: Store<B, D>, t: Store<B, D>, key: RunKey) {
    t.checkpoints - {key} == s.checkpoints - {key}
  }

  /** The stages a checkpoint is ever written at: a run that stopped before the analysis left none. */
  ghost predicate Written<B, D>(s: Store<B, D>) {
    forall key :: key in s.checkpoints ==> s.checkpoints[key].stage != Ingested
  }

  /**
   * A run writes no item's checkpoint but its own; it completes it, or else leaves the book as it was.
   */
  lemma {:induction false} PipelineKeepsOthers<B, D>(desk: Desk<B, D>, job: Job, s: Store<B, D>)
    ensures match RunPipeline(desk, job, s)
            case Completed(t) =>
              && OthersSame(s, t, KeyOf(job)) && (Written(s) ==> Written(t))
              && (Written(s) ==> KeyOf(job) in t.checkpoints && t.checkpoints[KeyOf(job)].stage == PortfolioChecked)
            case Unusable(t) => OthersSame(s, t, KeyOf(job)) && t.book == s.book && (Written(s) ==> Written(t))
            case Crashed => true
  {
    if KeyOf(job) !in s.checkpoints {
      RunKeepsOthers(desk, job, Ingested, desk.blank, s);
    } else {
      var c := s.checkpoints[KeyOf(job)];
      match NextStage(c.stage) {
        case None =>
        case Some(next) => RunKeepsOthers(desk, job, next, c.state, s);
      }
    }
  }

  lemma {:induction false} RunKeepsOthers<B, D>(desk: Desk<B, D>, job: Job, next: Stage, d: D, s: Store<B, D>)
    ensures match RunFrom(desk, job, next, d, s)
            case Completed(t) =>
              && OthersSame(s, t, KeyOf(job)) && (Written(s) ==> Written(t))
              && (next != Analyzed ==>
                    KeyOf(job) in t.checkpoints && t.checkpoints[KeyOf(job)].stage == PortfolioChecked)
            case Unusable(t) => OthersSame(s, t, KeyOf(job)) && t.book == s.book && (Written(s) ==> Written(t))
            case Crashed => true
    decreases |STAGES| - Rank(next)
  {
    match next {
      case Ingested =>
        var r := desk.analyze(job, s.book);
        if r.Good? {
          SaveKeepsOthers(s, job, Analyzed, r.state);
          RunKeepsOthers(desk, job, Debated, r.state, Save(s, job, Analyzed, r.state));
        }
      case Debated =>
        if desk.noImpact(d) {
          var (b1, d1) := desk.recordNoImpact(job, d, s.book);
          SaveKeepsOthers(s.(book := b1), job, PortfolioChecked, d1);
        } else {
          var r := desk.debate(job, d, s.book);
          if r.Good? {
            SaveKeepsOthers(s, job, Debated, r.state);
            RunKeepsOthers(desk, job, Traded, r.state, Save(s, job, Debated, r.state));
          }
        }
      case Traded =>
        var r := desk.trade(job, d);
        if r.Good? {
          SaveKeepsOthers(s, job, Traded, r.state);
          RunKeepsOthers(desk, job, RiskChecked, r.state, Save(s, job, Traded, r.state));
        }
      case RiskChecked => RunKeepsOthers(desk, job, PortfolioChecked, desk.risk(d), s);
      case PortfolioChecked =>
        var (b1, d1) := desk.commit(job, d, s.book);
        SaveKeepsOthers(s.(book := b1), job, PortfolioChecked, d1);
      case Analyzed =>
    }
  }

  lemma SaveKeepsOthers<B, D>(s: Store<B, D>, job: Job, stage: Stage, d: D)
    requires stage != Ingested
    ensures var t := Save(s, job, stage, d);
            && OthersSame(s, t, KeyOf(job)) && t.book == s.book && (Written(s) ==> Written(t))
            && KeyOf(job) in t.checkpoints && t.checkpoints[KeyOf(job)] == Checkpoint(stage, d)
  {
  }

  /** What one invocation meets: the subrequests each stage makes, and where the model vendor is down. */
  datatype Conditions = Conditions(costs: (Job, Stage) -> seq<Channel>, outage: (Job, Stage) -> bool)

  datatype ItemOutcome = Finished | SkippedOutput | Failed | OutOfBudget | VendorDown

  /** The subrequests of a run from `next`, up to an outage. */
  function BillFrom<B, D>(desk: Desk<B, D>, world: Conditions, job: Job, next: Stage, d: D, s: Store<B, D>)
    : seq<Channel>
    decreases |STAGES| - Rank(next), 1
  {
    match next
    case Ingested => world.costs(job, Ingested) + OnceAnalyzed(desk, world, job, s)
    case Analyzed => []
    case Debated => if desk.noImpact(d) then [D1] else world.costs(job, Debated) + OnceDebated(desk, world, job, d, s)
    case Traded => world.costs(job, Traded) + OnceTraded(desk, world, job, d, s)
    case RiskChecked => BillFrom(desk, world, job, PortfolioChecked, desk.risk(d), s)
    case PortfolioChecked => world.costs(job, PortfolioChecked)
  }

  function OnceAnalyzed<B, D>(desk: Desk<B, D>, world: Conditions, job: Job, s: Store<B, D>): seq<Channel>
    decreases |STAGES| - Rank(Ingested), 0
  {
    if world.outage(job, Ingested) then []
    else
      match desk.analyze(job, s.book)
      case Good(d1) => BillFrom(desk, world, job, Debated, d1, Save(s, job, Analyzed, d1))
      case _ => []
  }

  function OnceDebated<B, D>(desk: Desk<B, D>, world: Conditions, job: Job, d: D, s: Store<B, D>): seq<Channel>
    decreases |STAGES| - Rank(Debated), 0
  {
    if world.outage(job, Debated) then []
    else
      match desk.debate(job, d, s.book)
      case Good(d1) => BillFrom(desk, world, job, Traded, d1, Save(s, job, Debated, d1))
      case _ => []
  }

  function OnceTraded<B, D>(desk: Desk<B, D>, world: Conditions, job: Job, d: D, s: Store<B, D>): seq<Channel>
    decreases |STAGES| - Rank(Traded), 0
  {
    if world.outage(job, Traded) then []
    else
      match desk.trade(job, d)
      case Good(d1) => BillFrom(desk, world, job, RiskChecked, d1, Save(s, job, Traded, d1))
      case _ => []
  }

  /** The subrequests of one item's run: the read of its checkpoint and what the stages still ahead make. */
  function Bill<B, D>(desk: Desk<B, D>, world: Conditions, job: Job, s: Store<B, D>): (bill: seq<Channel>)
    ensures bill != [] && bill[0] == D1
  {
    [D1] + if KeyOf(job) !in s.checkpoints then BillFrom(desk, world, job, Ingested, desk.blank, s)
           else
             var c := s.checkpoints[KeyOf(job)];
             match NextStage(c.stage)
             case None => []
             case Some(next) => BillFrom(desk, world, job, next, c.state, s)
  }

  /**
   * A fresh item is charged the read of its checkpoint, the first stage, and, unless that stage ends the run, what it
   * is charged once analyzed.
   */
  lemma FreshBill<B, D>(desk: Desk<B, D>, world: Conditions, job: Job, s: Store<B, D>)
    requires KeyOf(job) !in s.checkpoints
    ensures var bill := [D1] + world.costs(job, Ingested);
            match desk.analyze(job, s.book)
            case Good(d1) =>
              var saved := Store(s.book, s.checkpoints[KeyOf(job) := Checkpoint(Analyzed, d1)]);
              var more := if world.outage(job, Ingested) then [] else Bill(desk, world, job, saved)[1..];
              Bill(desk, world, job, s) == bill + more
            case _ => Bill(desk, world, job, s) == bill
  {
    var costs, rest := world.costs(job, Ingested), OnceAnalyzed(desk, world, job, s);
    assert BillFrom(desk, world, job, Ingested, desk.blank, s) == costs + rest;
    assert [D1] + (costs + rest) == ([D1] + costs) + rest;
    assert ([D1] + costs) + [] == [D1] + costs;
  }

  /** An analyzed item is charged for a record when it has no impact, and for the debate and the rest when it has. */
  lemma AnalyzedBill<B, D>(desk: Desk<B, D>, world: Conditions, job: Job, s: Store<B, D>)
    requires KeyOf(job) in s.checkpoints && s.checkpoints[KeyOf(job)].stage == Analyzed
    ensures var d := s.checkpoints[KeyOf(job)].state;
            var bill := [D1] + world.costs(job, Debated);
            if desk.noImpact(d) then Bill(desk, world, job, s) == [D1, D1]
            else
              match desk.debate(job, d, s.book)
              case Good(d1) =>
                var saved := Store(s.book, s.checkpoints[KeyOf(job) := Checkpoint(Debated, d1)]);
                var more := if world.outage(job, Debated) then [] else Bill(desk, world, job, saved)[1..];
                Bill(desk, world, job, s) == bill + more
              case _ => Bill(desk, world, job, s) == bill
  {
    var d, costs := s.checkpoints[KeyOf(job)].state, world.costs(job, Debated);
    var rest := OnceDebated(desk, world, job, d, s);
    if !desk.noImpact(d) {
      assert BillFrom(desk, world, job, Debated, d, s) == costs + rest;
      assert [D1] + (costs + rest) == ([D1] + costs) + rest;
      assert ([D1] + costs) + [] == [D1] + costs;
    }
  }

  /** From the debate on an item is charged for the trade and for the commit, and a committed one for the read alone. */
  lemma LastBills<B, D>(desk: Desk<B, D>, world: Conditions, job: Job, s: Store<B, D>)
    requires KeyOf(job) in s.checkpoints
    ensures var d := s.checkpoints[KeyOf(job)].state;
            var commit := world.costs(job, PortfolioChecked);
            match s.checkpoints[KeyOf(job)].stage
            case Debated =>
              var goesOn := !world.outage(job, Traded) && desk.trade(job, d).Good?;
              Bill(desk, world, job, s) == [D1] + world.costs(job, Traded) + (if goesOn then commit else [])
            case Traded => Bill(desk, world, job, s) == [D1] + commit
            case RiskChecked => Bill(desk, world, job, s) == [D1] + commit
            case PortfolioChecked => Bill(desk, world, job, s) == [D1]
            case _ => true
  {
    var d, costs, rest := s.checkpoints[KeyOf(job)].state, world.costs(job, Traded), world.costs(job, PortfolioChecked);
    if s.checkpoints[KeyOf(job)].stage == Debated && desk.trade(job, d).Good? {
      var d1 := desk.trade(job, d).state;
      assert BillFrom(desk, world, job, RiskChecked, d1, Save(s, job, Traded, d1)) == rest;
    }
    assert [D1] + (costs + rest) == ([D1] + costs) + rest;
    assert [D1] + (costs + []) == ([D1] + costs) + [];
  }

  /** The stage a run of the item does next, on the state it starts from. */
  ghost predicate ResumesAt<B, D>(desk: Desk<B, D>, job: Job, s: Store<B, D>, next: Stage, d: D) {
    if KeyOf(job) !in s.checkpoints then next == Ingested && d == desk.blank
    else
      var c := s.checkpoints[KeyOf(job)];
      NextStage(c.stage) == Some(next) && d == c.state
  }

  /** The subrequests of the next stage a run of the item does. */
  ghost function NextCharges<B, D>(desk: Desk<B, D>, world: Conditions, job: Job, s: Store<B, D>): seq<Channel> {
    if KeyOf(job) !in s.checkpoints then world.costs(job, Ingested)
    else
      var c := s.checkpoints[KeyOf(job)];
      match c.stage
      case Analyzed => if desk.noImpact(c.state) then [D1] else world.costs(job, Debated)
      case Debated => world.costs(job, Traded)
      case Traded => world.costs(job, PortfolioChecked)
      case RiskChecked => world.costs(job, PortfolioChecked)
      case _ => []
  }

  /**
   * Where a refusal leaves the item: everything charged before it has been accepted and checkpointed, and the refused
   * stage is the next one of the store left behind.
   */
  ghost predicate StopsAt<B, D>(desk: Desk<B, D>, world: Conditions, job: Job, l: Limits, was: Counters,
                                bill: seq<Channel>, s: Store<B, D>)
  {
    exists paid :: AllAccepted(l, was, paid) && bill == paid + Bill(desk, world, job, s)[1..]
                   && !AllAccepted(l, ChargedAll(l, was, paid), NextCharges(desk, world, job, s))
  }

  lemma StopsHere<B, D>(desk: Desk<B, D>, world: Conditions, job: Job, l: Limits, was: Counters, next: Stage, d: D,
                        s: Store<B, D>)
    requires ResumesAt(desk, job, s, next, d) && !AllAccepted(l, was, NextCharges(desk, world, job, s))
    ensures StopsAt(desk, world, job, l, was, BillFrom(desk, world, job, next, d, s), s)
  {
    hide BillFrom;
    assert AllAccepted(l, was, []) && ChargedAll(l, was, []) == was;
    assert BillFrom(desk, world, job, next, d, s) == [] + Bill(desk, world, job, s)[1..];
  }

  lemma StopsLater<B, D>(desk: Desk<B, D>, world: Conditions, job: Job, l: Limits, was: Counters, first: seq<Channel>,
                         rest: seq<Channel>, s: Store<B, D>)
    requires AllAccepted(l, was, first) && StopsAt(desk, world, job, l, ChargedAll(l, was, first), rest, s)
    ensures StopsAt(desk, world, job, l, was, first + rest, s)
  {
    hide Bill, NextCharges, AllAccepted, ChargedAll;
    var paid :| AllAccepted(l, ChargedAll(l, was, first), paid) && rest == paid + Bill(desk, world, job, s)[1..]
                && !AllAccepted(l, ChargedAll(l, ChargedAll(l, was, first), paid), NextCharges(desk, world, job, s));
    ChargedInTurn(l, was, first, paid);
    assert AllAccepted(l, was, first + paid);
    assert first + (paid + Bill(desk, world, job, s)[1..]) == (first + paid) + Bill(desk, world, job, s)[1..];
  }

  /** What is left to charge comes to what the whole bill does. */
  ghost predicate Charging(l: Limits, was: Counters, bill: seq<Channel>, now: Counters, left: seq<Channel>) {
    ChargedAll(l, now, left) == ChargedAll(l, was, bill) && (AllAccepted(l, now, left) <==> AllAccepted(l, was, bill))
  }

  /** Charges `chs`, the first part of what is left, when there is a budget; false when one is refused. */
  method Spend(budget: SubrequestBudget?, chs: seq<Channel>, ghost rest: seq<Channel>) returns (ok: bool)
    modifies budget
    ensures budget == null ==> ok
    ensures budget != null ==>
              && budget.View() == ChargedAll(budget.limits, old(budget.View()), chs)
              && ok == AllAccepted(budget.limits, old(budget.View()), chs)
              && ChargedAll(budget.limits, budget.View(), []) == budget.View()
              && AllAccepted(budget.limits, budget.View(), [])
              && (ok ==> Charging(budget.limits, old(budget.View()), chs + rest, budget.View(), rest))
              && (!ok ==>
                    budget.View() == ChargedAll(budget.limits, old(budget.View()), chs + rest)
                    && !AllAccepted(budget.limits, old(budget.View()), chs + rest))
              && budget.suspendDepth == old(budget.suspendDepth)
              && budget.unitsCompleted == old(budget.unitsCompleted) && budget.unitCounts == old(budget.unitCounts)
              && (old(budget.halted) ==> budget.halted)
              && (!ok ==> budget.halted)
  {
    ok := true;
    if budget != null {
      ChargesKeepProgress(budget.limits, budget.View(), chs);
      ChargedInTurn(budget.limits, budget.View(), chs, rest);
      ok := budget.ChargeAll(chs);
    }
  }

  lemma NothingToCharge(l: Limits, v: Counters)
    ensures ChargedAll(l, v, []) == v && AllAccepted(l, v, [])
  {
  }

  /** The last stages, from wherever they resume: the trade, the risk check and the commit. */
  method TradeAndCommit<B, D>(desk: Desk<B, D>, world: Conditions, budget: SubrequestBudget?, job: Job, next: Stage,
                              d0: D, s0: Store<B, D>)
    returns (o: ItemOutcome, s: Store<B, D>)
    requires next !in {Ingested, Debated}
    requires ResumesAt(desk, job, s0, next, d0)
    modifies budget
    ensures o.Finished? ==> RunPipeline(desk, job, s0) == Completed(s)
    ensures o.SkippedOutput? ==> RunPipeline(desk, job, s0) == Unusable(s)
    ensures o.Failed? ==> RunPipeline(desk, job, s0) == Crashed
    ensures o.Failed? || o.OutOfBudget? || o.VendorDown? ==>
              && RunPipeline(desk, job, s) == RunPipeline(desk, job, s0)
              && s.book == s0.book && OthersSame(s0, s, KeyOf(job))
    ensures o.OutOfBudget? ==> budget != null && budget.halted
    ensures o.VendorDown? ==> exists stage, d :: ResumesAt(desk, job, s, stage, d) && world.outage(job, stage)
    ensures budget != null ==>
              var bill := BillFrom(desk, world, job, next, d0, s0);
              && budget.View() == ChargedAll(budget.limits, old(budget.View()), bill)
              && (o.OutOfBudget? ==> StopsAt(desk, world, job, budget.limits, old(budget.View()), bill, s))
              && (o.OutOfBudget? <==> !AllAccepted(budget.limits, old(budget.View()), bill))
    ensures budget != null ==>
              && budget.suspendDepth == old(budget.suspendDepth)
              && budget.unitsCompleted == old(budget.unitsCompleted)
              && budget.unitCounts == old(budget.unitCounts)
              && (old(budget.halted) ==> budget.halted)
  {
    hide ChargedAll, AllAccepted, StopsAt;
    var stage, d := next, d0;
    s := s0;
    if budget != null {
      NothingToCharge(budget.limits, budget.View());
    }
    if stage == Traded {
      var ok := Spend(budget, world.costs(job, Traded), OnceTraded(desk, world, job, d, s));
      if !ok {
        StopsHere(desk, world, job, budget.limits, old(budget.View()), next, d0, s0);
        return OutOfBudget, s;
      }
      if world.outage(job, Traded) { return VendorDown, s; }
      match desk.trade(job, d) {
        case Good(d1) =>
          d := d1;
          s := Save(s, job, Traded, d);
          stage := RiskChecked;
        case BadOutput => return SkippedOutput, s;
        case Fatal => return Failed, s;
      }
    }
    assert RunFrom(desk, job, stage, d, s) == RunPipeline(desk, job, s0) == RunPipeline(desk, job, s);

    ghost var was := if budget != null then budget.View() else FRESH;
    ghost var d1 := d;
    if stage == RiskChecked {
      d := desk.risk(d);
      stage := PortfolioChecked;
    }

    if stage == PortfolioChecked {
      var ok := Spend(budget, world.costs(job, PortfolioChecked), []);
      assert world.costs(job, PortfolioChecked) + [] == world.costs(job, PortfolioChecked);
      if !ok {
        if next == Traded {
          StopsHere(desk, world, job, budget.limits, was, RiskChecked, d1, s);
          StopsLater(desk, world, job, budget.limits, old(budget.View()), world.costs(job, Traded),
                     OnceTraded(desk, world, job, d0, s0), s);
        } else {
          StopsHere(desk, world, job, budget.limits, was, next, d0, s0);
        }
        return OutOfBudget, s;
      }
      var (b2, d2) := desk.commit(job, d, s.book);
      s := Save(s.(book := b2), job, PortfolioChecked, d2);
    }
    o := Finished;
  }

  /** What follows the analysis: an item without impact is recorded, any other debated, traded and committed. */
  method DebateAndOn<B, D>(desk: Desk<B, D>, world: Conditions, budget: SubrequestBudget?, job: Job, next: Stage,
                           d0: D, s0: Store<B, D>)
    returns (o: ItemOutcome, s: Store<B, D>)
    requires next != Ingested
    requires ResumesAt(desk, job, s0, next, d0)
    modifies budget
    ensures o.Finished? ==> RunPipeline(desk, job, s0) == Completed(s)
    ensures o.SkippedOutput? ==> RunPipeline(desk, job, s0) == Unusable(s)
    ensures o.Failed? ==> RunPipeline(desk, job, s0) == Crashed
    ensures o.Failed? || o.OutOfBudget? || o.VendorDown? ==>
              && RunPipeline(desk, job, s) == RunPipeline(desk, job, s0)
              && s.book == s0.book && OthersSame(s0, s, KeyOf(job))
    ensures o.OutOfBudget? ==> budget != null && budget.halted
    ensures o.VendorDown? ==> exists stage, d :: ResumesAt(desk, job, s, stage, d) && world.outage(job, stage)
    ensures budget != null ==>
              var bill := BillFrom(desk, world, job, next, d0, s0);
              && budget.View() == ChargedAll(budget.limits, old(budget.View()), bill)
              && (o.OutOfBudget? ==> StopsAt(desk, world, job, budget.limits, old(budget.View()), bill, s))
              && (o.OutOfBudget? <==> !AllAccepted(budget.limits, old(budget.View()), bill))
    ensures budget != null ==>
              && budget.suspendDepth == old(budget.suspendDepth)
              && budget.unitsCompleted == old(budget.unitsCompleted)
              && budget.unitCounts == old(budget.unitCounts)
              && (old(budget.halted) ==> budget.halted)
  {
    hide ChargedAll, AllAccepted, StopsAt;
    var stage, d := next, d0;
    s := s0;
    if stage == Debated && desk.noImpact(d) {
      var ok := Spend(budget, [D1], []);
      if !ok {
        StopsHere(desk, world, job, budget.limits, old(budget.View()), next, d0, s0);
        return OutOfBudget, s;
      }
      var (b1, d1) := desk.recordNoImpact(job, d, s.book);
      s := Save(s.(book := b1), job, PortfolioChecked, d1);
      return Finished, s;
    }

    if stage == Debated {
      var ok := Spend(budget, world.costs(job, Debated), OnceDebated(desk, world, job, d, s));
      if !ok {
        StopsHere(desk, world, job, budget.limits, old(budget.View()), next, d0, s0);
        return OutOfBudget, s;
      }
      if world.outage(job, Debated) { return VendorDown, s; }
      match desk.debate(job, d, s.book) {
        case Good(d1) =>
          d := d1;
          s := Save(s, job, Debated, d);
          stage := Traded;
        case BadOutput => return SkippedOutput, s;
        case Fatal => return Failed, s;
      }
    }
    assert RunFrom(desk, job, stage, d, s) == RunPipeline(desk, job, s0) == RunPipeline(desk, job, s);
    o, s := TradeAndCommit(desk, world, budget, job, stage, d, s);
    if o.OutOfBudget? && next == Debated {
      StopsLater(desk, world, job, budget.limits, old(budget.View()), world.costs(job, Debated),
                 OnceDebated(desk, world, job, d0, s0), s);
    }
  }

  /**
   * The pipeline under a budget and a flaky vendor. It either ends as the uninterrupted run does, or
   * stops between two stages in a store from which that same run is still ahead.
   */
  method RunPipelineForTicker<B, D>(desk: Desk<B, D>, world: Conditions, budget: SubrequestBudget?, job: Job,
                                    s0: Store<B, D>)
    returns (o: ItemOutcome, s: Store<B, D>)
    modifies budget
    ensures o.Finished? ==> RunPipeline(desk, job, s0) == Completed(s)
    ensures o.SkippedOutput? ==> RunPipeline(desk, job, s0) == Unusable(s)
    ensures o.Failed? ==> RunPipeline(desk, job, s0) == Crashed
    ensures o.Failed? || o.OutOfBudget? || o.VendorDown? ==>
              && RunPipeline(desk, job, s) == RunPipeline(desk, job, s0)
              && s.book == s0.book && OthersSame(s0, s, KeyOf(job))
    ensures o.OutOfBudget? ==> budget != null && budget.halted
    ensures o.VendorDown? ==> exists stage, d :: ResumesAt(desk, job, s, stage, d) && world.outage(job, stage)
    ensures budget != null ==>
              var bill := Bill(desk, world, job, s0);
              && budget.View() == ChargedAll(budget.limits, old(budget.View()), bill)
              && (o.OutOfBudget? ==>
                    || (s == s0 && !AllAccepted(budget.limits, old(budget.View()), [D1]))
                    || StopsAt(desk, world, job, budget.limits, old(budget.View()), bill, s))
              && (o.OutOfBudget? <==> !AllAccepted(budget.limits, old(budget.View()), bill))
    ensures budget != null ==>
              && budget.suspendDepth == old(budget.suspendDepth)
              && budget.unitsCompleted == old(budget.unitsCompleted)
              && budget.unitCounts == old(budget.unitCounts)
              && (old(budget.halted) ==> budget.halted)
  {
    hide ChargedAll, AllAccepted, StopsAt;
    s := s0;
    var ok := Spend(budget, [D1], Bill(desk, world, job, s)[1..]);
    if !ok { return OutOfBudget, s; }
    var stage, d := Ingested, desk.blank;
    if KeyOf(job) in s.checkpoints {
      var c := s.checkpoints[KeyOf(job)];
      match NextStage(c.stage) {
        case None => return Finished, s;
        case Some(next) => stage, d := next, c.state;
      }
    }
    ghost var goal := RunPipeline(desk, job, s0);

    ghost var was := if budget != null then budget.View() else FRESH;
    assert stage == Ingested ==> ResumesAt(desk, job, s, stage, d);
    if stage == Ingested {
      ok := Spend(budget, world.costs(job, Ingested), OnceAnalyzed(desk, world, job, s));
      if !ok {
        StopsHere(desk, world, job, budget.limits, was, Ingested, desk.blank, s0);
        StopsLater(desk, world, job, budget.limits, old(budget.View()), [D1], Bill(desk, world, job, s0)[1..], s);
        return OutOfBudget, s;
      }
      if world.outage(job, Ingested) { return VendorDown, s; }
      match desk.analyze(job, s.book) {
        case Good(d1) =>
          d := d1;
          s := Save(s, job, Analyzed, d);
          stage := Debated;
        case BadOutput => return SkippedOutput, s;
        case Fatal => return Failed, s;
      }
    }
    assert RunFrom(desk, job, stage, d, s) == goal == RunPipeline(desk, job, s);

    o, s := DebateAndOn(desk, world, budget, job, stage, d, s);
    if o.OutOfBudget? {
      if KeyOf(job) !in s0.checkpoints {
        StopsLater(desk, world, job, budget.limits, was, world.costs(job, Ingested),
                   OnceAnalyzed(desk, world, job, s0), s);
      }
      StopsLater(desk, world, job, budget.limits, old(budget.View()), [D1], Bill(desk, world, job, s0)[1..], s);
    }
  }
}
