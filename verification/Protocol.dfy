/** One document's run through the broker, the workers and the store, as a state
    machine. Every transaction and every publish is a step of its own, so any
    interleaving of any number of workers is a sequence of steps. */
module Protocol {
  import opened Wrappers
  import opened Stages
  import opened Dag
  import opened Messages
  import opened Runner
  import opened Store

  datatype StoreKind = InMemory | Postgres

  /** `family` is what detection finds; `origin` is the message the upload publishes. */
  datatype Config = Config(pipeline: seq<Stage>, family: Family, store: StoreKind, origin: StageMessage)

  ghost predicate ValidConfig(c: Config) {
    && WellFormed(c.pipeline)
    && c.origin.stage == ENTRY_STAGE
    && c.origin.attempt == 1
  }

  /** A message at rest, or a delivery some worker is processing; `raw` is the
      message as delivered, which the broker keeps until it is acknowledged. */
  datatype Activity =
    | Queued(queue: Queue, raw: StageMessage)
    | Delivered(raw: StageMessage)                                        // taken from its queue
    | Begun(raw: StageMessage)                                            // begin_stage committed, handler running
    | Handled(raw: StageMessage, adopted: StageMessage)                   // handler returned
    | Completed(raw: StageMessage, followers: seq<StageMessage>)          // complete_stage committed
    | Publishing(raw: StageMessage, followers: seq<StageMessage>)         // mark_dispatched committed
    | Failing(raw: StageMessage, action: Action, error: string)           // handler raised
    | Recorded(raw: StageMessage, action: Action)                         // fail_stage committed
    | Finished(raw: StageMessage)                                         // only the acknowledgement is left

  datatype State = State(
    rows: Rows,                       // the Postgres store
    mem: MemRun,                      // the reference store, fed the same operations
    acts: seq<Activity>,
    ops: seq<StoreOp>,                // every store operation so far
    sent: seq<StageName>,             // every first-attempt message ever published
    starts: multiset<StageName>,      // every handler call
    succeeded: set<StageName>)        // every stage that ever completed

  function Init(c: Config): State {
    State(map[], EMPTY_MEM, [Queued(Work(ENTRY_STAGE), c.origin)], [], [ENTRY_STAGE], multiset{}, {})
  }

  function TakeSnapshot(c: Config, st: State): Snapshot {
    if c.store.Postgres? then PgSnapshot(st.rows) else MemSnapshot(st.mem)
  }

  /** Apply one store operation. */
  function Commit(st: State, op: StoreOp): State {
    st.(rows := PgApply(st.rows, op), mem := MemApply(st.mem, op), ops := st.ops + [op],
        succeeded := if op.CompleteStage? then st.succeeded + {op.stage} else st.succeeded)
  }

  /** Replace activity `i` by `after`; whatever is published goes to the end. */
  function Move(st: State, i: nat, after: Activity, published: seq<Activity>): State
    requires i < |st.acts|
  {
    st.(acts := st.acts[i := after] + published)
  }

  function Drop(st: State, i: nat): State
    requires i < |st.acts|
  {
    st.(acts := st.acts[..i] + st.acts[i + 1..])
  }

  datatype Step =
    | Deliver(i: nat)
    | NoHandler(i: nat)                      // nothing registered: straight to the dead letters
    | Begin(i: nat)
    | HandlerReturns(i: nat)
    | HandlerRaises(i: nat, failure: Failure, error: string)
    | Complete(i: nat)
    | Reserve(i: nat)
    | PublishNext(i: nat)
    | RecordFailure(i: nat)
    | Reroute(i: nat)
    | Expire(i: nat)                         // a retry queue's time-to-live runs out
    | Ack(i: nat)
    | Crash(i: nat)                          // the worker dies; the broker requeues the delivery
    | Reject(i: nat)                         // the store or the broker fails the worker: dead-lettered
    | Redeliver(i: nat)                      // the broker requeues while the worker carries on
    | Resume(family: Family)                 // an operator queues the resume plan

  predicate CrashFree(step: Step) {
    !step.Crash? && !step.Reject? && !step.Redeliver? && !step.Resume?
  }

  predicate InFlight(a: Activity) {
    !a.Queued?
  }

  predicate Enabled(c: Config, st: State, step: Step) {
    if step.Resume? then
      // Before detection has finished nothing says which family it is.
      step.family == c.family || ENTRY_STAGE !in st.succeeded
    else
      && step.i < |st.acts|
      && var a := st.acts[step.i];
        match step
        case Deliver(_) => a.Queued? && a.queue.Work?
        case NoHandler(_) => a.Delivered?
        case Begin(_) => a.Delivered?
        case HandlerReturns(_) => a.Begun?
        case HandlerRaises(_, _, _) => a.Begun?
        case Complete(_) => a.Handled?
        case Reserve(_) => a.Completed?
        case PublishNext(_) => a.Publishing? && a.followers != []
        case RecordFailure(_) => a.Failing?
        case Reroute(_) => a.Recorded?
        case Expire(_) => a.Queued? && a.queue.Tier?
        case Ack(_) => a.Finished?
        case Crash(_) => InFlight(a)
        case Reject(_) => InFlight(a)
        case Redeliver(_) => InFlight(a)
        case Resume(_) => false
  }

  /** Only `detect` reports a family; the others leave the message as it is. */
  function Adopt(c: Config, raw: StageMessage): StageMessage {
    if raw.stage == ENTRY_STAGE then raw.WithFamily(c.family) else raw
  }

  /** With nobody to notify the worker goes straight to the acknowledgement. */
  function AfterComplete(raw: StageMessage, followers: seq<StageMessage>): Activity {
    if followers == [] then Finished(raw) else Completed(raw, followers)
  }

  function AfterPublish(raw: StageMessage, rest: seq<StageMessage>): Activity {
    if rest == [] then Finished(raw) else Publishing(raw, rest)
  }

  function StagesOf(messages: seq<StageMessage>): (r: seq<StageName>)
    ensures |r| == |messages| && forall i :: 0 <= i < |r| ==> r[i] == messages[i].stage
  {
    if messages == [] then [] else [messages[0].stage] + StagesOf(messages[1..])
  }

  function Resumed(c: Config, family: Family, plan: seq<StageName>): seq<Activity> {
    if plan == [] then []
    else
      [Queued(Work(plan[0]), c.origin.WithFamily(family).ForStage(plan[0]))] + Resumed(c, family, plan[1..])
  }

  ghost function Apply(c: Config, st: State, step: Step): State
    requires Enabled(c, st, step)
  {
    match step
    case Deliver(i) => Move(st, i, Delivered(st.acts[i].raw), [])
    case NoHandler(i) =>
      var m := st.acts[i].raw;
      Move(st, i, Finished(m), [Queued(Dlq(m.stage), m)])
    case Begin(i) =>
      var m := st.acts[i].raw;
      var st' := Commit(st, BeginStage(m.stage, m.attempt));
      Move(st', i, Begun(m), []).(starts := st.starts + multiset{m.stage})
    case HandlerReturns(i) =>
      var m := st.acts[i].raw;
      Move(st, i, Handled(m, Adopt(c, m)), [])
    case HandlerRaises(i, failure, error) =>
      var m := st.acts[i].raw;
      Move(st, i, Failing(m, PlanFailure(c.pipeline, m, failure), error), [])
    case Complete(i) =>
      var a := st.acts[i];
      var st' := Commit(st, CompleteStage(a.raw.stage));
      var snapshot := TakeSnapshot(c, st');
      var followers := NextMessages(c.pipeline, a.adopted, snapshot.completed, snapshot.dispatched);
      Move(st', i, AfterComplete(a.raw, followers), [])
    case Reserve(i) =>
      var a := st.acts[i];
      Move(Commit(st, MarkDispatched(StagesOf(a.followers))), i, Publishing(a.raw, a.followers), [])
    case PublishNext(i) =>
      var a := st.acts[i];
      var next := a.followers[0];
      Move(st, i, AfterPublish(a.raw, a.followers[1..]), [Queued(Work(next.stage), next)])
        .(sent := st.sent + [next.stage])
    case RecordFailure(i) =>
      var a := st.acts[i];
      Move(Commit(st, FailStage(a.raw.stage, a.error, a.action.DeadLetter?)), i, Recorded(a.raw, a.action), [])
    case Reroute(i) =>
      var a := st.acts[i];
      Move(st, i, Finished(a.raw),
           [if a.action.Retry? then Queued(Tier(a.action.delayMs), a.raw.Retried())
            else Queued(Dlq(a.raw.stage), a.raw)])
    case Expire(i) =>
      var m := st.acts[i].raw;
      Move(st, i, Queued(Work(m.stage), m), [])
    case Ack(i) => Drop(st, i)
    case Crash(i) =>
      var m := st.acts[i].raw;
      Move(st, i, Queued(Work(m.stage), m), [])
    case Reject(i) =>
      var m := st.acts[i].raw;
      Move(st, i, Queued(Dlq(m.stage), m), [])
    case Redeliver(i) =>
      var m := st.acts[i].raw;
      Move(st, i, st.acts[i], [Queued(Work(m.stage), m)])
    case Resume(family) =>
      var snapshot := TakeSnapshot(c, st);
      st.(acts := st.acts
                  + Resumed(c, family, ResumePlan(c.pipeline, family, snapshot.completed, snapshot.dispatched)))
  }

  /** The state a sequence of steps leads to, if each of them was possible. */
  ghost function Exec(c: Config, steps: seq<Step>): Option<State> {
    if steps == [] then Some(Init(c))
    else
      match Exec(c, steps[..|steps| - 1])
      case None => None
      case Some(st) =>
        var step := steps[|steps| - 1];
        if Enabled(c, st, step) then Some(Apply(c, st, step)) else None
  }

  ghost predicate Reaches(c: Config, steps: seq<Step>, st: State) {
    Exec(c, steps) == Some(st)
  }

  ghost predicate CrashFreeRun(c: Config, steps: seq<Step>, st: State) {
    Reaches(c, steps, st) && forall k :: 0 <= k < |steps| ==> CrashFree(steps[k])
  }
}
