/** Every message of every run rests where the declared broker routes it. */
module Landing {
  import opened Wrappers
  import opened Stages
  import opened Dag
  import opened Messages
  import opened Runner
  import opened Store
  import opened Protocol
  import opened Recovery
  import opened Topology

  /** A retry waits for one of the shared delays, and any other message in a queue of its stage. */
  ghost predicate InPlace(a: Activity) {
    match a
    case Queued(Work(s), m) => s == m.stage
    case Queued(Dlq(s), m) => s == m.stage
    case Queued(Tier(d), _) => d in RETRY_DELAYS_MS
    case Failing(_, Retry(d, _), _) => d in RETRY_DELAYS_MS
    case Recorded(_, Retry(d, _)) => d in RETRY_DELAYS_MS
    case _ => true
  }

  ghost predicate AllInPlace(acts: seq<Activity>) {
    forall i :: 0 <= i < |acts| ==> InPlace(acts[i])
  }

  lemma PlannedDelay(pipeline: seq<Stage>, m: StageMessage, failure: Failure)
    ensures var action := PlanFailure(pipeline, m, failure);
      action.Retry? ==> action.delayMs in RETRY_DELAYS_MS
  {
  }

  lemma {:induction false} ResumedInPlace(c: Config, family: Family, plan: seq<StageName>)
    ensures AllInPlace(Resumed(c, family, plan))
  {
    if plan != [] {
      ResumedInPlace(c, family, plan[1..]);
    }
  }

  lemma StepKeepsInPlace(c: Config, st: State, step: Step)
    requires Enabled(c, st, step) && AllInPlace(st.acts)
    ensures AllInPlace(Apply(c, st, step).acts)
  {
    match step
    case Resume(family) =>
      hide ResumePlan, Resumed, TakeSnapshot;
      var snapshot := TakeSnapshot(c, st);
      ResumedInPlace(c, family, ResumePlan(c.pipeline, family, snapshot.completed, snapshot.dispatched));
    case Begin(_) => CommitKeepsInPlace(c, st, step);
    case Complete(_) => CommitKeepsInPlace(c, st, step);
    case Reserve(_) => CommitKeepsInPlace(c, st, step);
    case RecordFailure(_) => CommitKeepsInPlace(c, st, step);
    case _ => MoveKeepsInPlace(c, st, step);
  }

  lemma CommitKeepsInPlace(c: Config, st: State, step: Step)
    requires Enabled(c, st, step) && AllInPlace(st.acts)
    requires step.Begin? || step.Complete? || step.Reserve? || step.RecordFailure?
    ensures AllInPlace(Apply(c, st, step).acts)
  {
    hide NextMessages, PgApply, MemApply, TakeSnapshot, StagesOf, PathNames;
  }

  lemma MoveKeepsInPlace(c: Config, st: State, step: Step)
    requires Enabled(c, st, step) && AllInPlace(st.acts)
    requires !step.Resume? && !step.Begin? && !step.Complete? && !step.Reserve? && !step.RecordFailure?
    ensures AllInPlace(Apply(c, st, step).acts)
  {
    hide PlanFailure, StagesOf, PathNames, Commit, TakeSnapshot, ResumePlan, Resumed;
    if step.HandlerRaises? {
      PlannedDelay(c.pipeline, st.acts[step.i].raw, step.failure);
    }
  }

  lemma {:induction false} RunKeepsInPlace(c: Config, steps: seq<Step>, st: State)
    requires ValidConfig(c) && Reaches(c, steps, st)
    ensures AllInPlace(st.acts)
  {
    if steps != [] {
      var front, step := steps[..|steps| - 1], steps[|steps| - 1];
      var before := Exec(c, front).value;
      RunKeepsInPlace(c, front, before);
      StepKeepsInPlace(c, before, step);
    }
  }

  /** Where a message for a queue is published. */
  function ExchangeOf(q: Queue): string {
    match q
    case Work(_) => INGEST_EXCHANGE
    case Dlq(_) => DLX_EXCHANGE
    case Tier(d) => RetryExchangeName(d)
  }

  /** Over every run, crashes included: a message at rest lies in the one queue that the declared
      exchange and its stage's key lead to, and from a retry tier it comes back to its own stage's
      work queue. */
  lemma MessagesLandHome(t: Topology, c: Config, steps: seq<Step>, st: State, i: nat)
    requires ValidConfig(c) && c.pipeline == PIPELINE && Declares(t, c.pipeline, RETRY_DELAYS_MS)
    requires Reaches(c, steps, st) && i < |st.acts| && st.acts[i].Queued?
    ensures var queue, key := st.acts[i].queue, RoutingKey(st.acts[i].raw.stage);
      && NamesIn(Route(t, ExchangeOf(queue), key)) == {NameOf(queue)}
      && (queue.Tier? ==> forall q :: q in Route(t, ExchangeOf(queue), key) ==>
            q.ttlMs == Some(queue.delayMs) && q.deadLetterExchange == Some(INGEST_EXCHANGE)
            && NamesIn(Route(t, INGEST_EXCHANGE, key)) == {NameOf(Work(st.acts[i].raw.stage))})
  {
    hide Route, NamesIn, RoutingKey, RetryExchangeName, Declares, NameOf;
    RunKeepsInPlace(c, steps, st);
    AnyRunKeepsCrashInv(c, steps, st);
    var a := st.acts[i];
    assert InPlace(a) && ActTrusted(c, st.succeeded, a);
    var stage := Lookup(StagesFor(c.pipeline, c.family), a.raw.stage);
    StagesForMember(c.pipeline, c.family, stage);
    PipelineShipped();
    var delay: nat := if a.queue.Tier? then a.queue.delayMs else RETRY_DELAYS_MS[0];
    Landed(t, c.pipeline, stage, delay, a.queue);
  }

  lemma Landed(t: Topology, p: seq<Stage>, stage: Stage, delay: nat, queue: Queue)
    requires Shipped(p) && Declares(t, p, RETRY_DELAYS_MS) && stage in p && delay in RETRY_DELAYS_MS
    requires queue == Work(stage.name) || queue == Dlq(stage.name) || queue == Tier(delay)
    ensures var key := RoutingKey(stage.name);
      && NamesIn(Route(t, ExchangeOf(queue), key)) == {NameOf(queue)}
      && (queue.Tier? ==> forall q :: q in Route(t, ExchangeOf(queue), key) ==>
            q.ttlMs == Some(delay) && q.deadLetterExchange == Some(INGEST_EXCHANGE)
            && NamesIn(Route(t, INGEST_EXCHANGE, key)) == {NameOf(Work(stage.name))})
  {
    hide Route, NamesIn, RoutingKey, RetryExchangeName, Declares, Shipped, PlainPipeline;
    ProtocolQueuesAreReal(t, p, RETRY_DELAYS_MS, stage, delay);
    ShippedIsPlain(p);
    RetryComesHome(t, p, RETRY_DELAYS_MS, stage, delay);
  }
}
