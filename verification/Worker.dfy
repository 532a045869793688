/** The stage consumer as it is written: one delivery handled from start to
    acknowledgement, against the Postgres store and the broker. */
module Worker {
  import opened Wrappers
  import opened Stages
  import opened Dag
  import opened Messages
  import opened Runner
  import opened Store
  import opened Protocol

  /** What the handler did; its metrics matter only for the family they may name. */
  datatype Outcome =
    | Returned(family: Option<Family>)
    | Raised(failure: Failure, error: string)

  datatype Envelope = Envelope(queue: Queue, message: StageMessage)

  class Broker {
    const journal: Journal
    /** Everything published and not yet consumed, oldest first. */
    var messages: seq<Envelope>

    constructor (journal: Journal)
      ensures this.journal == journal && messages == []
    {
      this.journal := journal;
      messages := [];
    }

    method PublishIngest(m: StageMessage)
      modifies this, journal
      ensures messages == old(messages) + [Envelope(Work(m.stage), m)]
      ensures journal.events == old(journal.events) + [Sent(Work(m.stage), m)]
    {
      messages := messages + [Envelope(Work(m.stage), m)];
      journal.events := journal.events + [Sent(Work(m.stage), m)];
    }

    method PublishRetry(delayMs: nat, m: StageMessage)
      modifies this, journal
      ensures messages == old(messages) + [Envelope(Tier(delayMs), m)]
      ensures journal.events == old(journal.events) + [Sent(Tier(delayMs), m)]
    {
      messages := messages + [Envelope(Tier(delayMs), m)];
      journal.events := journal.events + [Sent(Tier(delayMs), m)];
    }

    method PublishDeadLetter(m: StageMessage)
      modifies this, journal
      ensures messages == old(messages) + [Envelope(Dlq(m.stage), m)]
      ensures journal.events == old(journal.events) + [Sent(Dlq(m.stage), m)]
    {
      messages := messages + [Envelope(Dlq(m.stage), m)];
      journal.events := journal.events + [Sent(Dlq(m.stage), m)];
    }
  }

  function ToWork(messages: seq<StageMessage>): (r: seq<Envelope>)
    ensures |r| == |messages|
    ensures forall i :: 0 <= i < |r| ==> r[i] == Envelope(Work(messages[i].stage), messages[i])
  {
    if messages == [] then [] else [Envelope(Work(messages[0].stage), messages[0])] + ToWork(messages[1..])
  }

  lemma NothingToWork()
    ensures ToWork([]) == [] && SentAll([]) == []
  {
  }

  lemma ToWorkAppend(front: seq<StageMessage>, m: StageMessage)
    ensures ToWork(front + [m]) == ToWork(front) + [Envelope(Work(m.stage), m)]
    ensures SentAll(ToWork(front + [m])) == SentAll(ToWork(front)) + [Sent(Work(m.stage), m)]
  {
    hide ToWork, SentAll;
    assert ToWork(front + [m]) == ToWork(front) + [Envelope(Work(m.stage), m)];
  }

  lemma FirstToWork(messages: seq<StageMessage>)
    requires messages != []
    ensures var first, rest := messages[0], messages[1..];
      && ToWork(messages) == [Envelope(Work(first.stage), first)] + ToWork(rest)
      && SentAll(ToWork(messages)) == [Sent(Work(first.stage), first)] + SentAll(ToWork(rest))
  {
  }

  function SentAll(envelopes: seq<Envelope>): (r: seq<Event>)
    ensures |r| == |envelopes| && forall i :: 0 <= i < |r| ==> r[i] == Sent(envelopes[i].queue, envelopes[i].message)
  {
    if envelopes == [] then [] else [Sent(envelopes[0].queue, envelopes[0].message)] + SentAll(envelopes[1..])
  }

  /** What one delivery does to its run's rows, what it publishes, and in which order all of it
      happens. */
  datatype Effect = Effect(rows: Rows, published: seq<Envelope>, events: seq<Event>)

  function Adopted(m: StageMessage, family: Option<Family>): StageMessage {
    if family.Some? then m.WithFamily(family.value) else m
  }

  function EffectOf(pipeline: seq<Stage>, rows: Rows, m: StageMessage, registered: bool, outcome: Outcome): Effect {
    if !registered then Effect(rows, [Envelope(Dlq(m.stage), m)], [Sent(Dlq(m.stage), m)])
    else
      match outcome
      case Returned(family) => ReturnedEffect(pipeline, rows, m, family)
      case Raised(failure, error) => RaisedEffect(pipeline, rows, m, failure, error)
  }

  function ReturnedEffect(pipeline: seq<Stage>, rows: Rows, m: StageMessage, family: Option<Family>): Effect {
    var begin, complete := BeginStage(m.stage, m.attempt), CompleteStage(m.stage);
    var done := PgApply(PgApply(rows, begin), complete);
    var followers := NextMessages(pipeline, Adopted(m, family), PgCompleted(done), done.Keys);
    Effect(PgApply(done, MarkDispatched(StagesOf(followers))), ToWork(followers),
           [Stored(m.runId, begin), Stored(m.runId, complete)] + HandOffEvents(m.runId, followers))
  }

  function RaisedEffect(pipeline: seq<Stage>, rows: Rows, m: StageMessage, failure: Failure, error: string): Effect {
    var begin, action := BeginStage(m.stage, m.attempt), PlanFailure(pipeline, m, failure);
    var fail, out := FailStage(m.stage, error, action.DeadLetter?), Rerouted(m, action);
    Effect(PgApply(PgApply(rows, begin), fail), [out],
           [Stored(m.runId, begin), Stored(m.runId, fail), Sent(out.queue, out.message)])
  }

  /** The reservation comes first, then each publish. */
  function HandOffEvents(run: RunId, followers: seq<StageMessage>): seq<Event> {
    (if followers == [] then [] else [Stored(run, MarkDispatched(StagesOf(followers)))]) + SentAll(ToWork(followers))
  }

  function Rerouted(m: StageMessage, action: Action): Envelope {
    if action.Retry? then Envelope(Tier(action.delayMs), m.Retried()) else Envelope(Dlq(m.stage), m)
  }

  lemma HandOffParts(run: RunId, rows: Rows, followers: seq<StageMessage>)
    ensures followers == [] ==> PgApply(rows, MarkDispatched(StagesOf(followers))) == rows && ToWork(followers) == []
    ensures followers == [] ==> HandOffEvents(run, followers) == []
    ensures followers != [] ==> HandOffEvents(run, followers)
                                == [Stored(run, MarkDispatched(StagesOf(followers)))] + SentAll(ToWork(followers))
    ensures followers != [] ==> StagesOf(followers) != []
  {
  }

  /** The journal of a success, event after event, is the one its effect lists. */
  lemma JournalOf(before: seq<Event>, m: StageMessage, followers: seq<StageMessage>)
    ensures var begun := before + [Stored(m.runId, BeginStage(m.stage, m.attempt))];
      var done := begun + [Stored(m.runId, CompleteStage(m.stage))];
      var reserved := done + [Stored(m.runId, MarkDispatched(StagesOf(followers)))];
      var all := before + ([Stored(m.runId, BeginStage(m.stage, m.attempt)), Stored(m.runId, CompleteStage(m.stage))]
                           + HandOffEvents(m.runId, followers));
      if followers == [] then done == all else reserved + SentAll(ToWork(followers)) == all
  {
    hide StagesOf;
    HandOffParts(m.runId, map[], followers);
  }

  class StageConsumer {
    const pipeline: seq<Stage>
    const store: PostgresStageStore
    const broker: Broker

    constructor (pipeline: seq<Stage>, store: PostgresStageStore, broker: Broker)
      ensures this.pipeline == pipeline && this.store == store && this.broker == broker
    {
      this.pipeline, this.store, this.broker := pipeline, store, broker;
    }

    ghost predicate Valid()
    {
      store.journal == broker.journal
    }

    ghost function Events(): seq<Event>
      reads store.journal
    {
      store.journal.events
    }

    /** Handles one delivery; it always ends acknowledged. What it stores and sends, and in
        which order, is exactly the effect of the outcome. */
    method OnMessage(m: StageMessage, registered: bool, outcome: Outcome) returns (acked: bool)
      requires Valid()
      modifies store, broker, store.journal
      ensures acked
      ensures var e := EffectOf(pipeline, old(store.RunRows(m.runId)), m, registered, outcome);
        && store.RunRows(m.runId) == e.rows
        && broker.messages == old(broker.messages) + e.published
        && Events() == old(Events()) + e.events
      ensures forall run :: run != m.runId ==> store.RunRows(run) == old(store.RunRows(run))
    {
      hide PgApply, NextMessages, PlanFailure, ToWork, SentAll, Rerouted, StagesOf,
           HandOffEvents, PgCompleted, Truncated;
      if !registered {
        broker.PublishDeadLetter(m);
        return true;
      }
      store.BeginStage(m.runId, m.stage, m.attempt);
      match outcome {
        case Raised(failure, error) =>
          hide ReturnedEffect;
          HandleFailure(m, failure, error);
        case Returned(family) =>
          hide RaisedEffect;
          var message := if family.Some? then m.WithFamily(family.value) else m;
          var snapshot := store.CompleteStage(message.runId, message.stage);
          var followers := NextMessages(pipeline, message, snapshot.completed, snapshot.dispatched);
          // Reserve before publishing.
          HandOffParts(message.runId, store.RunRows(message.runId), followers);
          JournalOf(old(Events()), m, followers);
          if followers != [] {
            store.MarkDispatched(message.runId, StagesOf(followers));
            PublishAll(followers);
          }
      }
      return true;
    }

    method PublishAll(followers: seq<StageMessage>)
      requires Valid()
      modifies broker, store.journal
      ensures broker.messages == old(broker.messages) + ToWork(followers)
      ensures Events() == old(Events()) + SentAll(ToWork(followers))
    {
      hide ToWork, SentAll;
      NothingToWork();
      for i := 0 to |followers|
        invariant broker.messages == old(broker.messages) + ToWork(followers[..i])
        invariant Events() == old(Events()) + SentAll(ToWork(followers[..i]))
      {
        ToWorkAppend(followers[..i], followers[i]);
        assert followers[..i + 1] == followers[..i] + [followers[i]];
        broker.PublishIngest(followers[i]);
      }
      assert followers[..|followers|] == followers;
    }

    method HandleFailure(m: StageMessage, failure: Failure, error: string)
      requires Valid()
      modifies store, broker, store.journal
      ensures var action := PlanFailure(pipeline, m, failure);
        var fail, out := FailStage(m.stage, error, action.DeadLetter?), Rerouted(m, action);
        && store.RunRows(m.runId) == PgApply(old(store.RunRows(m.runId)), fail)
        && broker.messages == old(broker.messages) + [out]
        && Events() == old(Events()) + [Stored(m.runId, fail), Sent(out.queue, out.message)]
      ensures forall run :: run != m.runId ==> store.RunRows(run) == old(store.RunRows(run))
    {
      var action := PlanFailure(pipeline, m, failure);
      match action {
        case Retry(delayMs, _) =>
          store.FailStage(m.runId, m.stage, error, false);
          broker.PublishRetry(delayMs, m.Retried());
        case DeadLetter =>
          store.FailStage(m.runId, m.stage, error, true);
          broker.PublishDeadLetter(m);
      }
    }
  }

  // ---------------------------------------------------------------- the code is one path of the protocol

  /** The state some steps lead to from a given one. */
  ghost function ExecFrom(c: Config, st: State, steps: seq<Step>): Option<State>
    decreases |steps|
  {
    if steps == [] then Some(st)
    else if Enabled(c, st, steps[0]) then ExecFrom(c, Apply(c, st, steps[0]), steps[1..])
    else None
  }

  // ---------------------------------------------------------------- what a step stores and sends

  function StoredOps(run: RunId, ops: seq<StoreOp>): seq<Event> {
    if ops == [] then [] else [Stored(run, ops[0])] + StoredOps(run, ops[1..])
  }

  function SentActs(acts: seq<Activity>): seq<Event> {
    if acts == [] then []
    else (if acts[0].Queued? then [Sent(acts[0].queue, acts[0].raw)] else []) + SentActs(acts[1..])
  }

  /** The operations a step has added to the history, and the messages it has added to the queues. */
  function EventsBetween(run: RunId, before: State, after: State): seq<Event> {
    (if |before.ops| <= |after.ops| then StoredOps(run, after.ops[|before.ops|..]) else [])
    + (if |before.acts| <= |after.acts| then SentActs(after.acts[|before.acts|..]) else [])
  }

  ghost function EventsOf(c: Config, run: RunId, st: State, steps: seq<Step>): seq<Event>
    decreases |steps|
  {
    if steps == [] || !Enabled(c, st, steps[0]) then []
    else
      var st' := Apply(c, st, steps[0]);
      EventsBetween(run, st, st') + EventsOf(c, run, st', steps[1..])
  }

  function AsActivities(envelopes: seq<Envelope>): seq<Activity> {
    if envelopes == [] then []
    else [Queued(envelopes[0].queue, envelopes[0].message)] + AsActivities(envelopes[1..])
  }

  lemma {:induction false} ExecOne(c: Config, st: State, step: Step, rest: seq<Step>)
    requires Enabled(c, st, step)
    ensures ExecFrom(c, st, [step] + rest) == ExecFrom(c, Apply(c, st, step), rest)
    ensures forall run :: EventsOf(c, run, st, [step] + rest)
                       == EventsBetween(run, st, Apply(c, st, step)) + EventsOf(c, run, Apply(c, st, step), rest)
  {
    assert ([step] + rest)[1..] == rest;
  }

  function PublishSteps(i: nat, n: nat): seq<Step> {
    if n == 0 then [Ack(i)] else [PublishNext(i)] + PublishSteps(i, n - 1)
  }

  lemma {:induction false} EventsSplit(run: RunId, before: State, after: State, ops: seq<StoreOp>, acts: seq<Activity>)
    requires after.ops == before.ops + ops && |after.acts| == |before.acts| + |acts|
    requires after.acts[|before.acts|..] == acts
    ensures EventsBetween(run, before, after) == StoredOps(run, ops) + SentActs(acts)
  {
    assert after.ops[|before.ops|..] == ops;
  }

  lemma OneEvent(run: RunId, op: StoreOp, a: Activity)
    ensures StoredOps(run, []) == [] && SentActs([]) == []
    ensures StoredOps(run, [op]) == [Stored(run, op)]
    ensures a.Queued? ==> SentActs([a]) == [Sent(a.queue, a.raw)]
  {
  }

  /** The acknowledgement stores and sends nothing. */
  lemma AckRun(c: Config, st: State, i: nat, m: StageMessage)
    requires i < |st.acts| && st.acts[i] == Finished(m)
    ensures EndsWith(c, st, i, [Ack(i)], st.rows, [], [])
  {
    ExecOne(c, st, Ack(i), []);
    assert [Ack(i)] + [] == [Ack(i)];
    var st' := Apply(c, st, Ack(i));
    assert st'.ops[|st.ops|..] == [];
    assert AsActivities([]) == [];
    assert st'.acts == st.acts[..i] + st.acts[i + 1..] + [];
  }

  /** Publishing followers one by one and acknowledging. */
  lemma {:induction false} PublishRun(c: Config, st: State, i: nat, m: StageMessage, followers: seq<StageMessage>)
    requires i < |st.acts| && st.acts[i] == AfterPublish(m, followers)
    ensures EndsWith(c, st, i, PublishSteps(i, |followers|), st.rows, ToWork(followers), SentAll(ToWork(followers)))
    decreases |followers|
  {
    if followers == [] {
      AckRun(c, st, i, m);
    } else {
      var next, rest := followers[0], followers[1..];
      var st' := Apply(c, st, PublishNext(i));
      PublishRun(c, st', i, m, rest);
      PublishOn(c, st, i, m, followers);
    }
  }

  lemma PublishOn(c: Config, st: State, i: nat, m: StageMessage, followers: seq<StageMessage>)
    requires i < |st.acts| && followers != [] && st.acts[i] == Publishing(m, followers)
    requires var st', rest := Apply(c, st, PublishNext(i)), followers[1..];
      EndsWith(c, st', i, PublishSteps(i, |rest|), st.rows, ToWork(rest), SentAll(ToWork(rest)))
    ensures EndsWith(c, st, i, [PublishNext(i)] + PublishSteps(i, |followers| - 1), st.rows, ToWork(followers),
                     SentAll(ToWork(followers)))
  {
    hide EndsWith, PublishSteps, ToWork, SentAll;
    var next, rest := followers[0], followers[1..];
    var out := Envelope(Work(next.stage), next);
    assert AfterPublish(m, rest).raw == m;
    FirstToWork(followers);
    hide AfterPublish;
    SendThen(c, st, i, PublishNext(i), PublishSteps(i, |rest|), AfterPublish(m, rest), out, st.rows, ToWork(rest),
             SentAll(ToWork(rest)));
  }

  /** From the committed completion to the acknowledgement, with `n` followers. */
  function HandOffSteps(i: nat, n: nat): seq<Step> {
    if n == 0 then PublishSteps(i, 0) else [Reserve(i)] + PublishSteps(i, n)
  }

  /** From the handler's end to the acknowledgement. */
  function OutcomeSteps(i: nat, outcome: Outcome, n: nat): seq<Step> {
    match outcome
    case Raised(failure, error) => [HandlerRaises(i, failure, error)] + ([RecordFailure(i)] + ([Reroute(i)] + [Ack(i)]))
    case Returned(_) => [HandlerReturns(i)] + ([Complete(i)] + HandOffSteps(i, n))
  }

  /** The code's order of events for one delivery. */
  function SoloSteps(i: nat, registered: bool, outcome: Outcome, n: nat): seq<Step> {
    if !registered then [Deliver(i)] + ([NoHandler(i)] + [Ack(i)])
    else [Deliver(i)] + ([Begin(i)] + OutcomeSteps(i, outcome, n))
  }

  ghost function Followers(c: Config, rows: Rows, m: StageMessage, family: Option<Family>): seq<StageMessage> {
    var done := PgApply(PgApply(rows, BeginStage(m.stage, m.attempt)), CompleteStage(m.stage));
    NextMessages(c.pipeline, Adopted(m, family), PgCompleted(done), done.Keys)
  }

  /** The steps can be taken; they consume activity `i`, leave these rows and messages, and store
      and send these events in this order. */
  ghost predicate EndsWith(c: Config, st: State, i: nat, steps: seq<Step>, rows: Rows, published: seq<Envelope>,
                           events: seq<Event>)
    requires i < |st.acts|
  {
    && EventsOf(c, st.acts[i].raw.runId, st, steps) == events
    && match ExecFrom(c, st, steps)
       case None => false
       case Some(st') =>
         st'.rows == rows && st'.acts == st.acts[..i] + st.acts[i + 1..] + AsActivities(published)
  }

  /** A step that only rewrites activity `i` and the store. */
  lemma StepThen(c: Config, st: State, i: nat, step: Step, rest: seq<Step>, rows: Rows, published: seq<Envelope>,
                 ops: seq<StoreOp>, events: seq<Event>)
    requires Enabled(c, st, step) && i < |st.acts|
    requires var st' := Apply(c, st, step);
      && |st'.acts| == |st.acts| && st'.acts[..i] == st.acts[..i] && st'.acts[i + 1..] == st.acts[i + 1..]
      && st'.acts[i].raw == st.acts[i].raw && st'.ops == st.ops + ops
      && EndsWith(c, st', i, rest, rows, published, events)
    ensures EndsWith(c, st, i, [step] + rest, rows, published, StoredOps(st.acts[i].raw.runId, ops) + events)
  {
    var run := st.acts[i].raw.runId;
    ExecOne(c, st, step, rest);
    EventsSplit(run, st, Apply(c, st, step), ops, []);
    assert StoredOps(run, ops) + SentActs([]) == StoredOps(run, ops);
  }

  /** A step that rewrites activity `i` and sends a message. */
  lemma SendThen(c: Config, st: State, i: nat, step: Step, rest: seq<Step>, after: Activity, out: Envelope, rows: Rows,
                 published: seq<Envelope>, events: seq<Event>)
    requires Enabled(c, st, step) && i < |st.acts| && after.raw == st.acts[i].raw
    requires var st' := Apply(c, st, step);
      && st'.acts == st.acts[i := after] + [Queued(out.queue, out.message)] && st'.ops == st.ops
      && EndsWith(c, st', i, rest, rows, published, events)
    ensures EndsWith(c, st, i, [step] + rest, rows, [out] + published, [Sent(out.queue, out.message)] + events)
  {
    hide Apply, Enabled, EventsBetween;
    var run, message := st.acts[i].raw.runId, Queued(out.queue, out.message);
    var st' := Apply(c, st, step);
    ExecOne(c, st, step, rest);
    SendEvents(run, st, st', i, after, out);
    assert ([out] + published)[1..] == published;
    Spliced(st.acts, i, after, message, AsActivities(published));
  }

  lemma SendEvents(run: RunId, st: State, st': State, i: nat, after: Activity, out: Envelope)
    requires i < |st.acts| && st'.acts == st.acts[i := after] + [Queued(out.queue, out.message)] && st'.ops == st.ops
    ensures EventsBetween(run, st, st') == [Sent(out.queue, out.message)]
  {
    var message := Queued(out.queue, out.message);
    assert st'.acts[|st.acts|..] == [message] && st'.ops == st.ops + [];
    EventsSplit(run, st, st', [], [message]);
    OneEvent(run, BeginStage(out.message.stage, 0), message);
    assert [] + [Sent(out.queue, out.message)] == [Sent(out.queue, out.message)];
  }

  lemma Spliced(acts: seq<Activity>, i: nat, after: Activity, message: Activity, tail: seq<Activity>)
    requires i < |acts|
    ensures var acts' := acts[i := after] + [message];
      acts'[..i] + acts'[i + 1..] + tail == acts[..i] + acts[i + 1..] + ([message] + tail)
  {
  }

  /** A dead letter or a retry goes out, then the acknowledgement. */
  lemma OutAndAck(c: Config, st: State, i: nat, step: Step, out: Envelope)
    requires i < |st.acts| && Enabled(c, st, step)
    requires (step == NoHandler(i) && out == Envelope(Dlq(st.acts[i].raw.stage), st.acts[i].raw))
          || (step == Reroute(i) && out == Rerouted(st.acts[i].raw, st.acts[i].action))
    ensures EndsWith(c, st, i, [step] + [Ack(i)], st.rows, [out], [Sent(out.queue, out.message)])
  {
    hide EndsWith;
    var m := st.acts[i].raw;
    var s1 := Apply(c, st, step);
    assert s1.acts == st.acts[i := Finished(m)] + [Queued(out.queue, out.message)];
    AckRun(c, s1, i, m);
    SendThen(c, st, i, step, [Ack(i)], Finished(m), out, st.rows, [], []);
    assert [out] + [] == [out] && [Sent(out.queue, out.message)] + [] == [Sent(out.queue, out.message)];
  }

  lemma HandOffRun(c: Config, st: State, i: nat, m: StageMessage, followers: seq<StageMessage>)
    requires i < |st.acts| && st.acts[i] == AfterComplete(m, followers)
    ensures EndsWith(c, st, i, HandOffSteps(i, |followers|), PgApply(st.rows, MarkDispatched(StagesOf(followers))),
                     ToWork(followers), HandOffEvents(m.runId, followers))
  {
    hide EndsWith, PgApply, PublishSteps;
    HandOffParts(m.runId, st.rows, followers);
    if followers == [] {
      AckOnly(i);
      AckRun(c, st, i, m);
    } else {
      ReservedRun(c, st, i, m, followers);
    }
  }

  lemma AckOnly(i: nat)
    ensures PublishSteps(i, 0) == [Ack(i)]
  {
  }

  lemma ReservedRun(c: Config, st: State, i: nat, m: StageMessage, followers: seq<StageMessage>)
    requires i < |st.acts| && followers != [] && st.acts[i] == Completed(m, followers)
    ensures EndsWith(c, st, i, [Reserve(i)] + PublishSteps(i, |followers|),
                     PgApply(st.rows, MarkDispatched(StagesOf(followers))), ToWork(followers),
                     [Stored(m.runId, MarkDispatched(StagesOf(followers)))] + SentAll(ToWork(followers)))
  {
    hide PgApply, ToWork, EndsWith, SentAll, PublishSteps;
    var op := MarkDispatched(StagesOf(followers));
    var rows := PgApply(st.rows, op);
    var s1 := Apply(c, st, Reserve(i));
    assert s1.rows == rows && s1.acts == st.acts[i := Publishing(m, followers)] + [] && s1.ops == st.ops + [op];
    PublishRun(c, s1, i, m, followers);
    StepThen(c, st, i, Reserve(i), PublishSteps(i, |followers|), rows, ToWork(followers),
             [op], SentAll(ToWork(followers)));
    OneEvent(m.runId, op, s1.acts[i]);
  }

  lemma ReturnedRun(c: Config, st: State, i: nat, m: StageMessage, family: Option<Family>)
    requires c.store.Postgres? && i < |st.acts| && st.acts[i] == Handled(m, Adopted(m, family))
    ensures var done := PgApply(st.rows, CompleteStage(m.stage));
      var followers := NextMessages(c.pipeline, Adopted(m, family), PgCompleted(done), done.Keys);
      EndsWith(c, st, i, [Complete(i)] + HandOffSteps(i, |followers|),
               PgApply(done, MarkDispatched(StagesOf(followers))), ToWork(followers),
               [Stored(m.runId, CompleteStage(m.stage))] + HandOffEvents(m.runId, followers))
  {
    hide EndsWith, HandOffSteps, HandOffEvents, ToWork;
    var op := CompleteStage(m.stage);
    var done := PgApply(st.rows, op);
    var followers := NextMessages(c.pipeline, Adopted(m, family), PgCompleted(done), done.Keys);
    var s1 := Apply(c, st, Complete(i));
    assert s1.rows == done && s1.acts == st.acts[i := AfterComplete(m, followers)] + [] && s1.ops == st.ops + [op];
    HandOffRun(c, s1, i, m, followers);
    StepThen(c, st, i, Complete(i), HandOffSteps(i, |followers|), PgApply(done, MarkDispatched(StagesOf(followers))),
             ToWork(followers), [op], HandOffEvents(m.runId, followers));
    OneEvent(m.runId, op, s1.acts[i]);
  }

  lemma RaisedRun(c: Config, st: State, i: nat, m: StageMessage, failure: Failure, error: string)
    requires i < |st.acts| && st.acts[i] == Begun(m)
    ensures var action := PlanFailure(c.pipeline, m, failure);
      var fail, out := FailStage(m.stage, error, action.DeadLetter?), Rerouted(m, action);
      EndsWith(c, st, i, [HandlerRaises(i, failure, error)] + ([RecordFailure(i)] + ([Reroute(i)] + [Ack(i)])),
               PgApply(st.rows, fail), [out], [Stored(m.runId, fail), Sent(out.queue, out.message)])
  {
    hide EndsWith, PlanFailure, PgApply;
    var action := PlanFailure(c.pipeline, m, failure);
    var fail, out := FailStage(m.stage, error, action.DeadLetter?), Rerouted(m, action);
    var rows := PgApply(st.rows, fail);
    var s1 := Apply(c, st, HandlerRaises(i, failure, error));
    var s2 := Apply(c, s1, RecordFailure(i));
    assert s1.acts == st.acts[i := Failing(m, action, error)] + [] && s1.ops == st.ops + [];
    assert s2.acts == s1.acts[i := Recorded(m, action)] + [] && s2.ops == s1.ops + [fail];
    OutAndAck(c, s2, i, Reroute(i), out);
    OneEvent(m.runId, fail, s1.acts[i]);
    StepThen(c, s1, i, RecordFailure(i), [Reroute(i)] + [Ack(i)], rows, [out], [fail], [Sent(out.queue, out.message)]);
    var events := [Stored(m.runId, fail)] + [Sent(out.queue, out.message)];
    assert events == [Stored(m.runId, fail), Sent(out.queue, out.message)];
    StepThen(c, st, i, HandlerRaises(i, failure, error), [RecordFailure(i)] + ([Reroute(i)] + [Ack(i)]), rows, [out],
             [], events);
    assert [] + events == events;
  }

  /** Left alone, what the code stores and sends, in its own order, is a crash-free path of the
      protocol: the same events one by one, and in the end the same rows and messages. */
  lemma CodeFollowsProtocol(c: Config, st: State, i: nat, registered: bool, outcome: Outcome)
    requires c.store.Postgres? && i < |st.acts|
    requires st.acts[i] == Queued(Work(st.acts[i].raw.stage), st.acts[i].raw)
    requires outcome.Returned? ==>
               outcome.family == if st.acts[i].raw.stage == ENTRY_STAGE then Some(c.family) else None
    ensures var m := st.acts[i].raw;
      var n := if outcome.Returned? then |Followers(c, st.rows, m, outcome.family)| else 0;
      var steps := SoloSteps(i, registered, outcome, n);
      var e := EffectOf(c.pipeline, st.rows, m, registered, outcome);
      && (forall k :: 0 <= k < |steps| ==> CrashFree(steps[k]))
      && EndsWith(c, st, i, steps, e.rows, e.published, e.events)
  {
    hide Followers, EndsWith;
    var m := st.acts[i].raw;
    if registered {
      RegisteredRun(c, st, i, outcome);
    } else {
      UnregisteredRun(c, st, i, outcome);
    }
    SoloStepsCrashFree(i, registered, outcome,
                       if outcome.Returned? then |Followers(c, st.rows, m, outcome.family)| else 0);
  }

  lemma UnregisteredRun(c: Config, st: State, i: nat, outcome: Outcome)
    requires i < |st.acts| && st.acts[i] == Queued(Work(st.acts[i].raw.stage), st.acts[i].raw)
    ensures var m := st.acts[i].raw;
      EndsWith(c, st, i, [Deliver(i)] + ([NoHandler(i)] + [Ack(i)]), st.rows, [Envelope(Dlq(m.stage), m)],
               [Sent(Dlq(m.stage), m)])
  {
    hide EndsWith;
    var m, s1 := st.acts[i].raw, Apply(c, st, Deliver(i));
    var out := Envelope(Dlq(m.stage), m);
    assert s1.acts == st.acts[i := Delivered(m)] + [] && s1.ops == st.ops + [];
    OutAndAck(c, s1, i, NoHandler(i), out);
    StepThen(c, st, i, Deliver(i), [NoHandler(i)] + [Ack(i)], st.rows, [out], [], [Sent(out.queue, out.message)]);
    assert [] + [Sent(out.queue, out.message)] == [Sent(out.queue, out.message)];
  }

  lemma SoloStepsCrashFree(i: nat, registered: bool, outcome: Outcome, n: nat)
    ensures forall k :: 0 <= k < |SoloSteps(i, registered, outcome, n)| ==>
      CrashFree(SoloSteps(i, registered, outcome, n)[k])
  {
    hide PublishSteps;
    PublishStepsCrashFree(i, n);
  }

  lemma {:induction false} PublishStepsCrashFree(i: nat, n: nat)
    ensures forall k :: 0 <= k < |PublishSteps(i, n)| ==> CrashFree(PublishSteps(i, n)[k])
  {
    if n > 0 {
      PublishStepsCrashFree(i, n - 1);
    }
  }

  /** After `begin_stage`: the outcome's remaining events. */
  lemma OutcomeRun(c: Config, rows: Rows, st: State, i: nat, m: StageMessage, outcome: Outcome)
    requires c.store.Postgres? && i < |st.acts| && st.acts[i] == Begun(m)
    requires st.rows == PgApply(rows, BeginStage(m.stage, m.attempt))
    requires outcome.Returned? ==> outcome.family == if m.stage == ENTRY_STAGE then Some(c.family) else None
    ensures var n := if outcome.Returned? then |Followers(c, rows, m, outcome.family)| else 0;
      var e := EffectOf(c.pipeline, rows, m, true, outcome);
      e.events != [] && e.events[0] == Stored(m.runId, BeginStage(m.stage, m.attempt))
      && EndsWith(c, st, i, OutcomeSteps(i, outcome, n), e.rows, e.published, e.events[1..])
  {
    hide EndsWith, NextMessages, PgApply, HandOffSteps, HandOffEvents, ToWork;
    var e := EffectOf(c.pipeline, rows, m, true, outcome);
    match outcome
    case Raised(failure, error) =>
      RaisedRun(c, st, i, m, failure, error);
      var action := PlanFailure(c.pipeline, m, failure);
      var out := Rerouted(m, action);
      assert e.events[1..] == [Stored(m.runId, FailStage(m.stage, error, action.DeadLetter?)),
                               Sent(out.queue, out.message)];
    case Returned(family) =>
      var n := |Followers(c, rows, m, family)|;
      var s1 := Apply(c, st, HandlerReturns(i));
      assert s1.acts == st.acts[i := Handled(m, Adopt(c, m))] + [] && s1.ops == st.ops + [];
      ReturnedRun(c, s1, i, m, family);
      var events := [Stored(m.runId, CompleteStage(m.stage))] + HandOffEvents(m.runId, Followers(c, rows, m, family));
      assert e.events[1..] == events;
      StepThen(c, st, i, HandlerReturns(i), [Complete(i)] + HandOffSteps(i, n), e.rows, e.published, [], events);
      assert [] + events == events;
  }

  /** The steps from `begin_stage` on. */
  lemma BegunRun(c: Config, st: State, i: nat, m: StageMessage, outcome: Outcome)
    requires c.store.Postgres? && i < |st.acts| && st.acts[i] == Delivered(m)
    requires outcome.Returned? ==> outcome.family == if m.stage == ENTRY_STAGE then Some(c.family) else None
    ensures var n := if outcome.Returned? then |Followers(c, st.rows, m, outcome.family)| else 0;
      var e := EffectOf(c.pipeline, st.rows, m, true, outcome);
      EndsWith(c, st, i, [Begin(i)] + OutcomeSteps(i, outcome, n), e.rows, e.published, e.events)
  {
    hide EffectOf, Followers, OutcomeSteps, EndsWith, PgApply, NextMessages, PlanFailure, MemApply;
    var e := EffectOf(c.pipeline, st.rows, m, true, outcome);
    var n := if outcome.Returned? then |Followers(c, st.rows, m, outcome.family)| else 0;
    var begin := BeginStage(m.stage, m.attempt);
    var begun := Apply(c, st, Begin(i));
    assert begun.acts == st.acts[i := Begun(m)] + [] && begun.ops == st.ops + [begin];
    OutcomeRun(c, st.rows, begun, i, m, outcome);
    OneEvent(m.runId, begin, st.acts[i]);
    var rest := e.events[1..];
    StepThen(c, st, i, Begin(i), OutcomeSteps(i, outcome, n), e.rows, e.published, [begin], rest);
    assert [e.events[0]] + rest == e.events;
  }

  lemma RegisteredRun(c: Config, st: State, i: nat, outcome: Outcome)
    requires c.store.Postgres? && i < |st.acts|
    requires st.acts[i] == Queued(Work(st.acts[i].raw.stage), st.acts[i].raw)
    requires outcome.Returned? ==>
               outcome.family == if st.acts[i].raw.stage == ENTRY_STAGE then Some(c.family) else None
    ensures var m := st.acts[i].raw;
      var n := if outcome.Returned? then |Followers(c, st.rows, m, outcome.family)| else 0;
      var e := EffectOf(c.pipeline, st.rows, m, true, outcome);
      EndsWith(c, st, i, SoloSteps(i, true, outcome, n), e.rows, e.published, e.events)
  {
    hide EffectOf, Followers, OutcomeSteps, EndsWith;
    var m := st.acts[i].raw;
    var e := EffectOf(c.pipeline, st.rows, m, true, outcome);
    var n := if outcome.Returned? then |Followers(c, st.rows, m, outcome.family)| else 0;
    var taken := Apply(c, st, Deliver(i));
    assert taken.acts == st.acts[i := Delivered(m)] + [] && taken.ops == st.ops + [];
    BegunRun(c, taken, i, m, outcome);
    assert [] + e.events == e.events;
    StepThen(c, st, i, Deliver(i), [Begin(i)] + OutcomeSteps(i, outcome, n), e.rows, e.published, [], e.events);
  }
}
