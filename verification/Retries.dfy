/** Which failures are tried again, after what wait, and which end in the dead letters. */
module Retries {
  import opened Stages
  import opened Dag
  import opened Messages
  import opened Runner
  import opened Store
  import opened Protocol
  import opened Handoff
  import opened Delivery

  // ---------------------------------------------------------------- what happened in a run

  /** Step `k` was about a delivery of this message. */
  ghost predicate About(c: Config, steps: seq<Step>, k: nat, m: StageMessage) {
    && k < |steps| && !steps[k].Resume?
    && Exec(c, steps[..k]).Some?
    && var acts := Exec(c, steps[..k]).value.acts;
      steps[k].i < |acts| && acts[steps[k].i].raw == m
  }

  ghost predicate RaisedAt(c: Config, steps: seq<Step>, k: nat, m: StageMessage, failure: Failure) {
    About(c, steps, k, m) && steps[k].HandlerRaises? && steps[k].failure == failure
  }

  ghost predicate Raised(c: Config, steps: seq<Step>, m: StageMessage, failure: Failure) {
    exists k: nat :: RaisedAt(c, steps, k, m, failure)
  }

  ghost predicate Unhandled(c: Config, steps: seq<Step>, m: StageMessage) {
    exists k: nat :: About(c, steps, k, m) && steps[k].NoHandler?
  }

  ghost predicate Rejected(c: Config, steps: seq<Step>, m: StageMessage) {
    exists k: nat :: About(c, steps, k, m) && steps[k].Reject?
  }

  /** Attempts a declared stage has left after this one; none for a stage nobody declared. */
  ghost predicate CanGoOn(c: Config, m: StageMessage) {
    exists stage :: stage in c.pipeline && stage.name == m.stage && m.attempt < stage.maxAttempts
  }

  /** Half a minute after the second failure, five minutes after any later one. */
  function DelayAfter(failures: int): nat {
    if failures <= 1 then 5_000 else if failures == 2 then 30_000 else 300_000
  }

  // ---------------------------------------------------------------- what accounts for an activity

  ghost predicate GivenUp(c: Config, steps: seq<Step>, m: StageMessage) {
    Raised(c, steps, m, Permanent) || (Raised(c, steps, m, Transient) && !CanGoOn(c, m))
  }

  ghost predicate TriedAgain(c: Config, steps: seq<Step>, m: StageMessage, delayMs: nat) {
    Raised(c, steps, m, Transient) && CanGoOn(c, m) && delayMs == DelayAfter(m.attempt)
  }

  ghost predicate Decided(c: Config, steps: seq<Step>, m: StageMessage, action: Action) {
    match action
    case DeadLetter => GivenUp(c, steps, m)
    case Retry(delayMs, attempt) => attempt == m.attempt + 1 && TriedAgain(c, steps, m, delayMs)
  }

  ghost predicate FromOne(messages: seq<StageMessage>) {
    forall k :: 0 <= k < |messages| ==> messages[k].attempt == 1
  }

  ghost predicate Accounted(c: Config, steps: seq<Step>, a: Activity) {
    && a.raw.attempt >= 1
    && match a
       case Queued(Dlq(_), m) => GivenUp(c, steps, m) || Unhandled(c, steps, m) || Rejected(c, steps, m)
       case Queued(Tier(delayMs), m) =>
         m.attempt >= 2 && TriedAgain(c, steps, m.(attempt := m.attempt - 1), delayMs)
       case Failing(m, action, _) => Decided(c, steps, m, action)
       case Recorded(m, action) => Decided(c, steps, m, action)
       case Completed(_, followers) => FromOne(followers)
       case Publishing(_, followers) => FromOne(followers)
       case _ => true
  }

  ghost predicate AllAccounted(c: Config, steps: seq<Step>, acts: seq<Activity>) {
    forall i :: 0 <= i < |acts| ==> Accounted(c, steps, acts[i])
  }

  lemma AboutStays(c: Config, steps: seq<Step>, step: Step, k: nat, m: StageMessage)
    requires About(c, steps, k, m)
    ensures About(c, steps + [step], k, m)
  {
    assert (steps + [step])[..k] == steps[..k];
  }

  lemma RaisedStays(c: Config, steps: seq<Step>, step: Step, m: StageMessage, failure: Failure)
    ensures Raised(c, steps, m, failure) ==> Raised(c, steps + [step], m, failure)
  {
    hide About;
    if Raised(c, steps, m, failure) {
      var k :| RaisedAt(c, steps, k, m, failure);
      AboutHolds(c, steps, k, m);
      AboutStays(c, steps, step, k, m);
      assert RaisedAt(c, steps + [step], k, m, failure);
    }
  }

  lemma AboutHolds(c: Config, steps: seq<Step>, k: nat, m: StageMessage)
    requires About(c, steps, k, m)
    ensures k < |steps|
  {
  }

  lemma EndsStay(c: Config, steps: seq<Step>, step: Step, m: StageMessage)
    ensures Unhandled(c, steps, m) ==> Unhandled(c, steps + [step], m)
    ensures Rejected(c, steps, m) ==> Rejected(c, steps + [step], m)
  {
    forall k: nat | About(c, steps, k, m) ensures About(c, steps + [step], k, m) && (steps + [step])[k] == steps[k] {
      AboutStays(c, steps, step, k, m);
    }
    hide About;
  }

  lemma AccountStays(c: Config, steps: seq<Step>, step: Step, a: Activity)
    requires Accounted(c, steps, a)
    ensures Accounted(c, steps + [step], a)
  {
    hide Raised, Unhandled, Rejected, CanGoOn;
    var m := if a.Queued? && a.queue.Tier? then a.raw.(attempt := a.raw.attempt - 1) else a.raw;
    RaisedStays(c, steps, step, m, Permanent);
    RaisedStays(c, steps, step, m, Transient);
    EndsStay(c, steps, step, m);
  }

  lemma JustNow(c: Config, steps: seq<Step>, st: State, step: Step)
    requires Reaches(c, steps, st) && !step.Resume? && step.i < |st.acts|
    ensures About(c, steps + [step], |steps|, st.acts[step.i].raw)
  {
    assert (steps + [step])[..|steps|] == steps;
  }

  /** What the planning decides: another attempt for a transient failure of a declared stage that
      has attempts left, after the wait for this failure; the dead letters for any other. */
  lemma PlanIs(pipeline: seq<Stage>, m: StageMessage, failure: Failure)
    requires DistinctNames(pipeline) && m.attempt >= 1
    ensures PlanFailure(pipeline, m, failure)
         == if failure == Transient && exists stage :: stage in pipeline && stage.name == m.stage
                                                       && m.attempt < stage.maxAttempts
            then Retry(DelayAfter(m.attempt), m.attempt + 1) else DeadLetter
  {
    if m.stage in Names(pipeline) {
      var stage := Lookup(pipeline, m.stage);
      assert stage in pipeline && stage.name == m.stage;
      forall other | other in pipeline && other.name == m.stage ensures other == stage {
        LookupUnique(pipeline, other);
      }
    }
  }

  lemma RaiseAccounted(c: Config, steps: seq<Step>, st: State, step: Step)
    requires DistinctNames(c.pipeline) && Reaches(c, steps, st) && Enabled(c, st, step) && step.HandlerRaises?
    requires st.acts[step.i].raw.attempt >= 1
    ensures var m := st.acts[step.i].raw;
      Decided(c, steps + [step], m, PlanFailure(c.pipeline, m, step.failure))
  {
    var m := st.acts[step.i].raw;
    JustNow(c, steps, st, step);
    PlanIs(c.pipeline, m, step.failure);
    hide PlanFailure, About;
    assert RaisedAt(c, steps + [step], |steps|, m, step.failure);
  }

  lemma {:induction false} ResumedFromOne(c: Config, family: Family, plan: seq<StageName>, steps: seq<Step>)
    ensures AllAccounted(c, steps, Resumed(c, family, plan))
  {
    hide GivenUp, TriedAgain, Unhandled, Rejected;
    if plan != [] {
      ResumedFromOne(c, family, plan[1..], steps);
    }
  }

  lemma NextFromOne(c: Config, m: StageMessage, completed: set<StageName>, dispatched: set<StageName>)
    ensures FromOne(NextMessages(c.pipeline, m, completed, dispatched))
  {
    HandOffAt(m, Ready(c.pipeline, m.family, completed, dispatched));
  }

  /** Replacing one activity and adding others keeps accounts. */
  lemma MoveAccounted(c: Config, steps: seq<Step>, acts: seq<Activity>, i: nat, after: Activity,
                      published: seq<Activity>)
    requires AllAccounted(c, steps, acts) && i < |acts|
    requires Accounted(c, steps, after) && AllAccounted(c, steps, published)
    ensures AllAccounted(c, steps, acts[i := after] + published)
  {
    hide Accounted;
  }

  lemma StepAccounted(c: Config, steps: seq<Step>, st: State, step: Step)
    requires DistinctNames(c.pipeline) && Reaches(c, steps, st) && Enabled(c, st, step)
    requires AllAccounted(c, steps, st.acts)
    ensures AllAccounted(c, steps + [step], Apply(c, st, step).acts)
  {
    var more := steps + [step];
    forall i | 0 <= i < |st.acts| ensures Accounted(c, more, st.acts[i]) {
      AccountStays(c, steps, step, st.acts[i]);
    }
    hide Accounted, Reaches, ResumePlan, Resumed, TakeSnapshot;
    match step
    case Resume(family) =>
      var snapshot := TakeSnapshot(c, st);
      ResumedFromOne(c, family, ResumePlan(c.pipeline, family, snapshot.completed, snapshot.dispatched), more);
    case Ack(i) =>
    case _ =>
      var after, published := NextAccounted(c, steps, st, step);
      MoveAccounted(c, more, st.acts, step.i, after, published);
  }

  lemma NextAccounted(c: Config, steps: seq<Step>, st: State, step: Step)
    returns (after: Activity, published: seq<Activity>)
    requires DistinctNames(c.pipeline) && Reaches(c, steps, st) && Enabled(c, st, step)
    requires !step.Resume? && !step.Ack? && AllAccounted(c, steps + [step], st.acts)
    ensures Apply(c, st, step).acts == st.acts[step.i := after] + published
    ensures Accounted(c, steps + [step], after) && AllAccounted(c, steps + [step], published)
  {
    assert Accounted(c, steps + [step], st.acts[step.i]);
    if step.Begin? || step.Complete? || step.Reserve? || step.RecordFailure? {
      after := CommitAccounted(c, steps + [step], st, step);
      published := [];
    } else {
      after, published := PlainAccounted(c, steps, st, step);
    }
  }

  lemma CommitAccounted(c: Config, more: seq<Step>, st: State, step: Step) returns (after: Activity)
    requires Enabled(c, st, step) && (step.Begin? || step.Complete? || step.Reserve? || step.RecordFailure?)
    requires Accounted(c, more, st.acts[step.i])
    ensures Apply(c, st, step).acts == st.acts[step.i := after] + [] && Accounted(c, more, after)
  {
    hide NextMessages, PgApply, MemApply, TakeSnapshot, StagesOf, GivenUp, TriedAgain, Unhandled, Rejected;
    after := Apply(c, st, step).acts[step.i];
    if step.Complete? {
      var snapshot := TakeSnapshot(c, Commit(st, CompleteStage(st.acts[step.i].raw.stage)));
      NextFromOne(c, st.acts[step.i].adopted, snapshot.completed, snapshot.dispatched);
    }
  }

  lemma PlainAccounted(c: Config, steps: seq<Step>, st: State, step: Step)
    returns (after: Activity, published: seq<Activity>)
    requires DistinctNames(c.pipeline) && Reaches(c, steps, st) && Enabled(c, st, step)
    requires !step.Resume? && !step.Ack? && Accounted(c, steps + [step], st.acts[step.i])
    requires !step.Begin? && !step.Complete? && !step.Reserve? && !step.RecordFailure?
    ensures Apply(c, st, step).acts == st.acts[step.i := after] + published
    ensures Accounted(c, steps + [step], after) && AllAccounted(c, steps + [step], published)
  {
    hide PlanFailure, StagesOf, Commit, TakeSnapshot, ResumePlan, Resumed, Reaches, GivenUp, TriedAgain;
    var a := st.acts[step.i];
    after := Apply(c, st, step).acts[step.i];
    published := Apply(c, st, step).acts[|st.acts|..];
    JustNow(c, steps, st, step);
    hide About;
    assert (steps + [step])[|steps|] == step;
    match step
    case HandlerRaises(i, failure, _) =>
      RaiseAccounted(c, steps, st, step);
    case Reroute(i) =>
      assert a.raw.Retried().(attempt := a.raw.Retried().attempt - 1) == a.raw;
    case _ =>
  }

  /** Every activity of every run, crashes included, is accounted for. */
  lemma {:induction false} RunAccounted(c: Config, steps: seq<Step>, st: State)
    requires ValidConfig(c) && Reaches(c, steps, st)
    ensures AllAccounted(c, steps, st.acts)
  {
    if steps != [] {
      var front, step := steps[..|steps| - 1], steps[|steps| - 1];
      var before := Exec(c, front).value;
      RunAccounted(c, front, before);
      StepAccounted(c, front, before, step);
      assert steps == front + [step];
    }
  }

  // ---------------------------------------------------------------- what this says of the queues

  /** Over every run, crashes included: a dead letter had no handler, was rejected, failed for good,
      or failed with no attempt left; nothing else ever gets there. */
  lemma DeadLettersHaveCause(c: Config, steps: seq<Step>, st: State, i: nat)
    requires ValidConfig(c) && Reaches(c, steps, st)
    requires i < |st.acts| && st.acts[i].Queued? && st.acts[i].queue.Dlq?
    ensures var m := st.acts[i].raw;
      || Raised(c, steps, m, Permanent)
      || (Raised(c, steps, m, Transient) && !CanGoOn(c, m))
      || Unhandled(c, steps, m)
      || Rejected(c, steps, m)
    ensures CrashFreeRun(c, steps, st) ==> !Rejected(c, steps, st.acts[i].raw)
  {
    RunAccounted(c, steps, st);
    assert Accounted(c, steps, st.acts[i]);
  }

  /** Over every run: a message waits only because its last attempt failed for a passing reason
      with an attempt to spare, and it waits as long as that failure asks for. */
  lemma RetriesAreDue(c: Config, steps: seq<Step>, st: State, i: nat)
    requires ValidConfig(c) && Reaches(c, steps, st)
    requires i < |st.acts| && st.acts[i].Queued? && st.acts[i].queue.Tier?
    ensures var m := st.acts[i].raw;
      var failed := m.(attempt := m.attempt - 1);
      && m.attempt >= 2 && Raised(c, steps, failed, Transient) && CanGoOn(c, failed)
      && st.acts[i].queue.delayMs == DelayAfter(failed.attempt)
  {
    RunAccounted(c, steps, st);
    assert Accounted(c, steps, st.acts[i]);
  }

  /** Without crashes that is the wait after as many failures as there were handler calls. */
  lemma WaitsAfterCalls(c: Config, steps: seq<Step>, st: State, i: nat)
    requires Safe(c) && CrashFreeRun(c, steps, st)
    requires i < |st.acts| && st.acts[i].Queued? && st.acts[i].queue.Tier?
    ensures var calls := st.starts[st.acts[i].raw.stage];
      calls >= 1 && st.acts[i].queue.delayMs == DelayAfter(calls)
  {
    RunKeepsInv(c, steps, st);
    RetriesAreDue(c, steps, st, i);
    assert ActOk(c, st.mem.completed, st.mem.dispatched, st.starts, st.acts[i]);
  }

  // ---------------------------------------------------------------- a permanent failure ends a stage

  /** The stage is in nobody's hands but the dead letters', or on its way there. */
  ghost predicate Doomed(a: Activity, s: StageName) {
    && (a.raw.stage == s ==>
          match a
          case Queued(queue, _) => queue.Dlq?
          case Failing(_, action, _) => action.DeadLetter?
          case Recorded(_, action) => action.DeadLetter?
          case Completed(_, _) => true
          case Publishing(_, _) => true
          case Finished(_) => true
          case _ => false)
    && (match a
        case Completed(_, followers) => s !in StagesOf(followers)
        case Publishing(_, followers) => s !in StagesOf(followers)
        case _ => true)
  }

  ghost predicate AllDoomed(acts: seq<Activity>, s: StageName) {
    forall i :: 0 <= i < |acts| ==> Doomed(acts[i], s)
  }

  lemma PermanentDooms(c: Config, st: State, step: Step)
    requires ValidConfig(c) && Inv(c, st) && Enabled(c, st, step)
    requires step.HandlerRaises? && step.failure == Permanent
    ensures var s := st.acts[step.i].raw.stage;
      s in st.mem.dispatched && AllDoomed(Apply(c, st, step).acts, s)
  {
    var m := st.acts[step.i].raw;
    hide ValidConfig, Covered, Quiet, SentOk, StoresOk, StartsOk, ProgressOk, StagesOf;
    assert ActOk(c, st.mem.completed, st.mem.dispatched, st.starts, st.acts[step.i]);
    PlanIs(c.pipeline, m, Permanent);
    hide PlanFailure, ActOk, Live, MessageOk, Doomed;
    forall j | 0 <= j < |st.acts| && j != step.i ensures Doomed(st.acts[j], m.stage) {
      OthersDoomed(c, st, step.i, j);
    }
  }

  /** While a stage is handled nobody else holds it. */
  lemma OthersDoomed(c: Config, st: State, i: nat, j: nat)
    requires Inv(c, st) && i < |st.acts| && j < |st.acts| && i != j && st.acts[i].Begun?
    ensures Doomed(st.acts[j], st.acts[i].raw.stage)
  {
    hide Covered, Quiet, SentOk, StoresOk, StartsOk, ProgressOk, ActOk, Live, MessageOk;
    assert Holds(st.acts[j]) !! Holds(st.acts[i]);
  }

  lemma FollowersSkip(c: Config, st: State, a: Activity, s: StageName)
    requires ValidConfig(c) && StoresOk(st) && a.Handled? && s in st.mem.dispatched
    ensures var snapshot := TakeSnapshot(c, Commit(st, CompleteStage(a.raw.stage)));
      s !in StagesOf(NextMessages(c.pipeline, a.adopted, snapshot.completed, snapshot.dispatched))
  {
    hide ValidConfig, PgApply;
    var done := Commit(st, CompleteStage(a.raw.stage));
    CommitKeepsStores(st, CompleteStage(a.raw.stage));
    var snapshot := TakeSnapshot(c, done);
    assert s in snapshot.dispatched;
    var ready := Ready(c.pipeline, a.adopted.family, snapshot.completed, snapshot.dispatched);
    HandOffAt(a.adopted, ready);
    forall k | 0 <= k < |ready| ensures ready[k].name != s {
      ReadyMember(StagesFor(c.pipeline, a.adopted.family), c.pipeline, a.adopted.family, snapshot.completed,
                  snapshot.dispatched, ready[k]);
    }
  }

  lemma StepKeepsDoomed(c: Config, st: State, step: Step, s: StageName)
    requires ValidConfig(c) && StoresOk(st) && CrashFree(step) && Enabled(c, st, step)
    requires s in st.mem.dispatched && AllDoomed(st.acts, s)
    ensures var st' := Apply(c, st, step);
      AllDoomed(st'.acts, s) && s in st'.mem.dispatched && st'.starts[s] == st.starts[s]
  {
    if step.Ack? {
      hide Doomed;
    } else {
      assert Doomed(st.acts[step.i], s);
      hide ValidConfig, StoresOk;
      if step.Begin? || step.Complete? || step.Reserve? || step.RecordFailure? {
        CommitKeepsDoomed(c, st, step, s);
      } else {
        PlainKeepsDoomed(c, st, step, s);
      }
    }
  }

  lemma CommitKeepsDoomed(c: Config, st: State, step: Step, s: StageName)
    requires ValidConfig(c) && StoresOk(st) && Enabled(c, st, step)
    requires step.Begin? || step.Complete? || step.Reserve? || step.RecordFailure?
    requires s in st.mem.dispatched && AllDoomed(st.acts, s)
    ensures var st' := Apply(c, st, step);
      AllDoomed(st'.acts, s) && s in st'.mem.dispatched && st'.starts[s] == st.starts[s]
  {
    hide ValidConfig, StoresOk, PgApply, NextMessages, TakeSnapshot, StagesOf, AllDoomed;
    DoomedAt(st.acts, step.i, s);
    if step.Complete? {
      FollowersSkip(c, st, st.acts[step.i], s);
    }
    DoomedMove(st.acts, step.i, Apply(c, st, step).acts[step.i], [], s);
  }

  lemma PlainKeepsDoomed(c: Config, st: State, step: Step, s: StageName)
    requires CrashFree(step) && Enabled(c, st, step) && !step.Ack?
    requires !step.Begin? && !step.Complete? && !step.Reserve? && !step.RecordFailure?
    requires s in st.mem.dispatched && AllDoomed(st.acts, s)
    ensures var st' := Apply(c, st, step);
      AllDoomed(st'.acts, s) && s in st'.mem.dispatched && st'.starts[s] == st.starts[s]
  {
    hide PlanFailure, StagesOf, Commit, TakeSnapshot, ResumePlan, Resumed, AllDoomed;
    DoomedAt(st.acts, step.i, s);
    if step.PublishNext? {
      FirstOfStages(st.acts[step.i].followers);
    }
    var acts := Apply(c, st, step).acts;
    var published := acts[|st.acts|..];
    assert |published| <= 1 && (published != [] ==> Doomed(published[0], s));
    DoomedMove(st.acts, step.i, acts[step.i], published, s);
  }

  lemma DoomedAt(acts: seq<Activity>, i: nat, s: StageName)
    requires AllDoomed(acts, s) && i < |acts|
    ensures Doomed(acts[i], s)
  {
  }

  lemma DoomedMove(acts: seq<Activity>, i: nat, after: Activity, published: seq<Activity>, s: StageName)
    requires AllDoomed(acts, s) && i < |acts| && Doomed(after, s)
    requires |published| <= 1 && (published != [] ==> Doomed(published[0], s))
    ensures AllDoomed(acts[i := after] + published, s)
  {
    hide Doomed;
  }

  lemma FirstOfStages(followers: seq<StageMessage>)
    requires followers != []
    ensures StagesOf(followers) == [followers[0].stage] + StagesOf(followers[1..])
  {
  }

  lemma {:induction false} RunKeepsDoomed(c: Config, steps: seq<Step>, st: State, k: nat, s: StageName)
    requires Safe(c) && CrashFreeRun(c, steps, st) && k <= |steps| && Exec(c, steps[..k]).Some?
    requires var mid := Exec(c, steps[..k]).value; s in mid.mem.dispatched && AllDoomed(mid.acts, s)
    ensures s in st.mem.dispatched && AllDoomed(st.acts, s)
    ensures st.starts[s] == Exec(c, steps[..k]).value.starts[s]
    decreases |steps|
  {
    if k == |steps| {
      assert steps[..k] == steps;
    } else {
      var front, step := steps[..|steps| - 1], steps[|steps| - 1];
      var before := Exec(c, front).value;
      assert front[..k] == steps[..k];
      RunKeepsDoomed(c, front, before, k, s);
      RunKeepsInv(c, front, before);
      hide Safe, AllDoomed, Apply, Inv;
      InvHasStores(c, before);
      SafeIsValid(c);
      StepKeepsDoomed(c, before, step, s);
    }
  }

  lemma InvHasStores(c: Config, st: State)
    requires Inv(c, st)
    ensures StoresOk(st)
  {
  }

  lemma SafeIsValid(c: Config)
    requires Safe(c)
    ensures ValidConfig(c)
  {
  }

  /** After a permanent failure the stage's handler is never called again. */
  lemma PermanentEnds(c: Config, steps: seq<Step>, st: State, k: nat)
    requires Safe(c) && CrashFreeRun(c, steps, st)
    requires k < |steps| && steps[k].HandlerRaises? && steps[k].failure == Permanent
    ensures Exec(c, steps[..k]).Some?
    ensures var before := Exec(c, steps[..k]).value;
      && steps[k].i < |before.acts|
      && st.starts[before.acts[steps[k].i].raw.stage] == before.starts[before.acts[steps[k].i].raw.stage]
  {
    PrefixRuns(c, steps, st, k);
    PrefixRuns(c, steps, st, k + 1);
    var front := steps[..k];
    assert steps[..k + 1][..k] == front;
    var before := Exec(c, front).value;
    assert CrashFreeRun(c, front, before);
    RunKeepsInv(c, front, before);
    PermanentDooms(c, before, steps[k]);
    RunKeepsDoomed(c, steps, st, k + 1, before.acts[steps[k].i].raw.stage);
  }

  lemma {:induction false} PrefixRuns(c: Config, steps: seq<Step>, st: State, k: nat)
    requires Reaches(c, steps, st) && k <= |steps|
    ensures Exec(c, steps[..k]).Some?
    decreases |steps|
  {
    if k == |steps| {
      assert steps[..k] == steps;
    } else {
      var front := steps[..|steps| - 1];
      assert front[..k] == steps[..k];
      PrefixRuns(c, front, Exec(c, front).value, k);
    }
  }
}
