/** What crash-free runs guarantee: no stage is handed off twice, none is lost, and
    a run never stops silently. */
module Delivery {
  import opened Stages
  import opened Dag
  import opened Messages
  import opened Runner
  import opened Store
  import opened Protocol
  import opened Handoff

  ghost predicate Safe(c: Config) {
    ValidConfig(c) && ForkJoin(c.pipeline, c.family)
  }

  lemma InitInv(c: Config)
    requires ValidConfig(c)
    ensures Inv(c, Init(c))
  {
    var st := Init(c);
    var path := StagesFor(c.pipeline, c.family);
    assert Rooted(c.pipeline, c.family);
    AttemptsOnPath(c, ENTRY_STAGE);
    forall s ensures 0 <= MaxAttempts(c, s) {
      if s in Names(path) {
        AttemptsOnPath(c, s);
      }
    }
    forall s | Runnable(c.pipeline, c.family, {}, s) ensures HeldBySome(st.acts, s) {
      assert s in Holds(st.acts[0]);
    }
    assert PgCompleted(map[]) == {};
  }

  lemma StepKeepsInv(c: Config, st: State, step: Step)
    requires Safe(c) && Inv(c, st) && CrashFree(step) && Enabled(c, st, step)
    ensures Inv(c, Apply(c, st, step))
  {
    match step
    case Begin(i) => BeginKeepsInv(c, st, i);
    case Complete(i) => CompleteKeepsInv(c, st, i);
    case Reserve(i) => ReserveKeepsInv(c, st, i);
    case PublishNext(i) => PublishKeepsInv(c, st, i);
    case RecordFailure(i) => RecordKeepsInv(c, st, i);
    case Ack(i) => AckKeepsInv(c, st, i);
    case _ => PlainStepKeepsInv(c, st, step);
  }

  lemma {:induction false} RunKeepsInv(c: Config, steps: seq<Step>, st: State)
    requires Safe(c) && CrashFreeRun(c, steps, st)
    ensures Inv(c, st)
  {
    if steps == [] {
      InitInv(c);
    } else {
      var front, step := steps[..|steps| - 1], steps[|steps| - 1];
      var before := Exec(c, front).value;
      RunKeepsInv(c, front, before);
      StepKeepsInv(c, before, step);
    }
  }

  // ---------------------------------------------------------------- hand-off

  /** Over every crash-free interleaving each stage on the path gets at most one
      first-attempt message, and every stage that was reserved gets exactly one
      once its publisher is done. */
  lemma HandedOffAtMostOnce(c: Config, steps: seq<Step>, st: State)
    requires Safe(c) && CrashFreeRun(c, steps, st)
    ensures forall i, j :: 0 <= i < j < |st.sent| ==> st.sent[i] != st.sent[j]
    ensures forall s :: s in st.sent ==> s in PathNames(c.pipeline, c.family)
    ensures forall s :: s in st.mem.dispatched ==> s in st.sent || InPublication(st.acts, s)
  {
    RunKeepsInv(c, steps, st);
    assert Rooted(c.pipeline, c.family);
  }

  /** Every stage that can run now is in exactly one hand: one message at rest, one
      delivery, or one publisher's list. */
  lemma ExactlyOneToken(c: Config, steps: seq<Step>, st: State, s: StageName)
    requires Safe(c) && CrashFreeRun(c, steps, st)
    ensures Runnable(c.pipeline, c.family, st.succeeded, s)
            <==> exists i :: 0 <= i < |st.acts| && s in Holds(st.acts[i])
    ensures forall i, j :: 0 <= i < j < |st.acts| && s in Holds(st.acts[i]) ==> s !in Holds(st.acts[j])
    ensures s in st.mem.dispatched && s !in st.mem.completed ==> Runnable(c.pipeline, c.family, st.succeeded, s)
  {
    RunKeepsInv(c, steps, st);
    forall i | 0 <= i < |st.acts| && s in Holds(st.acts[i])
      ensures Runnable(c.pipeline, c.family, st.succeeded, s)
    {
      HeldIsLive(c, st.mem.completed, st.mem.dispatched, st.starts, st.acts[i], s);
    }
    forall i, j | 0 <= i < j < |st.acts| && s in Holds(st.acts[i]) ensures s !in Holds(st.acts[j]) {
      assert Holds(st.acts[i]) !! Holds(st.acts[j]);
    }
  }

  /** A message at rest always lies in a queue of its own stage, in a retry tier, or in
      its own stage's dead letters, and carries an attempt its stage allows. */
  lemma MessagesStayHome(c: Config, steps: seq<Step>, st: State, i: nat)
    requires Safe(c) && CrashFreeRun(c, steps, st) && i < |st.acts| && st.acts[i].Queued?
    ensures var m := st.acts[i].raw;
      && (st.acts[i].queue == Work(m.stage) || st.acts[i].queue == Dlq(m.stage) || st.acts[i].queue.Tier?)
      && 1 <= m.attempt <= MaxAttempts(c, m.stage)
      && m.SameRun(c.origin)
      && m.stage !in st.succeeded
  {
    RunKeepsInv(c, steps, st);
    assert ActOk(c, st.mem.completed, st.mem.dispatched, st.starts, st.acts[i]);
  }

  // ---------------------------------------------------------------- no silent stall

  /** Nothing can happen any more without outside help. */
  ghost predicate Quiescent(c: Config, st: State) {
    forall step :: CrashFree(step) ==> !Enabled(c, st, step)
  }

  ghost predicate HasDeadLetter(st: State) {
    exists i :: 0 <= i < |st.acts| && st.acts[i].Queued? && st.acts[i].queue.Dlq?
  }

  /** The step that takes an activity onwards. */
  function Onwards(a: Activity, i: nat): Step {
    match a
    case Queued(Tier(_), _) => Expire(i)
    case Queued(_, _) => Deliver(i)
    case Delivered(_) => Begin(i)
    case Begun(_) => HandlerReturns(i)
    case Handled(_, _) => Complete(i)
    case Completed(_, _) => Reserve(i)
    case Publishing(_, _) => PublishNext(i)
    case Failing(_, _, _) => RecordFailure(i)
    case Recorded(_, _) => Reroute(i)
    case Finished(_) => Ack(i)
  }

  /** Whatever is not a dead letter can move on. */
  lemma OnlyDeadLettersRest(c: Config, st: State, i: nat)
    requires i < |st.acts|
    requires ActOk(c, st.mem.completed, st.mem.dispatched, st.starts, st.acts[i])
    ensures (st.acts[i].Queued? && st.acts[i].queue.Dlq?)
            || (CrashFree(Onwards(st.acts[i], i)) && Enabled(c, st, Onwards(st.acts[i], i)))
  {
  }

  /** With nothing left in any hand the run is complete. */
  lemma EmptyHandsMeanComplete(c: Config, done: set<StageName>)
    requires ValidConfig(c) && Covered(c, done, [])
    ensures DocumentReady(c.pipeline, c.family, done)
  {
    var ready := Ready(c.pipeline, c.family, done, {});
    assert ready != [] ==> ready[0].name in Names(ready);
    ReadyEmptyIffComplete(c.pipeline, c.family, done);
    ReadyNames(c.pipeline, c.family, done, {});
    forall s ensures !Runnable(c.pipeline, c.family, done, s) {
      assert !HeldBySome([], s);
    }
  }

  /** A crash-free run that comes to rest has finished the document, unless a message
      waits in a dead-letter queue for a human; one or the other, never both. */
  lemma NoSilentStall(c: Config, steps: seq<Step>, st: State)
    requires Safe(c) && CrashFreeRun(c, steps, st) && Quiescent(c, st)
    ensures DocumentReady(c.pipeline, c.family, st.succeeded) <==> !HasDeadLetter(st)
  {
    RunKeepsInv(c, steps, st);
    var done := st.succeeded;
    if st.acts == [] {
      EmptyHandsMeanComplete(c, done);
    } else {
      assert ActOk(c, done, st.mem.dispatched, st.starts, st.acts[0]);
      OnlyDeadLettersRest(c, st, 0);
      assert HasDeadLetter(st);
      assert st.acts[0].raw.stage in PathNames(c.pipeline, c.family) && st.acts[0].raw.stage !in done;
    }
  }

  // ---------------------------------------------------------------- stores

  /** A crash-free run only ever asks of the store what the Postgres one can follow, so
      both stores report the same progress throughout, whichever the workers read. */
  lemma WorkersAreDisciplined(c: Config, steps: seq<Step>, st: State)
    requires Safe(c) && CrashFreeRun(c, steps, st)
    ensures Disciplined(st.ops) && AgreeThroughout(st.ops)
    ensures PgSnapshot(st.rows) == MemSnapshot(st.mem) == TakeSnapshot(c, st)
  {
    RunKeepsInv(c, steps, st);
    StoresAgreeIff(st.ops);
  }

  // ---------------------------------------------------------------- retries

  function TotalAttempts(stages: seq<Stage>): int {
    if stages == [] then 0 else stages[0].maxAttempts + TotalAttempts(stages[1..])
  }

  ghost function AttemptsOf(stages: seq<Stage>, s: StageName): int {
    if s in Names(stages) then Lookup(stages, s).maxAttempts else 0
  }

  lemma {:induction false} CallsBounded(stages: seq<Stage>, calls: multiset<StageName>)
    requires DistinctNames(stages)
    requires forall s :: calls[s] <= AttemptsOf(stages, s)
    ensures |calls| <= TotalAttempts(stages)
  {
    if stages == [] {
      assert forall s :: s !in calls;
      assert calls == multiset{};
    } else {
      var n := stages[0].name;
      var rest := calls[n := 0];
      assert calls == rest + multiset{}[n := calls[n]];
      assert |multiset{}[n := calls[n]]| == calls[n];
      assert stages == [stages[0]] + stages[1..];
      forall s ensures rest[s] <= AttemptsOf(stages[1..], s) {
        assert calls[s] <= AttemptsOf(stages, s);
        assert n !in Names(stages[1..]);
      }
      CallsBounded(stages[1..], rest);
      assert calls[n] <= AttemptsOf(stages, n);
    }
  }

  /** Retries are bounded: a crash-free run calls handlers at most as often as the
      stages on its path allow between them. */
  lemma HandlerCallsBounded(c: Config, steps: seq<Step>, st: State)
    requires Safe(c) && CrashFreeRun(c, steps, st)
    ensures |st.starts| <= TotalAttempts(StagesFor(c.pipeline, c.family))
  {
    RunKeepsInv(c, steps, st);
    PathDistinct(c.pipeline, c.family);
    CallsBounded(StagesFor(c.pipeline, c.family), st.starts);
  }

  /** What that comes to on the shipped pipeline. */
  function ShippedCallLimit(family: Family): int {
    match family
    case Pdf => 29
    case Image => 29
    case Office => 31
    case Web => 31
    case Flow => 19
  }

  ghost function AttemptsFor(stages: seq<Stage>, family: Family): int {
    if stages == [] then 0
    else (if family in stages[0].families then stages[0].maxAttempts else 0) + AttemptsFor(stages[1..], family)
  }

  lemma {:induction false} AttemptsOnPathTotal(stages: seq<Stage>, family: Family)
    ensures TotalAttempts(StagesFor(stages, family)) == AttemptsFor(stages, family)
  {
    if stages != [] {
      AttemptsOnPathTotal(stages[1..], family);
      var rest := StagesFor(stages[1..], family);
      assert ([stages[0]] + rest)[1..] == rest;
      assert [] + rest == rest;
    }
  }

  lemma {:induction false} LastShippedAttempts(family: Family)
    ensures AttemptsFor(PIPELINE[5..], family) == if family == Flow then 13 else 20
  {
    assert AttemptsFor(PIPELINE[10..], family) == 0;
    assert AttemptsFor(PIPELINE[9..], family) == 5;
    assert AttemptsFor(PIPELINE[8..], family) == 10;
    assert AttemptsFor(PIPELINE[7..], family) == 13;
    assert AttemptsFor(PIPELINE[6..], family) == if family == Flow then 13 else 17;
  }

  lemma {:induction false} ShippedAttempts(family: Family)
    ensures AttemptsFor(PIPELINE, family) == ShippedCallLimit(family)
  {
    LastShippedAttempts(family);
    assert AttemptsFor(PIPELINE[4..], family) == if family == Flow then 13 else 23;
    assert AttemptsFor(PIPELINE[3..], family) == if family == Flow then 16 else 23;
    assert AttemptsFor(PIPELINE[2..], family) == if family == Flow then 16 else 26;
    assert PIPELINE == PIPELINE[0..];
  }

  /** On the shipped pipeline, over either store: at most 29 handler calls for a PDF or
      an image, 31 for an Office or web document, 19 for flow text. */
  lemma ShippedHandlerCalls(c: Config, steps: seq<Step>, st: State)
    requires c.pipeline == PIPELINE && c.origin.stage == ENTRY_STAGE && c.origin.attempt == 1
    requires CrashFreeRun(c, steps, st)
    ensures |st.starts| <= ShippedCallLimit(c.family)
  {
    PipelineWellFormed(c.family);
    HandlerCallsBounded(c, steps, st);
    AttemptsOnPathTotal(PIPELINE, c.family);
    ShippedAttempts(c.family);
  }
}
