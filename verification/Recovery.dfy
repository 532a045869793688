/** Runs in which workers crash, deliveries come back and operators resume: what
    still holds, and what resuming does. */
module Recovery {
  import opened Wrappers
  import opened Stages
  import opened Dag
  import opened Messages
  import opened Runner
  import opened Store
  import opened Protocol

  /** A message whose stage may start: everything it waits for succeeded once. */
  ghost predicate Trusted(c: Config, succeeded: set<StageName>, m: StageMessage) {
    && m.SameRun(c.origin)
    && m.stage in PathNames(c.pipeline, c.family)
    && Deps(c.pipeline, c.family, m.stage) <= succeeded
    && (m.stage != ENTRY_STAGE ==> m.family == c.family)
  }

  ghost predicate AllTrusted(c: Config, succeeded: set<StageName>, messages: seq<StageMessage>) {
    forall k :: 0 <= k < |messages| ==> Trusted(c, succeeded, messages[k])
  }

  ghost predicate ActTrusted(c: Config, succeeded: set<StageName>, a: Activity) {
    && Trusted(c, succeeded, a.raw)
    && match a
       case Handled(m, adopted) => adopted == Adopt(c, m)
       case Completed(_, followers) => AllTrusted(c, succeeded, followers)
       case Publishing(_, followers) => AllTrusted(c, succeeded, followers)
       case _ => true
  }

  /** Every stage with a row belongs to the path and was queued in order. */
  ghost predicate InOrder(c: Config, succeeded: set<StageName>, names: set<StageName>) {
    && names <= PathNames(c.pipeline, c.family)
    && forall s :: s in names ==> Deps(c.pipeline, c.family, s) <= succeeded
  }

  ghost predicate CrashInv(c: Config, st: State) {
    && st.rows == PgRunOf(st.ops)
    && st.mem == MemRunOf(st.ops)
    && st.mem.completed == st.succeeded
    && st.succeeded <= st.mem.dispatched
    && PgCompleted(st.rows) <= st.succeeded
    && InOrder(c, st.succeeded, st.mem.dispatched)
    && InOrder(c, st.succeeded, st.rows.Keys)
    && forall i :: 0 <= i < |st.acts| ==> ActTrusted(c, st.succeeded, st.acts[i])
  }

  lemma CrashInit(c: Config)
    requires ValidConfig(c)
    ensures CrashInv(c, Init(c))
  {
    assert Rooted(c.pipeline, c.family);
  }

  /** A committed operation keeps everything trusted, if its stages are in order. */
  lemma CommitTrusted(c: Config, st: State, op: StoreOp)
    requires CrashInv(c, st)
    requires match op case MarkDispatched(stages) => InOrder(c, st.succeeded, Members(stages))
                      case _ => InOrder(c, st.succeeded, {op.stage})
    ensures CrashInv(c, Commit(st, op))
  {
    var st' := Commit(st, op);
    assert st'.ops[..|st'.ops| - 1] == st.ops;
    if op.MarkDispatched? {
      InsertAllKeys(st.rows, op.stages);
    }
    forall i | 0 <= i < |st.acts| ensures ActTrusted(c, st'.succeeded, st.acts[i]) {
      assert ActTrusted(c, st.succeeded, st.acts[i]);
    }
  }

  lemma MoveTrusted(c: Config, st: State, i: nat, after: Activity, published: seq<Activity>)
    requires CrashInv(c, st) && i < |st.acts|
    requires ActTrusted(c, st.succeeded, after)
    requires forall k :: 0 <= k < |published| ==> ActTrusted(c, st.succeeded, published[k])
    ensures CrashInv(c, Move(st, i, after, published))
  {
  }

  /** Whatever a snapshot reports as ready, for the family detection found, may start. */
  lemma FollowersTrusted(c: Config, succeeded: set<StageName>, m: StageMessage,
                         completed: set<StageName>, dispatched: set<StageName>)
    requires ValidConfig(c) && completed <= succeeded
    requires m.SameRun(c.origin) && m.family == c.family
    ensures AllTrusted(c, succeeded, NextMessages(c.pipeline, m, completed, dispatched))
  {
    var ready := Ready(c.pipeline, c.family, completed, dispatched);
    ReadyNames(c.pipeline, c.family, completed, dispatched);
    HandOffAt(m, ready);
    forall k | 0 <= k < |ready| ensures Trusted(c, succeeded, m.ForStage(ready[k].name)) {
      assert ready[k] in ready;
      assert ready[k].name in Names(ready);
    }
  }

  lemma SnapshotInOrder(c: Config, st: State)
    requires CrashInv(c, st)
    ensures TakeSnapshot(c, st).completed <= st.succeeded
    ensures InOrder(c, st.succeeded, TakeSnapshot(c, st).dispatched)
  {
  }

  /** Until detection has succeeded nothing else can have been queued. */
  lemma OnlyEntryBeforeDetection(c: Config, succeeded: set<StageName>, known: set<StageName>, s: StageName)
    requires ValidConfig(c) && ENTRY_STAGE !in succeeded
    requires InOrder(c, succeeded, succeeded)
    requires InOrder(c, succeeded, known) && s in known
    ensures s == ENTRY_STAGE
  {
    if s != ENTRY_STAGE {
      EntryInClosed(c.pipeline, c.family, succeeded, s);
    }
  }

  lemma ResumeTrusted(c: Config, st: State, family: Family, s: StageName)
    requires ValidConfig(c) && CrashInv(c, st)
    requires family == c.family || ENTRY_STAGE !in st.succeeded
    requires var snapshot := TakeSnapshot(c, st);
      s in ResumePlan(c.pipeline, family, snapshot.completed, snapshot.dispatched)
    ensures Trusted(c, st.succeeded, c.origin.WithFamily(family).ForStage(s))
  {
    var snapshot := TakeSnapshot(c, st);
    SnapshotInOrder(c, st);
    ResumeMembers(c.pipeline, family, snapshot.completed, snapshot.dispatched, s);
    assert InOrder(c, st.succeeded, st.succeeded);
    if family != c.family {
      if s in snapshot.dispatched {
        OnlyEntryBeforeDetection(c, st.succeeded, snapshot.dispatched, s);
      } else {
        assert Rooted(c.pipeline, family) && Rooted(c.pipeline, c.family);
        forall d ensures d !in st.succeeded {
          if d in st.succeeded {
            OnlyEntryBeforeDetection(c, st.succeeded, st.succeeded, d);
          }
        }
      }
    }
  }

  lemma {:induction false} ResumedTrusted(c: Config, st: State, family: Family, plan: seq<StageName>)
    requires forall s :: s in plan ==> Trusted(c, st.succeeded, c.origin.WithFamily(family).ForStage(s))
    ensures forall k :: 0 <= k < |Resumed(c, family, plan)| ==>
              ActTrusted(c, st.succeeded, Resumed(c, family, plan)[k])
  {
    if plan != [] {
      assert plan[0] in plan;
      ResumedTrusted(c, st, family, plan[1..]);
    }
  }

  /** Beginning and failing a stage: the stage is one its message may start. */
  lemma BeginOrFailTrusted(c: Config, st: State, step: Step)
    requires ValidConfig(c) && CrashInv(c, st) && Enabled(c, st, step)
    requires step.Begin? || step.RecordFailure?
    ensures CrashInv(c, Apply(c, st, step))
  {
    var a := st.acts[step.i];
    assert ActTrusted(c, st.succeeded, a);
    var op := if step.Begin? then BeginStage(a.raw.stage, a.raw.attempt)
              else FailStage(a.raw.stage, a.error, a.action.DeadLetter?);
    CommitTrusted(c, st, op);
    MoveTrusted(c, Commit(st, op), step.i, if step.Begin? then Begun(a.raw) else Recorded(a.raw, a.action), []);
  }

  lemma ReserveTrusted(c: Config, st: State, i: nat)
    requires ValidConfig(c) && CrashInv(c, st) && Enabled(c, st, Reserve(i))
    ensures CrashInv(c, Apply(c, st, Reserve(i)))
  {
    var a := st.acts[i];
    var op := MarkDispatched(StagesOf(a.followers));
    assert ActTrusted(c, st.succeeded, a);
    forall s | s in Members(StagesOf(a.followers))
      ensures s in PathNames(c.pipeline, c.family) && Deps(c.pipeline, c.family, s) <= st.succeeded
    {
      var k :| 0 <= k < |a.followers| && StagesOf(a.followers)[k] == s;
      assert Trusted(c, st.succeeded, a.followers[k]);
    }
    CommitTrusted(c, st, op);
    MoveTrusted(c, Commit(st, op), i, Publishing(a.raw, a.followers), []);
  }

  lemma CompleteTrusted(c: Config, st: State, i: nat)
    requires ValidConfig(c) && CrashInv(c, st) && Enabled(c, st, Complete(i))
    ensures CrashInv(c, Apply(c, st, Complete(i)))
  {
    var a := st.acts[i];
    var st' := Commit(st, CompleteStage(a.raw.stage));
    assert ActTrusted(c, st.succeeded, a);
    assert CrashInv(c, st') by {
      CommitTrusted(c, st, CompleteStage(a.raw.stage));
    }
    var snapshot := TakeSnapshot(c, st');
    var followers := NextMessages(c.pipeline, a.adopted, snapshot.completed, snapshot.dispatched);
    assert AllTrusted(c, st'.succeeded, followers) by {
      SnapshotInOrder(c, st');
      FollowersTrusted(c, st'.succeeded, a.adopted, snapshot.completed, snapshot.dispatched);
    }
    assert ActTrusted(c, st'.succeeded, AfterComplete(a.raw, followers));
    MoveTrusted(c, st', i, AfterComplete(a.raw, followers), []);
  }

  lemma PublishTrusted(c: Config, st: State, i: nat)
    requires ValidConfig(c) && CrashInv(c, st) && Enabled(c, st, PublishNext(i))
    ensures CrashInv(c, Apply(c, st, PublishNext(i)))
  {
    var a := st.acts[i];
    assert ActTrusted(c, st.succeeded, a);
    var next, rest := a.followers[0], a.followers[1..];
    assert AllTrusted(c, st.succeeded, rest);
    assert Trusted(c, st.succeeded, next);
    MoveTrusted(c, st, i, AfterPublish(a.raw, rest), [Queued(Work(next.stage), next)]);
  }

  lemma ResumeKeepsTrust(c: Config, st: State, family: Family)
    requires ValidConfig(c) && CrashInv(c, st) && Enabled(c, st, Resume(family))
    ensures CrashInv(c, Apply(c, st, Resume(family)))
  {
    var snapshot := TakeSnapshot(c, st);
    var plan := ResumePlan(c.pipeline, family, snapshot.completed, snapshot.dispatched);
    forall s | s in plan ensures Trusted(c, st.succeeded, c.origin.WithFamily(family).ForStage(s)) {
      ResumeTrusted(c, st, family, s);
    }
    ResumedTrusted(c, st, family, plan);
  }

  predicate OnlyMoves(step: Step) {
    || step.Deliver? || step.NoHandler? || step.HandlerReturns? || step.HandlerRaises?
    || step.Reroute? || step.Expire? || step.Crash? || step.Reject? || step.Redeliver?
  }

  /** Moving a message about, even back to its queue, changes nothing it relies on. */
  lemma MovesAreTrusted(c: Config, st: State, step: Step) returns (after: Activity, published: seq<Activity>)
    requires OnlyMoves(step) && Enabled(c, st, step) && ActTrusted(c, st.succeeded, st.acts[step.i])
    ensures Apply(c, st, step) == Move(st, step.i, after, published)
    ensures ActTrusted(c, st.succeeded, after)
    ensures forall k :: 0 <= k < |published| ==> ActTrusted(c, st.succeeded, published[k])
  {
    var st' := Apply(c, st, step);
    after := st'.acts[step.i];
    published := st'.acts[|st.acts|..];
  }

  lemma CrashStepKeepsInv(c: Config, st: State, step: Step)
    requires ValidConfig(c) && CrashInv(c, st) && Enabled(c, st, step)
    ensures CrashInv(c, Apply(c, st, step))
  {
    hide PlanFailure, NextMessages, ResumePlan, Resumed, TakeSnapshot, PathNames, PgCompleted, Deps, Commit;
    match step
    case Begin(_) => BeginOrFailTrusted(c, st, step);
    case RecordFailure(_) => BeginOrFailTrusted(c, st, step);
    case Complete(i) => CompleteTrusted(c, st, i);
    case Reserve(i) => ReserveTrusted(c, st, i);
    case PublishNext(i) => PublishTrusted(c, st, i);
    case Resume(family) => ResumeKeepsTrust(c, st, family);
    case Ack(i) =>
    case _ =>
      var after, published := MovesAreTrusted(c, st, step);
      MoveTrusted(c, st, step.i, after, published);
  }

  lemma {:induction false} AnyRunKeepsCrashInv(c: Config, steps: seq<Step>, st: State)
    requires ValidConfig(c) && Reaches(c, steps, st)
    ensures CrashInv(c, st)
  {
    if steps == [] {
      CrashInit(c);
    } else {
      var front, step := steps[..|steps| - 1], steps[|steps| - 1];
      var before := Exec(c, front).value;
      AnyRunKeepsCrashInv(c, front, before);
      CrashStepKeepsInv(c, before, step);
    }
  }

  // ---------------------------------------------------------------- precedence

  /** Whatever crashes, comes back or is resumed: a handler starts only when every stage
      it waits for, on the path of the family that detection found, has succeeded at
      least once in this run. */
  lemma PrecedenceSafety(c: Config, steps: seq<Step>, st: State, i: nat, dep: StageName)
    requires ValidConfig(c) && Reaches(c, steps, st) && Enabled(c, st, Begin(i))
    requires dep in Deps(c.pipeline, c.family, st.acts[i].raw.stage)
    ensures CompleteStage(dep) in st.ops
    ensures st.acts[i].raw.family == c.family
  {
    AnyRunKeepsCrashInv(c, steps, st);
    assert ActTrusted(c, st.succeeded, st.acts[i]);
    MemTracksHistory(st.ops);
    assert Rooted(c.pipeline, c.family);
  }

  // ---------------------------------------------------------------- resume

  /** Reading the reference store, resuming queues exactly the stages that can run now,
      each once, in every state that crashes and redeliveries can lead to. */
  lemma ResumeExact(c: Config, steps: seq<Step>, st: State)
    requires ValidConfig(c) && c.store.InMemory? && Reaches(c, steps, st)
    ensures var snapshot := TakeSnapshot(c, st);
      var plan := ResumePlan(c.pipeline, c.family, snapshot.completed, snapshot.dispatched);
      && (forall n :: n in plan <==> Runnable(c.pipeline, c.family, st.succeeded, n))
      && (forall i, j :: 0 <= i < j < |plan| ==> plan[i] != plan[j])
      && (plan == [] <==> DocumentReady(c.pipeline, c.family, st.succeeded))
  {
    AnyRunKeepsCrashInv(c, steps, st);
    ResumeExactIff(c.pipeline, c.family, st.mem.completed, st.mem.dispatched);
    ResumeDistinct(c.pipeline, c.family, st.mem.completed, st.mem.dispatched);
    ResumeEmptyIffComplete(c.pipeline, c.family, st.mem.completed, st.mem.dispatched);
  }

  /** Over either store, in every state of every run: the plan is exactly what can run, as the
      store sees it, if and only if no queued, unfinished stage has lost a dependency there. */
  lemma ResumeExactInRunIff(c: Config, steps: seq<Step>, st: State)
    requires ValidConfig(c) && Reaches(c, steps, st)
    ensures var snapshot := TakeSnapshot(c, st);
      var plan := ResumePlan(c.pipeline, c.family, snapshot.completed, snapshot.dispatched);
      (forall n :: n in plan <==> Runnable(c.pipeline, c.family, snapshot.completed, n))
      <==> forall n :: n in snapshot.dispatched - snapshot.completed ==>
           Deps(c.pipeline, c.family, n) <= snapshot.completed
  {
    hide Deps, Runnable, ResumePlan;
    AnyRunKeepsCrashInv(c, steps, st);
    var snapshot := TakeSnapshot(c, st);
    ResumeExactIff(c.pipeline, c.family, snapshot.completed, snapshot.dispatched);
  }

  /** In particular over Postgres, as long as the run has been one it can follow. */
  lemma ResumeExactWhenDisciplined(c: Config, steps: seq<Step>, st: State)
    requires ValidConfig(c) && Reaches(c, steps, st) && Disciplined(st.ops)
    ensures var snapshot := TakeSnapshot(c, st);
      var plan := ResumePlan(c.pipeline, c.family, snapshot.completed, snapshot.dispatched);
      && (forall n :: n in plan <==> Runnable(c.pipeline, c.family, st.succeeded, n))
      && (plan == [] <==> DocumentReady(c.pipeline, c.family, st.succeeded))
  {
    hide Runnable, ResumePlan, DocumentReady;
    AnyRunKeepsCrashInv(c, steps, st);
    StoresAgreeIff(st.ops);
    var completed, dispatched := st.mem.completed, st.mem.dispatched;
    assert TakeSnapshot(c, st) == Snapshot(completed, dispatched);
    ResumeExactIff(c.pipeline, c.family, completed, dispatched);
    ResumeReady(c, completed, dispatched);
  }

  lemma ResumeReady(c: Config, completed: set<StageName>, dispatched: set<StageName>)
    requires ValidConfig(c) && dispatched <= PathNames(c.pipeline, c.family)
    ensures ResumePlan(c.pipeline, c.family, completed, dispatched) == []
      <==> DocumentReady(c.pipeline, c.family, completed)
  {
    ResumeEmptyIffComplete(c.pipeline, c.family, completed, dispatched);
  }

  lemma Extend(c: Config, steps: seq<Step>, st: State, step: Step)
    requires Reaches(c, steps, st) && Enabled(c, st, step)
    ensures Reaches(c, steps + [step], Apply(c, st, step))
  {
    assert (steps + [step])[..|steps + [step]| - 1] == steps;
  }

  /** One round of recovery: everything the plan names gets done, nothing is undone. */
  ghost predicate Round(pipeline: seq<Stage>, family: Family, before: Snapshot, after: Snapshot) {
    && before.completed <= after.completed
    && forall n :: n in ResumePlan(pipeline, family, before.completed, before.dispatched) ==> n in after.completed
  }

  /** A runnable stage is always in the plan, whatever the store forgot. */
  lemma PlanCoversRunnable(pipeline: seq<Stage>, family: Family, snapshot: Snapshot, n: StageName)
    requires DistinctNames(pipeline) && Runnable(pipeline, family, snapshot.completed, n)
    ensures n in ResumePlan(pipeline, family, snapshot.completed, snapshot.dispatched)
  {
    ResumeMembers(pipeline, family, snapshot.completed, snapshot.dispatched, n);
  }

  lemma {:induction false} NextOnPath(pipeline: seq<Stage>, family: Family, completed: set<StageName>, j: nat)
    requires DistinctNames(pipeline) && Topological(pipeline)
    requires j < |StagesFor(pipeline, family)|
    requires Names(StagesFor(pipeline, family)[..j]) <= completed
    ensures var s := StagesFor(pipeline, family)[j].name;
      s in completed || Runnable(pipeline, family, completed, s)
  {
    var path := StagesFor(pipeline, family);
    DepsPrecede(pipeline, family, j);
    PathDistinct(pipeline, family);
    LookupUnique(path, path[j]);
  }

  /** As many rounds of resume-and-run as the path has stages finish the document. */
  lemma {:induction false} RoundsFinish(pipeline: seq<Stage>, family: Family, progress: seq<Snapshot>, k: nat)
    requires DistinctNames(pipeline) && Topological(pipeline)
    requires forall r :: 0 < r < |progress| ==> Round(pipeline, family, progress[r - 1], progress[r])
    requires k < |progress| && k <= |StagesFor(pipeline, family)|
    ensures Names(StagesFor(pipeline, family)[..k]) <= progress[k].completed
    ensures k == |StagesFor(pipeline, family)| ==> IsComplete(pipeline, family, progress[k].completed)
  {
    hide StagesFor, DistinctNames, Topological, Round, Names;
    var path := StagesFor(pipeline, family);
    if k == 0 {
      assert Names(path[..0]) == {} by {
        NoNames(path[..0]);
      }
    } else {
      RoundsFinish(pipeline, family, progress, k - 1);
      RoundTakesNext(pipeline, family, progress[k - 1], progress[k], k - 1);
    }
    assert path[..|path|] == path;
  }

  lemma RoundTakesNext(pipeline: seq<Stage>, family: Family, before: Snapshot, after: Snapshot, j: nat)
    requires DistinctNames(pipeline) && Topological(pipeline) && Round(pipeline, family, before, after)
    requires j < |StagesFor(pipeline, family)| && Names(StagesFor(pipeline, family)[..j]) <= before.completed
    ensures Names(StagesFor(pipeline, family)[..j + 1]) <= after.completed
  {
    hide StagesFor, DistinctNames, Topological, Runnable, ResumePlan;
    var path := StagesFor(pipeline, family);
    var s := path[j].name;
    NextOnPath(pipeline, family, before.completed, j);
    if s !in before.completed {
      PlanCoversRunnable(pipeline, family, before, s);
    }
    assert path[..j + 1] == path[..j] + [path[j]];
    NamesOneMore(path[..j], path[j]);
  }

  // ---------------------------------------------------------------- where Postgres differs

  /** Over Postgres resuming is not always exact: when the entry stage's delivery comes
      back after its completion and its handler starts again, its row leaves
      `succeeded`, and the plan then names stages whose dependency is missing. This
      happens on every pipeline with a second stage. */
  lemma PostgresResumeCanOvershoot(c: Config, second: StageName)
    requires ValidConfig(c) && c.store.Postgres?
    requires second in PathNames(c.pipeline, c.family) && second != ENTRY_STAGE
    ensures exists steps, st, n ::
      && Reaches(c, steps, st)
      && n in ResumePlan(c.pipeline, c.family, TakeSnapshot(c, st).completed, TakeSnapshot(c, st).dispatched)
      && !Runnable(c.pipeline, c.family, TakeSnapshot(c, st).completed, n)
  {
    var steps, st, n := RewoundState(c, second);
    ResumeMembers(c.pipeline, c.family, {}, st.rows.Keys, n);
    assert Rooted(c.pipeline, c.family);
  }

  /** The delivery of `detect` has come back and its handler is running again. */
  lemma RewoundState(c: Config, second: StageName) returns (steps: seq<Step>, st: State, n: StageName)
    requires ValidConfig(c) && c.store.Postgres?
    requires second in PathNames(c.pipeline, c.family) && second != ENTRY_STAGE
    ensures Reaches(c, steps, st)
    ensures TakeSnapshot(c, st) == Snapshot({}, st.rows.Keys)
    ensures n in st.rows && n != ENTRY_STAGE && n in PathNames(c.pipeline, c.family)
  {
    var front, before := ReservedState(c, second);
    n := before.acts[0].followers[0].stage;
    var s1 := Apply(c, before, Crash(0));
    Extend(c, front, before, Crash(0));
    var s2 := Apply(c, s1, Deliver(0));
    Extend(c, front + [Crash(0)], s1, Deliver(0));
    st := Apply(c, s2, Begin(0));
    steps := front + [Crash(0)] + [Deliver(0)] + [Begin(0)];
    Extend(c, front + [Crash(0)] + [Deliver(0)], s2, Begin(0));
    assert st.rows[ENTRY_STAGE].status == Running;
    assert st.rows == before.rows[ENTRY_STAGE := st.rows[ENTRY_STAGE]];
    forall s ensures s !in PgCompleted(st.rows) {
      assert s in PgCompleted(before.rows) <==> s == ENTRY_STAGE;
    }
  }

  /** The run up to the completion of `detect`, its handler having returned. */
  lemma DetectedState(c: Config) returns (steps: seq<Step>, st: State)
    requires ValidConfig(c) && c.store.Postgres?
    ensures Reaches(c, steps, st)
    ensures st.acts == [Handled(c.origin, Adopt(c, c.origin))]
    ensures st.rows == map[ENTRY_STAGE := Row(Running, 1, None)]
  {
    var s0 := Init(c);
    assert Reaches(c, [], s0);
    var s1 := Apply(c, s0, Deliver(0));
    Extend(c, [], s0, Deliver(0));
    var s2 := Apply(c, s1, Begin(0));
    Extend(c, [] + [Deliver(0)], s1, Begin(0));
    st := Apply(c, s2, HandlerReturns(0));
    Extend(c, [] + [Deliver(0)] + [Begin(0)], s2, HandlerReturns(0));
    steps := [] + [Deliver(0)] + [Begin(0)] + [HandlerReturns(0)];
  }

  lemma CompletedState(c: Config, second: StageName) returns (steps: seq<Step>, st: State)
    requires ValidConfig(c) && c.store.Postgres?
    requires second in PathNames(c.pipeline, c.family) && second != ENTRY_STAGE
    ensures Reaches(c, steps, st)
    ensures st.rows == map[ENTRY_STAGE := Row(Succeeded, 1, None)]
    ensures |st.acts| == 1 && st.acts[0].Completed? && st.acts[0].followers != []
    ensures st.acts[0].raw == c.origin
    ensures var n := st.acts[0].followers[0].stage;
      n != ENTRY_STAGE && n in PathNames(c.pipeline, c.family)
  {
    var front, before := DetectedState(c);
    var committed := Commit(before, CompleteStage(ENTRY_STAGE));
    assert committed.rows == map[ENTRY_STAGE := Row(Succeeded, 1, None)];
    assert PgSnapshot(committed.rows) == Snapshot({ENTRY_STAGE}, {ENTRY_STAGE});
    FirstFollower(c, second);
    HandOffAt(Adopt(c, c.origin), Ready(c.pipeline, c.family, {ENTRY_STAGE}, {ENTRY_STAGE}));
    st := Apply(c, before, Complete(0));
    steps := front + [Complete(0)];
    Extend(c, front, before, Complete(0));
  }

  /** And up to the first reservation: its followers have rows. */
  lemma ReservedState(c: Config, second: StageName) returns (steps: seq<Step>, st: State)
    requires ValidConfig(c) && c.store.Postgres?
    requires second in PathNames(c.pipeline, c.family) && second != ENTRY_STAGE
    ensures Reaches(c, steps, st)
    ensures |st.acts| == 1 && st.acts[0].Publishing? && st.acts[0].followers != []
    ensures st.acts[0].raw == c.origin
    ensures PgCompleted(st.rows) == {ENTRY_STAGE}
    ensures var n := st.acts[0].followers[0].stage;
      n in st.rows && n != ENTRY_STAGE && n in PathNames(c.pipeline, c.family)
  {
    hide NextMessages, MemApply, Deps, PlanFailure, TakeSnapshot, ResumePlan, Resumed, Reaches, PathNames, Adopt;
    var front, before := CompletedState(c, second);
    var followers := before.acts[0].followers;
    st := Apply(c, before, Reserve(0));
    steps := front + [Reserve(0)];
    Extend(c, front, before, Reserve(0));
    ReservedRows(before.rows, StagesOf(followers));
    hide InsertAll;
    assert StagesOf(followers)[0] in Members(StagesOf(followers));
  }

  lemma FirstFollower(c: Config, second: StageName)
    requires ValidConfig(c)
    requires second in PathNames(c.pipeline, c.family) && second != ENTRY_STAGE
    ensures var ready := Ready(c.pipeline, c.family, {ENTRY_STAGE}, {ENTRY_STAGE});
      && ready != []
      && forall k :: 0 <= k < |ready| ==>
           ready[k].name != ENTRY_STAGE && ready[k].name in PathNames(c.pipeline, c.family)
  {
    ReadyEmptyIffComplete(c.pipeline, c.family, {ENTRY_STAGE});
    ReadyNames(c.pipeline, c.family, {ENTRY_STAGE}, {});
    ReadyNames(c.pipeline, c.family, {ENTRY_STAGE}, {ENTRY_STAGE});
    var ready := Ready(c.pipeline, c.family, {ENTRY_STAGE}, {ENTRY_STAGE});
    var all := Ready(c.pipeline, c.family, {ENTRY_STAGE}, {});
    assert all[0].name in Names(all);
    assert all[0].name in Names(ready);
    forall k | 0 <= k < |ready|
      ensures ready[k].name != ENTRY_STAGE && ready[k].name in PathNames(c.pipeline, c.family)
    {
      assert ready[k] in ready;
      assert ready[k].name in Names(ready);
    }
  }
}
