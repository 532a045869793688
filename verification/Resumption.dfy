/** No failure is final: from every state that crashes, rejections, redeliveries and resumes
    can lead to, resuming can finish the document, over either store. */
module Resumption {
  import opened Stages
  import opened Messages
  import opened Runner
  import opened Store
  import opened Protocol
  import opened Recovery

  /** How often an operator steps in. */
  function Resumes(steps: seq<Step>): nat {
    if steps == [] then 0
    else Resumes(steps[..|steps| - 1]) + if steps[|steps| - 1].Resume? then 1 else 0
  }

  /** `after` goes on from `before` without any further mishap, resuming `n` times. */
  ghost predicate GoesOn(before: seq<Step>, after: seq<Step>, n: nat) {
    && before <= after
    && (forall k :: |before| <= k < |after| ==> CrashFree(after[k]) || after[k].Resume?)
    && Resumes(after) == Resumes(before) + n
  }

  lemma StepOn(c: Config, first: seq<Step>, steps: seq<Step>, n: nat, st: State, step: Step)
    returns (steps': seq<Step>, st': State)
    requires GoesOn(first, steps, n) && Reaches(c, steps, st) && Enabled(c, st, step)
    requires CrashFree(step) || step.Resume?
    ensures GoesOn(first, steps', n + if step.Resume? then 1 else 0)
    ensures Reaches(c, steps', st') && st' == Apply(c, st, step)
  {
    steps', st' := steps + [step], Apply(c, st, step);
    Extend(c, steps, st, step);
    assert steps'[..|steps'| - 1] == steps;
  }

  /** A message for stage `s` waits at place `k`. */
  predicate Queues(acts: seq<Activity>, k: nat, s: StageName) {
    k < |acts| && acts[k].Queued? && acts[k].queue.Work? && acts[k].raw.stage == s
  }

  lemma CompletedAfterBegin(c: Config, st: State, s: StageName, attempt: int)
    ensures var st' := Commit(Commit(st, BeginStage(s, attempt)), CompleteStage(s));
      TakeSnapshot(c, st').completed == TakeSnapshot(c, st).completed + {s}
  {
    var rows := PgApply(PgApply(st.rows, BeginStage(s, attempt)), CompleteStage(s));
    assert PgCompleted(rows) == PgCompleted(st.rows) + {s};
  }

  /** Taking a message, calling its handler and recording its completion, which succeeds even
      if the stage had completed before. */
  lemma FinishMessage(c: Config, first: seq<Step>, steps: seq<Step>, n: nat, st: State, k: nat, s: StageName)
    returns (steps': seq<Step>, st': State)
    requires GoesOn(first, steps, n) && Reaches(c, steps, st) && Queues(st.acts, k, s)
    ensures GoesOn(first, steps', n) && Reaches(c, steps', st')
    ensures TakeSnapshot(c, st').completed == TakeSnapshot(c, st).completed + {s}
    ensures |st'.acts| == |st.acts| && forall j :: 0 <= j < |st.acts| && j != k ==> st'.acts[j] == st.acts[j]
  {
    hide GoesOn, Reaches, NextMessages, AfterComplete, PgApply, MemApply, PlanFailure, ResumePlan, Resumed, StagesOf;
    var m := st.acts[k].raw;
    var steps1, st1 := StepOn(c, first, steps, n, st, Deliver(k));
    var steps2, st2 := StepOn(c, first, steps1, n, st1, Begin(k));
    var steps3, st3 := StepOn(c, first, steps2, n, st2, HandlerReturns(k));
    steps', st' := StepOn(c, first, steps3, n, st3, Complete(k));
    CompletedAfterBegin(c, st1, s, m.attempt);
    SameStores(c, st', Commit(Commit(st1, BeginStage(s, m.attempt)), CompleteStage(s)));
  }

  lemma SameStores(c: Config, a: State, b: State)
    requires a.rows == b.rows && a.mem == b.mem
    ensures TakeSnapshot(c, a) == TakeSnapshot(c, b)
  {
  }

  /** Finishing everything a resume has queued. */
  lemma {:induction false} FinishPlan(c: Config, first: seq<Step>, steps: seq<Step>, n: nat, st: State, base: nat,
                                      plan: seq<StageName>)
    returns (steps': seq<Step>, st': State)
    requires GoesOn(first, steps, n) && Reaches(c, steps, st)
    requires forall x :: 0 <= x < |plan| ==> Queues(st.acts, base + x, plan[x])
    ensures GoesOn(first, steps', n) && Reaches(c, steps', st')
    ensures TakeSnapshot(c, st').completed == TakeSnapshot(c, st).completed + Members(plan)
    decreases |plan|
  {
    hide GoesOn, Reaches, TakeSnapshot;
    steps', st' := steps, st;
    if plan != [] {
      var rest := plan[1..];
      assert Queues(st.acts, base + 0, plan[0]);
      var steps1, st1 := FinishMessage(c, first, steps, n, st, base, plan[0]);
      forall x | 0 <= x < |rest| ensures Queues(st1.acts, base + 1 + x, rest[x]) {
        assert Queues(st.acts, base + (x + 1), plan[x + 1]);
      }
      steps', st' := FinishPlan(c, first, steps1, n, st1, base + 1, rest);
      assert plan == [plan[0]] + rest;
      assert Members(plan) == {plan[0]} + Members(rest);
    }
  }

  lemma {:induction false} ResumedQueues(c: Config, family: Family, plan: seq<StageName>, acts: seq<Activity>, x: nat)
    requires x < |plan|
    ensures Queues(acts + Resumed(c, family, plan), |acts| + x, plan[x])
    decreases |plan|
  {
    if x > 0 {
      var front := [Queued(Work(plan[0]), c.origin.WithFamily(family).ForStage(plan[0]))];
      ResumedQueues(c, family, plan[1..], acts + front, x - 1);
      assert acts + Resumed(c, family, plan) == acts + front + Resumed(c, family, plan[1..]);
    }
  }

  /** One round: resume, then let everything that was queued finish. */
  lemma OneRound(c: Config, first: seq<Step>, steps: seq<Step>, n: nat, st: State)
    returns (steps': seq<Step>, st': State)
    requires GoesOn(first, steps, n) && Reaches(c, steps, st)
    ensures GoesOn(first, steps', n + 1) && Reaches(c, steps', st')
    ensures Round(c.pipeline, c.family, TakeSnapshot(c, st), TakeSnapshot(c, st'))
  {
    hide GoesOn, Reaches, ResumePlan;
    var snapshot := TakeSnapshot(c, st);
    var plan := ResumePlan(c.pipeline, c.family, snapshot.completed, snapshot.dispatched);
    var steps1, st1 := StepOn(c, first, steps, n, st, Resume(c.family));
    forall x | 0 <= x < |plan| ensures Queues(st1.acts, |st.acts| + x, plan[x]) {
      ResumedQueues(c, c.family, plan, st.acts, x);
    }
    SameStores(c, st, st1);
    steps', st' := FinishPlan(c, first, steps1, n + 1, st1, |st.acts|, plan);
  }

  lemma {:induction false} ManyRounds(c: Config, first: seq<Step>, st: State, n: nat)
    returns (steps': seq<Step>, st': State, progress: seq<Snapshot>)
    requires Reaches(c, first, st)
    ensures GoesOn(first, steps', n) && Reaches(c, steps', st')
    ensures |progress| == n + 1 && progress[n] == TakeSnapshot(c, st')
    ensures forall r :: 0 < r < |progress| ==> Round(c.pipeline, c.family, progress[r - 1], progress[r])
    decreases n
  {
    hide Reaches, Round, TakeSnapshot;
    if n == 0 {
      steps', st', progress := first, st, [TakeSnapshot(c, st)];
    } else {
      var steps1, st1, before := ManyRounds(c, first, st, n - 1);
      steps', st' := OneRound(c, first, steps1, n - 1, st1);
      progress := before + [TakeSnapshot(c, st')];
    }
  }

  /** From every state any run can reach, as many rounds of resuming as the path has stages
      can finish the document, whatever has crashed, been rejected or come back before. */
  lemma AlwaysRecoverable(c: Config, steps: seq<Step>, st: State) returns (steps': seq<Step>, st': State)
    requires ValidConfig(c) && Reaches(c, steps, st)
    ensures Reaches(c, steps', st') && GoesOn(steps, steps', |StagesFor(c.pipeline, c.family)|)
    ensures DocumentReady(c.pipeline, c.family, TakeSnapshot(c, st').completed)
  {
    hide Reaches, Round, GoesOn, TakeSnapshot;
    var n := |StagesFor(c.pipeline, c.family)|;
    var progress;
    steps', st', progress := ManyRounds(c, steps, st, n);
    RoundsFinish(c.pipeline, c.family, progress, n);
  }
}
