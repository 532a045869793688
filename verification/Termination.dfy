/** Every crash-free run stops: a budget that each step of any worker eats into. */
module Termination {
  import opened Stages
  import opened Dag
  import opened Messages
  import opened Runner
  import opened Store
  import opened Protocol
  import opened Handoff
  import opened Delivery

  /** Steps one message can still cause with `left` retries: six to get through an
      attempt, and a seventh to sit out a retry delay. */
  function Cost(left: int): int {
    6 + 7 * left
  }

  ghost function Left(c: Config, m: StageMessage): int {
    MaxAttempts(c, m.stage) - m.attempt
  }

  ghost function FollowerCost(c: Config, followers: seq<StageMessage>): int {
    if followers == [] then 0
    else 1 + Cost(Left(c, followers[0])) + FollowerCost(c, followers[1..])
  }

  ghost function ActionCost(c: Config, m: StageMessage, action: Action): int {
    if action.Retry? then 7 * Left(c, m) else 0
  }

  /** Steps an activity can still cause, its followers' included once they are reserved. */
  ghost function Weight(c: Config, a: Activity): int {
    match a
    case Queued(Work(_), m) => Cost(Left(c, m))
    case Queued(Tier(_), m) => 1 + Cost(Left(c, m))
    case Queued(Dlq(_), _) => 0
    case Delivered(m) => Cost(Left(c, m)) - 1
    case Begun(m) => Cost(Left(c, m)) - 2
    case Handled(_, _) => 3
    case Completed(_, _) => 2
    case Publishing(_, followers) => 1 + FollowerCost(c, followers)
    case Failing(m, action, _) => 3 + ActionCost(c, m, action)
    case Recorded(m, action) => 2 + ActionCost(c, m, action)
    case Finished(_) => 1
  }

  ghost function TotalWeight(c: Config, acts: seq<Activity>): int {
    if acts == [] then 0 else Weight(c, acts[0]) + TotalWeight(c, acts[1..])
  }

  /** What the stages nobody has reserved yet may still cost. */
  ghost function Unreserved(stages: seq<Stage>, known: set<StageName>): int {
    if stages == [] then 0
    else (if stages[0].name in known then 0 else 1 + Cost(stages[0].maxAttempts - 1))
         + Unreserved(stages[1..], known)
  }

  ghost function Budget(c: Config, st: State): int {
    TotalWeight(c, st.acts) + Unreserved(StagesFor(c.pipeline, c.family), st.mem.dispatched)
  }

  lemma {:induction false} WeightAppend(c: Config, front: seq<Activity>, back: seq<Activity>)
    ensures TotalWeight(c, front + back) == TotalWeight(c, front) + TotalWeight(c, back)
  {
    if front == [] {
      assert front + back == back;
    } else {
      assert (front + back)[1..] == front[1..] + back;
      WeightAppend(c, front[1..], back);
    }
  }

  lemma {:induction false} WeightSplit(c: Config, acts: seq<Activity>, i: nat)
    requires i < |acts|
    ensures TotalWeight(c, acts)
         == TotalWeight(c, acts[..i]) + Weight(c, acts[i]) + TotalWeight(c, acts[i + 1..])
  {
    assert acts == acts[..i] + acts[i..];
    WeightAppend(c, acts[..i], acts[i..]);
    assert acts[i..][1..] == acts[i + 1..];
  }

  lemma {:induction false} WeightMove(c: Config, acts: seq<Activity>, i: nat, after: Activity, published: seq<Activity>)
    requires i < |acts|
    ensures TotalWeight(c, acts[i := after] + published)
         == TotalWeight(c, acts) - Weight(c, acts[i]) + Weight(c, after) + TotalWeight(c, published)
  {
    var acts' := acts[i := after];
    WeightAppend(c, acts', published);
    WeightSplit(c, acts, i);
    WeightSplit(c, acts', i);
    assert acts'[..i] == acts[..i] && acts'[i + 1..] == acts[i + 1..];
  }

  lemma {:induction false} ReservingPays(stages: seq<Stage>, known: set<StageName>, s: StageName)
    requires DistinctNames(stages) && s in Names(stages) && s !in known
    ensures Unreserved(stages, known + {s})
         == Unreserved(stages, known) - (1 + Cost(Lookup(stages, s).maxAttempts - 1))
  {
    assert stages == [stages[0]] + stages[1..];
    if stages[0].name == s {
      assert s !in Names(stages[1..]);
      UnreservedElsewhere(stages[1..], known, s);
    } else {
      ReservingPays(stages[1..], known, s);
    }
  }

  lemma {:induction false} UnreservedElsewhere(stages: seq<Stage>, known: set<StageName>, s: StageName)
    requires s !in Names(stages)
    ensures Unreserved(stages, known + {s}) == Unreserved(stages, known)
  {
    if stages != [] {
      assert stages[0] in stages;
      assert stages == [stages[0]] + stages[1..];
      UnreservedElsewhere(stages[1..], known, s);
    }
  }

  lemma {:induction false} UnreservedShrinks(stages: seq<Stage>, known: set<StageName>, more: set<StageName>)
    requires forall s :: s in stages ==> s.maxAttempts >= 1
    ensures 0 <= Unreserved(stages, known + more) <= Unreserved(stages, known)
  {
    if stages != [] {
      assert stages == [stages[0]] + stages[1..];
      UnreservedShrinks(stages[1..], known, more);
    }
  }

  /** Reserving all followers pays for everything they may still cost. */
  lemma {:induction false} ReservingAllPays(c: Config, path: seq<Stage>, known: set<StageName>,
                                            followers: seq<StageMessage>)
    requires DistinctNames(path) && path == StagesFor(c.pipeline, c.family)
    requires forall k :: 0 <= k < |followers| ==>
               followers[k].stage in Names(path) && followers[k].attempt == 1 && followers[k].stage !in known
    requires forall k, l :: 0 <= k < l < |followers| ==> followers[k].stage != followers[l].stage
    ensures Unreserved(path, known + Members(StagesOf(followers)))
         == Unreserved(path, known) - FollowerCost(c, followers)
    decreases |followers|
  {
    hide Unreserved, StagesOf;
    MembersOfFollowers(known, followers);
    if followers != [] {
      var s, rest := followers[0].stage, followers[1..];
      ReservingPays(path, known, s);
      assert forall k :: 0 <= k < |rest| ==> rest[k] == followers[k + 1];
      ReservingAllPays(c, path, known + {s}, rest);
    }
  }

  lemma {:induction false} MembersOfFollowers(known: set<StageName>, followers: seq<StageMessage>)
    ensures known + Members(StagesOf(followers))
         == if followers == [] then known else known + {followers[0].stage} + Members(StagesOf(followers[1..]))
  {
    if followers != [] {
      assert StagesOf(followers) == [followers[0].stage] + StagesOf(followers[1..]);
    }
  }

  lemma PathAttempts(c: Config)
    requires ValidConfig(c)
    ensures forall s :: s in StagesFor(c.pipeline, c.family) ==> s.maxAttempts >= 1
  {
    forall s | s in StagesFor(c.pipeline, c.family) ensures s.maxAttempts >= 1 {
      StagesForMember(c.pipeline, c.family, s);
    }
  }

  lemma {:induction false} FollowerCostPositive(c: Config, followers: seq<StageMessage>)
    requires forall k :: 0 <= k < |followers| ==> MessageOk(c, followers[k])
    ensures FollowerCost(c, followers) >= 0
  {
    if followers != [] {
      FollowerCostPositive(c, followers[1..]);
      assert MessageOk(c, followers[0]);
    }
  }

  lemma {:induction false} BudgetNotNegative(c: Config, done: set<StageName>, known: set<StageName>,
                                             starts: multiset<StageName>, acts: seq<Activity>)
    requires AllOk(c, done, known, starts, acts)
    ensures TotalWeight(c, acts) >= 0
  {
    if acts != [] {
      assert ActOk(c, done, known, starts, acts[0]);
      if acts[0].Publishing? {
        FollowerCostPositive(c, acts[0].followers);
      }
      forall i | 0 <= i < |acts[1..]| ensures ActOk(c, done, known, starts, acts[1..][i]) {
        assert acts[1..][i] == acts[i + 1];
      }
      BudgetNotNegative(c, done, known, starts, acts[1..]);
    }
  }

  /** Steps that reserve nothing lighten their own activity. */
  lemma PlainStepIsLighter(c: Config, st: State, step: Step)
    requires ValidConfig(c) && Plain(step) && Enabled(c, st, step)
    requires ActOk(c, st.mem.completed, st.mem.dispatched, st.starts, st.acts[step.i])
    ensures Budget(c, Apply(c, st, step)) < Budget(c, st)
  {
    hide Unreserved, StagesFor, Deps, Live, FollowersOk, FollowerCost, PgApply, MemApply, NextMessages,
         ResumePlan, Resumed, TakeSnapshot, Commit, PathNames;
    var a := st.acts[step.i];
    var m := a.raw;
    match step
    case Deliver(i) => WeightMove(c, st.acts, i, Delivered(m), []);
    case NoHandler(i) => WeightMove(c, st.acts, i, Finished(m), [Queued(Dlq(m.stage), m)]);
    case HandlerReturns(i) => WeightMove(c, st.acts, i, Handled(m, Adopt(c, m)), []);
    case HandlerRaises(i, failure, error) =>
      WeightMove(c, st.acts, i, Failing(m, PlanFailure(c.pipeline, m, failure), error), []);
    case Reroute(i) =>
      var out := if a.action.Retry? then Queued(Tier(a.action.delayMs), m.Retried()) else Queued(Dlq(m.stage), m);
      WeightMove(c, st.acts, i, Finished(m), [out]);
    case Expire(i) => WeightMove(c, st.acts, i, Queued(Work(m.stage), m), []);
  }

  lemma CommitStepIsLighter(c: Config, st: State, step: Step)
    requires ValidConfig(c) && Enabled(c, st, step)
    requires step.Begin? || step.Complete? || step.RecordFailure?
    requires ActOk(c, st.mem.completed, st.mem.dispatched, st.starts, st.acts[step.i])
    ensures Budget(c, Apply(c, st, step)) < Budget(c, st)
  {
    hide Unreserved, StagesFor, NextMessages, PgApply, Deps, PlanFailure, ResumePlan, Resumed, TakeSnapshot,
         PathNames, Adopt, FollowersOk;
    var a := st.acts[step.i];
    var path := StagesFor(c.pipeline, c.family);
    var st' := Apply(c, st, step);
    PathAttempts(c);
    UnreservedShrinks(path, st.mem.dispatched, st'.mem.dispatched);
    assert st.mem.dispatched + st'.mem.dispatched == st'.mem.dispatched;
    WeightMove(c, st.acts, step.i, st'.acts[step.i], []);
  }

  lemma {:induction false} FollowersPay(c: Config, st: State, i: nat)
    requires ValidConfig(c) && i < |st.acts| && st.acts[i].Completed?
    requires ActOk(c, st.mem.completed, st.mem.dispatched, st.starts, st.acts[i])
    ensures var path, followers := StagesFor(c.pipeline, c.family), st.acts[i].followers;
      Unreserved(path, st.mem.dispatched + Members(StagesOf(followers)))
      == Unreserved(path, st.mem.dispatched) - FollowerCost(c, followers)
  {
    hide Unreserved, FollowerCost;
    var followers := st.acts[i].followers;
    PathDistinct(c.pipeline, c.family);
    assert forall k :: 0 <= k < |followers| ==> MessageOk(c, followers[k]);
    ReservingAllPays(c, StagesFor(c.pipeline, c.family), st.mem.dispatched, followers);
  }

  lemma ReserveIsLighter(c: Config, st: State, i: nat)
    requires ValidConfig(c) && Enabled(c, st, Reserve(i))
    requires ActOk(c, st.mem.completed, st.mem.dispatched, st.starts, st.acts[i])
    ensures Budget(c, Apply(c, st, Reserve(i))) < Budget(c, st)
  {
    hide Unreserved, FollowerCost, StagesFor, ActOk, ValidConfig, PgApply, Deps, NextMessages;
    var a := st.acts[i];
    var after := Publishing(a.raw, a.followers);
    FollowersPay(c, st, i);
    WeightMove(c, st.acts, i, after, []);
    var st' := Apply(c, st, Reserve(i));
    assert st'.mem.dispatched == st.mem.dispatched + Members(StagesOf(a.followers));
  }

  lemma PublishIsLighter(c: Config, st: State, i: nat)
    requires Enabled(c, st, PublishNext(i))
    ensures Budget(c, Apply(c, st, PublishNext(i))) < Budget(c, st)
  {
    var a := st.acts[i];
    var next, rest := a.followers[0], a.followers[1..];
    var after, out := AfterPublish(a.raw, rest), Queued(Work(next.stage), next);
    assert Weight(c, a) == 2 + Cost(Left(c, next)) + FollowerCost(c, rest);
    assert Weight(c, after) == 1 + FollowerCost(c, rest);
    assert TotalWeight(c, [out]) == Cost(Left(c, next));
    WeightMove(c, st.acts, i, after, [out]);
  }

  lemma AckIsLighter(c: Config, st: State, i: nat)
    requires Enabled(c, st, Ack(i))
    ensures Budget(c, Apply(c, st, Ack(i))) < Budget(c, st)
  {
    WeightSplit(c, st.acts, i);
    WeightAppend(c, st.acts[..i], st.acts[i + 1..]);
  }

  lemma StepEatsBudget(c: Config, st: State, step: Step)
    requires ValidConfig(c) && Inv(c, st) && CrashFree(step) && Enabled(c, st, step)
    ensures Budget(c, Apply(c, st, step)) < Budget(c, st)
  {
    assert ActOk(c, st.mem.completed, st.mem.dispatched, st.starts, st.acts[step.i]);
    match step
    case Begin(_) => CommitStepIsLighter(c, st, step);
    case Complete(_) => CommitStepIsLighter(c, st, step);
    case RecordFailure(_) => CommitStepIsLighter(c, st, step);
    case Reserve(i) => ReserveIsLighter(c, st, i);
    case PublishNext(i) => PublishIsLighter(c, st, i);
    case Ack(i) => AckIsLighter(c, st, i);
    case _ => PlainStepIsLighter(c, st, step);
  }

  /** No crash-free run is longer than the budget it starts with, however the workers
      interleave and whichever attempts fail. */
  lemma {:induction false} RunsTerminate(c: Config, steps: seq<Step>, st: State)
    requires Safe(c) && CrashFreeRun(c, steps, st)
    ensures |steps| + Budget(c, st) <= Budget(c, Init(c))
    ensures Budget(c, st) >= 0
  {
    if steps != [] {
      var front, step := steps[..|steps| - 1], steps[|steps| - 1];
      var before := Exec(c, front).value;
      RunsTerminate(c, front, before);
      RunKeepsInv(c, front, before);
      StepEatsBudget(c, before, step);
    }
    RunKeepsInv(c, steps, st);
    BudgetNotNegative(c, st.mem.completed, st.mem.dispatched, st.starts, st.acts);
    PathAttempts(c);
    UnreservedShrinks(StagesFor(c.pipeline, c.family), st.mem.dispatched, {});
    assert st.mem.dispatched + {} == st.mem.dispatched;
  }
}
