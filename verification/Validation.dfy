/** The structural check every worker runs at start-up. It accepts a pipeline
    exactly when every family can run to the terminal stage. */
module Validation {
  import opened Wrappers
  import opened Stages
  import opened Dag

  /** Some family has a set of stages that wait for each other. */
  ghost predicate Deadlocks(pipeline: seq<Stage>, family: Family) {
    exists stuck :: Stuck(pipeline, family, stuck)
  }

  method CheckStage(stage: Stage, names: set<StageName>) returns (r: Option<Rejection>)
    ensures r.None? <==> stage.dependsOn <= names && stage.families != {} && stage.maxAttempts >= 1
    ensures r.Some? ==> !r.value.Deadlock?
  {
    if !(stage.dependsOn <= names) {
      return Some(UnknownDependency(stage.name));
    }
    if stage.families == {} {
      return Some(NoFamily(stage.name));
    }
    if stage.maxAttempts < 1 {
      return Some(TooFewAttempts(stage.name));
    }
    return None;
  }

  /** Adding a whole wave of ready stages never reaches into a stuck set. */
  lemma WaveAvoidsStuck(pipeline: seq<Stage>, family: Family, completed: set<StageName>,
                        ready: seq<Stage>, stuck: set<StageName>)
    requires Stuck(pipeline, family, stuck) && completed !! stuck
    requires ready == Ready(pipeline, family, completed, {})
    ensures completed + Names(ready) !! stuck
  {
    forall s | s in ready ensures s.name !in stuck {
      ReadyMember(StagesFor(pipeline, family), pipeline, family, completed, {}, s);
      assert EffectiveDeps(pipeline, s, family) * stuck == {};
    }
  }

  /** When no wave is left, whatever is unfinished is stuck. */
  lemma LeftoverIsStuck(pipeline: seq<Stage>, family: Family, completed: set<StageName>)
    requires Ready(pipeline, family, completed, {}) == []
    requires !IsComplete(pipeline, family, completed)
    ensures Stuck(pipeline, family, PathNames(pipeline, family) - completed)
  {
    var path := StagesFor(pipeline, family);
    var stuck := Names(path) - completed;
    forall s | s in path && s.name in stuck
      ensures EffectiveDeps(pipeline, s, family) * stuck != {}
    {
      ReadyMember(path, pipeline, family, completed, {}, s);
      var d :| d in EffectiveDeps(pipeline, s, family) && d !in completed;
      assert d in EffectiveDeps(pipeline, s, family) * stuck;
    }
  }

  /** Simulates a whole run of one family. */
  method SimulateRun(pipeline: seq<Stage>, family: Family) returns (ok: bool)
    ensures ok <==> !Deadlocks(pipeline, family)
  {
    var completed: set<StageName> := {};
    var names := PathNames(pipeline, family);
    var ready := ReadyStages(pipeline, family, completed, {});
    while ready != []
      invariant completed <= names
      invariant ready == Ready(pipeline, family, completed, {})
      invariant forall stuck :: Stuck(pipeline, family, stuck) ==> completed !! stuck
      decreases names - completed
    {
      ghost var before := completed;
      forall stuck | Stuck(pipeline, family, stuck) ensures completed + Names(ready) !! stuck {
        WaveAvoidsStuck(pipeline, family, completed, ready, stuck);
      }
      forall s | s in ready ensures s.name in names && s.name !in completed {
        ReadyMember(StagesFor(pipeline, family), pipeline, family, completed, {}, s);
      }
      assert ready[0] in ready;
      completed := completed + Names(ready);
      assert ready[0].name in completed && ready[0].name !in before;
      ready := ReadyStages(pipeline, family, completed, {});
    }
    ok := IsComplete(pipeline, family, completed);
    if ok {
      forall stuck ensures !Stuck(pipeline, family, stuck) {
        assert stuck <= names && stuck !! completed ==> stuck == {};
      }
    } else {
      LeftoverIsStuck(pipeline, family, completed);
    }
  }

  method CheckFamily(pipeline: seq<Stage>, family: Family) returns (r: Option<Rejection>)
    ensures r.None? <==> Finishable(pipeline, family)
    ensures r.Some? && r.value.Deadlock? ==> Deadlocks(pipeline, family)
  {
    var path := StagesFor(pipeline, family);
    if path == [] {
      return Some(EmptyPath(family));
    }
    if TERMINAL_STAGE !in Names(path) {
      return Some(NoTerminal(family));
    }
    var ok := SimulateRun(pipeline, family);
    return if ok then None else Some(Deadlock(family));
  }

  lemma FamiliesAreAll(family: Family)
    ensures family in FAMILIES
  {
    assert FAMILIES[0] == Pdf && FAMILIES[1] == Image && FAMILIES[2] == Office
        && FAMILIES[3] == Web && FAMILIES[4] == Flow;
  }

  /** The simulated run of a topological pipeline deadlocks only if a name is declared twice. */
  lemma DeadlockNeedsTwins(pipeline: seq<Stage>, family: Family)
    requires Topological(pipeline)
    ensures Deadlocks(pipeline, family) ==> !DistinctNames(pipeline)
  {
    hide Stuck, DistinctNames, Topological;
    if DistinctNames(pipeline) {
      forall stuck ensures !Stuck(pipeline, family, stuck) {
        NothingIsStuck(pipeline, family, stuck);
      }
    }
  }

  /** Accepts exactly the pipelines in which nothing is mis-declared and every
      family reaches the terminal stage; with distinct names the simulated run can
      never be what fails. */
  method ValidatePipeline(pipeline: seq<Stage>) returns (r: Option<Rejection>)
    ensures r.None? <==> ValidPipeline(pipeline)
    ensures r.Some? && r.value.Deadlock? ==> !DistinctNames(pipeline)
  {
    hide Finishable, Deadlocks, DistinctNames, FAMILIES, Names;
    var names := Names(pipeline);
    for i := 0 to |pipeline|
      invariant forall k :: 0 <= k < i ==>
                  pipeline[k].dependsOn <= names && pipeline[k].families != {} && pipeline[k].maxAttempts >= 1
    {
      r := CheckStage(pipeline[i], names);
      if r.Some? {
        assert pipeline[i] in pipeline;
        return;
      }
    }

    var seen: set<StageName> := {};
    NoNames(pipeline[..0]);
    for i := 0 to |pipeline|
      invariant seen == Names(pipeline[..i])
      invariant forall k :: 0 <= k < i ==> pipeline[k].dependsOn <= Names(pipeline[..k])
    {
      if !(pipeline[i].dependsOn <= seen) {
        return Some(DeclaredTooEarly(pipeline[i].name));
      }
      assert pipeline[..i + 1] == pipeline[..i] + [pipeline[i]];
      NamesOneMore(pipeline[..i], pipeline[i]);
      seen := seen + {pipeline[i].name};
    }

    for i := 0 to |FAMILIES|
      invariant forall k :: 0 <= k < i ==> Finishable(pipeline, FAMILIES[k])
    {
      r := CheckFamily(pipeline, FAMILIES[i]);
      if r.Some? {
        DeadlockNeedsTwins(pipeline, FAMILIES[i]);
        return;
      }
    }
    forall family ensures Finishable(pipeline, family) {
      FamiliesAreAll(family);
    }
    return None;
  }

  /** The shipped pipeline passes the check: every family can run to its terminal stage. */
  lemma ShippedIsValid(p: seq<Stage>)
    requires Shipped(p)
    ensures ValidPipeline(p)
  {
    ShippedTopological(p);
    forall s | s in p ensures s.dependsOn <= Names(p) && s.families != {} && s.maxAttempts >= 1 {
      DeclaredStage(p, s);
    }
    forall family: Family ensures Finishable(p, family) {
      PathOf(p, family, TERMINAL_STAGE);
      assert family in ALL_FAMILIES by {
        match family case Pdf => case Image => case Office => case Web => case Flow =>
      }
      forall stuck ensures !Stuck(p, family, stuck) {
        NothingIsStuck(p, family, stuck);
      }
    }
  }

  lemma DeclaredStage(p: seq<Stage>, s: Stage)
    requires Shipped(p) && Topological(p) && s in p
    ensures s.dependsOn <= Names(p) && s.families != {} && s.maxAttempts >= 1
  {
    StageInSlot(p, s);
    assert Pdf in s.families || Flow in s.families || Office in s.families;
    var i := Slot(s.name);
    assert p[i].dependsOn <= Names(p[..i]);
  }

  lemma PipelineIsValid()
    ensures ValidPipeline(PIPELINE)
  {
    hide Shipped, ValidPipeline;
    PipelineShipped();
    ShippedIsValid(PIPELINE);
  }
}
