/** The decisions a worker takes between stages: which followers to queue, how to answer a
    failure, and what a run cut short still needs. */
module Runner {
  import opened Stages
  import opened Texts
  import opened Dag
  import opened Messages

  /** Failures are permanent by their type, or worth another attempt. */
  datatype Failure = Permanent | Transient

  datatype Action = Retry(delayMs: nat, attempt: int) | DeadLetter

  function PlanFailure(pipeline: seq<Stage>, message: StageMessage, failure: Failure): Action {
    if message.stage !in Names(pipeline) || failure.Permanent? then DeadLetter
    else
      match RetryDelayMs(Lookup(pipeline, message.stage), message.attempt)
      case Delay(ms) => Retry(ms, message.attempt + 1)
      case _ => DeadLetter
  }

  /** One message per stage, in order. */
  function HandOff(message: StageMessage, stages: seq<Stage>): seq<StageMessage> {
    if stages == [] then [] else [message.ForStage(stages[0].name)] + HandOff(message, stages[1..])
  }

  function NextMessages(pipeline: seq<Stage>, message: StageMessage,
                        completed: set<StageName>, dispatched: set<StageName>): seq<StageMessage>
  {
    HandOff(message, Ready(pipeline, message.family, completed, dispatched))
  }

  function DocumentReady(pipeline: seq<Stage>, family: Family, completed: set<StageName>): bool {
    IsComplete(pipeline, family, completed)
  }

  // ---------------------------------------------------------------- resume

  function Text(name: StageName): string {
    match name
    case Detect => "detect"
    case Convert => "convert"
    case Parse => "parse"
    case ParseFlow => "parse_flow"
    case Ocr => "ocr"
    case Tables => "tables"
    case Figures => "figures"
    case Chunk => "chunk"
    case Contextualize => "contextualize"
    case Embed => "embed"
    case Named(text) => text
  }

  ghost predicate FirstByText(n: StageName, names: set<StageName>) {
    n in names && forall m :: m in names ==> TextAtMost(Text(n), Text(m))
  }

  lemma {:induction false} FirstByTextExists(names: set<StageName>)
    requires names != {}
    ensures exists n :: FirstByText(n, names)
    decreases |names|
  {
    var x :| x in names;
    var rest := names - {x};
    if rest == {} {
      TextTotal(Text(x), Text(x));
      assert names == {x};
      assert FirstByText(x, names);
    } else {
      FirstByTextExists(rest);
      var y :| FirstByText(y, rest);
      TextTotal(Text(x), Text(y));
      TextTotal(Text(x), Text(x));
      if TextAtMost(Text(x), Text(y)) {
        forall m | m in names ensures TextAtMost(Text(x), Text(m)) {
          if m != x { TextTransitive(Text(x), Text(y), Text(m)); }
        }
        assert FirstByText(x, names);
      } else {
        assert FirstByText(y, names);
      }
    }
  }

  /** Exactly the given names, once each, in alphabetical order. */
  ghost predicate Alphabetical(r: seq<StageName>, names: set<StageName>) {
    && (forall n :: n in r <==> n in names)
    && |r| == |names|
    && forall i, j :: 0 <= i < j < |r| ==> r[i] != r[j] && TextAtMost(Text(r[i]), Text(r[j]))
  }

  lemma FirstThenRest(n: StageName, names: set<StageName>, rest: seq<StageName>)
    requires FirstByText(n, names) && Alphabetical(rest, names - {n})
    ensures Alphabetical([n] + rest, names)
  {
    hide TextAtMost, Text;
    assert forall k :: 0 <= k < |rest| ==> rest[k] in rest;
  }

  ghost function Sorted(names: set<StageName>): (r: seq<StageName>)
    ensures Alphabetical(r, names)
    decreases |names|
  {
    if names == {} then []
    else
      FirstByTextExists(names);
      var n :| FirstByText(n, names);
      FirstThenRest(n, names, Sorted(names - {n}));
      [n] + Sorted(names - {n})
  }

  function NamesOf(stages: seq<Stage>): (r: seq<StageName>)
    ensures |r| == |stages| && forall i :: 0 <= i < |r| ==> r[i] == stages[i].name
  {
    if stages == [] then [] else [stages[0].name] + NamesOf(stages[1..])
  }

  /** Stages to queue again for a run that was interrupted: first whatever was in
      flight, then whatever became ready but was never queued. */
  ghost function ResumePlan(pipeline: seq<Stage>, family: Family,
                            completed: set<StageName>, dispatched: set<StageName>): seq<StageName>
  {
    Sorted(dispatched - completed) + NamesOf(Ready(pipeline, family, completed, dispatched))
  }

  // ---------------------------------------------------------------- what the plans contain

  lemma HandOffAt(message: StageMessage, stages: seq<Stage>)
    ensures |HandOff(message, stages)| == |stages|
    ensures forall i :: 0 <= i < |stages| ==> HandOff(message, stages)[i] == message.ForStage(stages[i].name)
  {
  }

  /** Unfinished stages on the path whose dependencies have all finished. */
  ghost predicate Runnable(pipeline: seq<Stage>, family: Family, completed: set<StageName>, n: StageName) {
    && n in PathNames(pipeline, family)
    && n !in completed
    && Deps(pipeline, family, n) <= completed
  }

  lemma ReadyNames(pipeline: seq<Stage>, family: Family, completed: set<StageName>, dispatched: set<StageName>)
    requires DistinctNames(pipeline)
    ensures var ready := Ready(pipeline, family, completed, dispatched);
      && (forall i, j :: 0 <= i < j < |ready| ==> ready[i].name != ready[j].name)
      && (forall n :: n in Names(ready) <==> Runnable(pipeline, family, completed, n) && n !in dispatched)
  {
    var path := StagesFor(pipeline, family);
    var ready := Ready(pipeline, family, completed, dispatched);
    PathDistinct(pipeline, family);
    ReadyDistinct(path, pipeline, family, completed, dispatched);
    forall n ensures n in Names(ready) <==> Runnable(pipeline, family, completed, n) && n !in dispatched {
      if n in Names(ready) {
        var s :| s in ready && s.name == n;
        ReadyMember(path, pipeline, family, completed, dispatched, s);
        LookupUnique(path, s);
      }
      if Runnable(pipeline, family, completed, n) && n !in dispatched {
        ReadyMember(path, pipeline, family, completed, dispatched, Lookup(path, n));
      }
    }
  }

  lemma {:induction false} ReadyDistinct(stages: seq<Stage>, pipeline: seq<Stage>, family: Family,
                                         completed: set<StageName>, dispatched: set<StageName>)
    requires DistinctNames(stages)
    ensures DistinctNames(ReadyAmong(stages, pipeline, family, completed, dispatched))
  {
    if stages != [] {
      ReadyDistinct(stages[1..], pipeline, family, completed, dispatched);
      var rest := ReadyAmong(stages[1..], pipeline, family, completed, dispatched);
      forall j | 0 <= j < |rest| ensures rest[j].name != stages[0].name {
        ReadyMember(stages[1..], pipeline, family, completed, dispatched, rest[j]);
        var i :| 0 <= i < |stages[1..]| && stages[1..][i] == rest[j];
        assert stages[i + 1] == rest[j];
      }
    }
  }

  lemma ResumeMembers(pipeline: seq<Stage>, family: Family, completed: set<StageName>,
                      dispatched: set<StageName>, n: StageName)
    requires DistinctNames(pipeline)
    ensures n in ResumePlan(pipeline, family, completed, dispatched)
            <==> || n in dispatched - completed
                 || (Runnable(pipeline, family, completed, n) && n !in dispatched)
  {
    var ready := Ready(pipeline, family, completed, dispatched);
    ReadyNames(pipeline, family, completed, dispatched);
    NamesOfMember(ready, n);
  }

  lemma {:induction false} NamesOfMember(stages: seq<Stage>, n: StageName)
    ensures n in NamesOf(stages) <==> n in Names(stages)
  {
    if n in NamesOf(stages) {
      var i :| 0 <= i < |stages| && NamesOf(stages)[i] == n;
      assert stages[i] in stages;
    }
    if n in Names(stages) {
      var i :| 0 <= i < |stages| && stages[i].name == n;
      assert NamesOf(stages)[i] == n;
    }
  }

  /** No stage is queued twice by one resume. */
  lemma ResumeDistinct(pipeline: seq<Stage>, family: Family, completed: set<StageName>, dispatched: set<StageName>)
    requires DistinctNames(pipeline)
    ensures var plan := ResumePlan(pipeline, family, completed, dispatched);
      forall i, j :: 0 <= i < j < |plan| ==> plan[i] != plan[j]
  {
    var ready := Ready(pipeline, family, completed, dispatched);
    ReadyNames(pipeline, family, completed, dispatched);
    DistinctConcat(Sorted(dispatched - completed), NamesOf(ready), dispatched);
  }

  lemma DistinctConcat(front: seq<StageName>, back: seq<StageName>, fence: set<StageName>)
    requires forall i, j :: 0 <= i < j < |front| ==> front[i] != front[j]
    requires forall i, j :: 0 <= i < j < |back| ==> back[i] != back[j]
    requires forall n :: n in front ==> n in fence
    requires forall j :: 0 <= j < |back| ==> back[j] !in fence
    ensures forall i, j :: 0 <= i < j < |front + back| ==> (front + back)[i] != (front + back)[j]
  {
    forall i, j | 0 <= i < j < |front + back| ensures (front + back)[i] != (front + back)[j] {
      if i < |front| <= j {
        assert front[i] in fence;
        assert back[j - |front|] !in fence;
      }
    }
  }

  /** Resuming queues exactly the stages that can run now if and only if no queued,
      unfinished stage has lost a dependency. */
  lemma ResumeExactIff(pipeline: seq<Stage>, family: Family, completed: set<StageName>, dispatched: set<StageName>)
    requires DistinctNames(pipeline)
    requires dispatched <= PathNames(pipeline, family)
    ensures (forall n :: n in ResumePlan(pipeline, family, completed, dispatched)
                         <==> Runnable(pipeline, family, completed, n))
       <==> (forall n :: n in dispatched - completed ==> Deps(pipeline, family, n) <= completed)
  {
    var plan := ResumePlan(pipeline, family, completed, dispatched);
    forall n ensures n in plan <==> || n in dispatched - completed
                                    || (Runnable(pipeline, family, completed, n) && n !in dispatched)
    {
      ResumeMembers(pipeline, family, completed, dispatched, n);
    }
    if forall n :: n in plan <==> Runnable(pipeline, family, completed, n) {
      forall n | n in dispatched - completed ensures Deps(pipeline, family, n) <= completed {
        assert n in plan;
      }
    }
  }

  /** With nothing left to resume the run is complete, and conversely. */
  lemma ResumeEmptyIffComplete(pipeline: seq<Stage>, family: Family, completed: set<StageName>,
                               dispatched: set<StageName>)
    requires DistinctNames(pipeline) && Topological(pipeline)
    requires dispatched <= PathNames(pipeline, family)
    ensures ResumePlan(pipeline, family, completed, dispatched) == [] <==> IsComplete(pipeline, family, completed)
  {
    var plan := ResumePlan(pipeline, family, completed, dispatched);
    assert plan != [] ==> plan[0] in plan;
    ReadyEmptyIffComplete(pipeline, family, completed);
    ReadyNames(pipeline, family, completed, {});
    if IsComplete(pipeline, family, completed) {
      forall n ensures n !in plan {
        ResumeMembers(pipeline, family, completed, dispatched, n);
      }
    } else {
      var ready := Ready(pipeline, family, completed, {});
      assert ready[0] in ready;
      ResumeMembers(pipeline, family, completed, dispatched, ready[0].name);
      assert Runnable(pipeline, family, completed, ready[0].name);
    }
  }
}
