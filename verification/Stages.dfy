/** The ingest DAG as data: which stages a document family runs, what each stage
    waits for, and the scheduler that turns a run's progress into work. */
module Stages {

  datatype Family = Pdf | Image | Office | Web | Flow

  datatype Pool = ParsePool | EnrichPool

  /** The ten stages of the shipped pipeline; `Named` leaves room for any other
      pipeline, since the scheduling results below hold for every one. */
  datatype StageName =
    | Detect | Convert | Parse | ParseFlow | Ocr
    | Tables | Figures | Chunk | Contextualize | Embed
    | Named(text: string)

  datatype Stage = Stage(
    name: StageName,
    pool: Pool,
    families: set<Family>,
    dependsOn: set<StageName>,
    maxAttempts: int,
    prefetch: nat)

  const FAMILIES: seq<Family> := [Pdf, Image, Office, Web, Flow]
  const PAGED: set<Family> := {Pdf, Image, Office, Web}
  const ALL_FAMILIES: set<Family> := {Pdf, Image, Office, Web, Flow}

  /** Shared backoff tiers, in milliseconds. */
  const RETRY_DELAYS_MS: seq<nat> := [5_000, 30_000, 300_000]

  const TERMINAL_STAGE: StageName := Embed

  const PIPELINE: seq<Stage> := [
    Stage(Detect, ParsePool, ALL_FAMILIES, {}, 3, 16),
    Stage(Convert, ParsePool, {Office, Web}, {Detect}, 2, 1),
    Stage(Parse, ParsePool, PAGED, {Detect, Convert}, 3, 2),
    Stage(ParseFlow, ParsePool, {Flow}, {Detect}, 3, 8),
    Stage(Ocr, ParsePool, PAGED, {Parse}, 3, 1),
    Stage(Tables, ParsePool, PAGED, {Parse, Ocr}, 3, 2),
    Stage(Figures, EnrichPool, PAGED, {Parse, Ocr}, 4, 4),
    Stage(Chunk, EnrichPool, ALL_FAMILIES, {Tables, Figures, ParseFlow}, 3, 8),
    Stage(Contextualize, EnrichPool, ALL_FAMILIES, {Chunk}, 5, 8),
    Stage(Embed, EnrichPool, ALL_FAMILIES, {Contextualize}, 5, 4)
  ]

  /** The path of a family, as the pipeline lists it. */
  function StagesFor(pipeline: seq<Stage>, family: Family): seq<Stage> {
    if pipeline == [] then []
    else
      (if family in pipeline[0].families then [pipeline[0]] else []) + StagesFor(pipeline[1..], family)
  }

  function Names(stages: seq<Stage>): set<StageName> {
    set s | s in stages :: s.name
  }

  lemma NoNames(stages: seq<Stage>)
    requires stages == []
    ensures Names(stages) == {}
  {
  }

  lemma NamesOneMore(stages: seq<Stage>, s: Stage)
    ensures Names(stages + [s]) == Names(stages) + {s.name}
  {
    assert forall x :: x in stages + [s] <==> x in stages || x == s;
  }

  function PathNames(pipeline: seq<Stage>, family: Family): set<StageName> {
    Names(StagesFor(pipeline, family))
  }

  /** A declared dependency off the path waits for nothing, so it is dropped. */
  function EffectiveDeps(pipeline: seq<Stage>, stage: Stage, family: Family): set<StageName> {
    stage.dependsOn * PathNames(pipeline, family)
  }

  predicate IsComplete(pipeline: seq<Stage>, family: Family, completed: set<StageName>) {
    PathNames(pipeline, family) <= completed
  }

  /** Neither finished nor queued, and everything it waits for has finished. */
  predicate IsReady(pipeline: seq<Stage>, family: Family, completed: set<StageName>,
                    dispatched: set<StageName>, stage: Stage)
  {
    && stage.name !in completed
    && stage.name !in dispatched
    && EffectiveDeps(pipeline, stage, family) <= completed
  }

  /** The members of `stages` that are ready, in order. */
  function ReadyAmong(stages: seq<Stage>, pipeline: seq<Stage>, family: Family,
                      completed: set<StageName>, dispatched: set<StageName>): seq<Stage>
  {
    if stages == [] then []
    else
      (if IsReady(pipeline, family, completed, dispatched, stages[0]) then [stages[0]] else [])
      + ReadyAmong(stages[1..], pipeline, family, completed, dispatched)
  }

  function Ready(pipeline: seq<Stage>, family: Family, completed: set<StageName>,
                 dispatched: set<StageName>): seq<Stage>
  {
    ReadyAmong(StagesFor(pipeline, family), pipeline, family, completed, dispatched)
  }

  /** The answer to a failed attempt: a wait before the next one, or none, or a number no
      attempt can have. */
  datatype Backoff = NotOneBased | GiveUp | Delay(ms: nat)

  function RetryDelayMs(stage: Stage, attempt: int): Backoff {
    if attempt < 1 then NotOneBased
    else if attempt >= stage.maxAttempts then GiveUp
    else
      var last := |RETRY_DELAYS_MS| - 1;
      Delay(RETRY_DELAYS_MS[if attempt - 1 < last then attempt - 1 else last])
  }

  // ---------------------------------------------------------------- filters

  lemma {:induction false} StagesForMember(pipeline: seq<Stage>, family: Family, s: Stage)
    ensures s in StagesFor(pipeline, family) <==> s in pipeline && family in s.families
  {
    if pipeline != [] {
      StagesForMember(pipeline[1..], family, s);
      assert pipeline == [pipeline[0]] + pipeline[1..];
    }
  }

  lemma {:induction false} StagesForAppend(front: seq<Stage>, back: seq<Stage>, family: Family)
    ensures StagesFor(front + back, family) == StagesFor(front, family) + StagesFor(back, family)
  {
    if front == [] {
      assert front + back == back;
    } else {
      assert (front + back)[0] == front[0] && (front + back)[1..] == front[1..] + back;
      StagesForAppend(front[1..], back, family);
    }
  }

  lemma {:induction false} ReadyMember(stages: seq<Stage>, pipeline: seq<Stage>, family: Family,
                                       completed: set<StageName>, dispatched: set<StageName>, s: Stage)
    ensures s in ReadyAmong(stages, pipeline, family, completed, dispatched)
            <==> s in stages && IsReady(pipeline, family, completed, dispatched, s)
  {
    if stages != [] {
      ReadyMember(stages[1..], pipeline, family, completed, dispatched, s);
      assert stages == [stages[0]] + stages[1..];
    }
  }

  lemma {:induction false} ReadyAppend(front: seq<Stage>, s: Stage, pipeline: seq<Stage>, family: Family,
                                       completed: set<StageName>, dispatched: set<StageName>)
    ensures ReadyAmong(front + [s], pipeline, family, completed, dispatched)
         == ReadyAmong(front, pipeline, family, completed, dispatched)
            + if IsReady(pipeline, family, completed, dispatched, s) then [s] else []
  {
    hide IsReady;
    if front == [] {
      assert front + [s] == [s];
      assert [s][1..] == [];
    } else {
      assert (front + [s])[0] == front[0] && (front + [s])[1..] == front[1..] + [s];
      ReadyAppend(front[1..], s, pipeline, family, completed, dispatched);
      var first := if IsReady(pipeline, family, completed, dispatched, front[0]) then [front[0]] else [];
      var last := if IsReady(pipeline, family, completed, dispatched, s) then [s] else [];
      var middle := ReadyAmong(front[1..], pipeline, family, completed, dispatched);
      assert first + (middle + last) == first + middle + last;
    }
  }

  // ---------------------------------------------------------------- the scheduler

  /** The scheduler: one pass over the family's path. */
  method ReadyStages(pipeline: seq<Stage>, family: Family, completed: set<StageName>,
                     dispatched: set<StageName>) returns (out: seq<Stage>)
    ensures out == Ready(pipeline, family, completed, dispatched)
    ensures forall s :: s in out <==>
              s in pipeline && family in s.families && IsReady(pipeline, family, completed, dispatched, s)
  {
    hide StagesFor, Names, PathNames;
    var blocked := completed + dispatched;
    var path := StagesFor(pipeline, family);
    out := [];
    for i := 0 to |path|
      invariant out == ReadyAmong(path[..i], pipeline, family, completed, dispatched)
    {
      ReadyAppend(path[..i], path[i], pipeline, family, completed, dispatched);
      assert path[..i + 1] == path[..i] + [path[i]];
      if path[i].name in blocked {
        continue;
      }
      if EffectiveDeps(pipeline, path[i], family) <= completed {
        out := out + [path[i]];
      }
    }
    assert path[..|path|] == path;
    forall s ensures s in out <==>
              s in pipeline && family in s.families && IsReady(pipeline, family, completed, dispatched, s)
    {
      ReadyMember(path, pipeline, family, completed, dispatched, s);
      StagesForMember(pipeline, family, s);
    }
  }

  // ---------------------------------------------------------------- well-formed pipelines

  ghost predicate DistinctNames(stages: seq<Stage>) {
    forall i, j :: 0 <= i < j < |stages| ==> stages[i].name != stages[j].name
  }

  /** Declaration order is topological. */
  ghost predicate Topological(pipeline: seq<Stage>) {
    forall i :: 0 <= i < |pipeline| ==> pipeline[i].dependsOn <= Names(pipeline[..i])
  }

  ghost predicate LocallyValid(pipeline: seq<Stage>) {
    forall s :: s in pipeline ==>
      s.dependsOn <= Names(pipeline) && s.families != {} && s.maxAttempts >= 1
  }

  /** A set of path stages that block each other for ever: each waits for a member. */
  ghost predicate Stuck(pipeline: seq<Stage>, family: Family, stuck: set<StageName>) {
    && stuck != {}
    && stuck <= PathNames(pipeline, family)
    && forall s :: s in StagesFor(pipeline, family) && s.name in stuck ==>
         EffectiveDeps(pipeline, s, family) * stuck != {}
  }

  ghost predicate Finishable(pipeline: seq<Stage>, family: Family) {
    && TERMINAL_STAGE in PathNames(pipeline, family)
    && !exists stuck :: Stuck(pipeline, family, stuck)
  }

  ghost predicate ValidPipeline(pipeline: seq<Stage>) {
    && LocallyValid(pipeline)
    && Topological(pipeline)
    && forall family :: Finishable(pipeline, family)
  }

  datatype Rejection =
    | UnknownDependency(stage: StageName)
    | NoFamily(stage: StageName)
    | TooFewAttempts(stage: StageName)
    | DeclaredTooEarly(stage: StageName)
    | EmptyPath(family: Family)
    | NoTerminal(family: Family)
    | Deadlock(family: Family)

  /** On a family's path of distinct names, effective dependencies come strictly earlier. */
  lemma {:induction false} DepsPrecede(pipeline: seq<Stage>, family: Family, j: nat)
    requires DistinctNames(pipeline) && Topological(pipeline)
    requires j < |StagesFor(pipeline, family)|
    ensures EffectiveDeps(pipeline, StagesFor(pipeline, family)[j], family)
            <= Names(StagesFor(pipeline, family)[..j])
  {
    var path := StagesFor(pipeline, family);
    StagesForMember(pipeline, family, path[j]);
    var i :| 0 <= i < |pipeline| && pipeline[i] == path[j];
    PathSplit(pipeline, family, i);
    var front := StagesFor(pipeline[..i], family);
    PathDistinct(pipeline, family);
    assert path[|front|] == pipeline[i];
    assert |front| == j;
    assert front == path[..j];
    forall d | d in EffectiveDeps(pipeline, path[j], family)
      ensures d in Names(path[..j])
    {
      var earlier :| earlier in pipeline[..i] && earlier.name == d;
      var onPath :| onPath in path && onPath.name == d;
      StagesForMember(pipeline, family, onPath);
      assert onPath in pipeline && earlier in pipeline;
      assert onPath == earlier;
      StagesForMember(pipeline[..i], family, onPath);
    }
  }

  lemma {:induction false} PathSplit(pipeline: seq<Stage>, family: Family, i: nat)
    requires i < |pipeline| && family in pipeline[i].families
    ensures StagesFor(pipeline, family)
         == StagesFor(pipeline[..i], family) + [pipeline[i]] + StagesFor(pipeline[i + 1..], family)
  {
    assert pipeline == pipeline[..i] + pipeline[i..];
    StagesForAppend(pipeline[..i], pipeline[i..], family);
    assert pipeline[i..][1..] == pipeline[i + 1..];
  }

  lemma {:induction false} PathDistinct(pipeline: seq<Stage>, family: Family)
    requires DistinctNames(pipeline)
    ensures DistinctNames(StagesFor(pipeline, family))
  {
    if pipeline != [] {
      PathDistinct(pipeline[1..], family);
      var rest := StagesFor(pipeline[1..], family);
      forall j | 0 <= j < |rest| ensures rest[j].name != pipeline[0].name {
        StagesForMember(pipeline[1..], family, rest[j]);
        assert rest[j] in pipeline[1..];
      }
    }
  }

  /** Scheduling never starves: with distinct names and topological declaration
      order nothing can block itself, whatever the family. */
  lemma NothingIsStuck(pipeline: seq<Stage>, family: Family, stuck: set<StageName>)
    requires DistinctNames(pipeline) && Topological(pipeline)
    ensures !Stuck(pipeline, family, stuck)
  {
    if stuck != {} && stuck <= PathNames(pipeline, family) {
      var path := StagesFor(pipeline, family);
      var n :| n in stuck;
      var j := FirstIn(path, stuck);
      DepsPrecede(pipeline, family, j);
      assert Names(path[..j]) * stuck == {};
      assert path[j] in path && EffectiveDeps(pipeline, path[j], family) * stuck == {};
    }
  }

  lemma FirstIn(path: seq<Stage>, names: set<StageName>) returns (j: nat)
    requires names * Names(path) != {}
    ensures j < |path| && path[j].name in names
    ensures forall i :: 0 <= i < j ==> path[i].name !in names
  {
    if path[0].name in names {
      j := 0;
    } else {
      assert path == [path[0]] + path[1..];
      assert names * Names(path) <= Names(path[1..]);
      var k := FirstIn(path[1..], names);
      j := k + 1;
    }
  }

  /** An unfinished run always has a next stage. */
  lemma ReadyEmptyIffComplete(pipeline: seq<Stage>, family: Family, completed: set<StageName>)
    requires DistinctNames(pipeline) && Topological(pipeline)
    ensures Ready(pipeline, family, completed, {}) == [] <==> IsComplete(pipeline, family, completed)
  {
    var path := StagesFor(pipeline, family);
    var ready := Ready(pipeline, family, completed, {});
    assert ready != [] ==> ready[0] in ready;
    if IsComplete(pipeline, family, completed) {
      forall s ensures s !in ready {
        ReadyMember(path, pipeline, family, completed, {}, s);
        assert s in path ==> s.name in Names(path);
      }
    } else {
      var stuck := Names(path) - completed;
      NothingIsStuck(pipeline, family, stuck);
      var s :| s in path && s.name in stuck && EffectiveDeps(pipeline, s, family) * stuck == {};
      assert EffectiveDeps(pipeline, s, family) <= Names(path);
      forall d | d in EffectiveDeps(pipeline, s, family) ensures d in completed {
        assert d !in EffectiveDeps(pipeline, s, family) * stuck;
      }
      ReadyMember(path, pipeline, family, completed, {}, s);
    }
  }
}
