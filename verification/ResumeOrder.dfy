/** In which order stages are queued: ready ones as declared, those in flight by name. */
module ResumeOrder {
  import opened Texts
  import opened Stages
  import opened Runner

  // ---------------------------------------------------------------- ready stages

  /** On the path, neither finished nor queued, and no unfinished path stage is waited for. */
  ghost predicate MayStart(pipeline: seq<Stage>, family: Family, completed: set<StageName>,
                           dispatched: set<StageName>, s: Stage)
  {
    && family in s.families && s.name !in completed && s.name !in dispatched
    && forall d :: d in pipeline && family in d.families && d.name in s.dependsOn ==> d.name in completed
  }

  /** `r` are the elements of `s` at the places `at`, in order. */
  ghost predicate Picks<T>(s: seq<T>, at: seq<nat>, r: seq<T>) {
    && |r| == |at| && (forall k :: 0 <= k < |at| ==> at[k] < |s| && r[k] == s[at[k]])
    && forall j, k :: 0 <= j < k < |at| ==> at[j] < at[k]
  }

  lemma MayStartIff(pipeline: seq<Stage>, family: Family, completed: set<StageName>,
                    dispatched: set<StageName>, s: Stage)
    ensures MayStart(pipeline, family, completed, dispatched, s)
       <==> family in s.families && IsReady(pipeline, family, completed, dispatched, s)
  {
    forall d: Stage ensures d in StagesFor(pipeline, family) <==> d in pipeline && family in d.families {
      StagesForMember(pipeline, family, d);
    }
  }

  lemma {:induction false} ReadyAt(front: seq<Stage>, pipeline: seq<Stage>, family: Family,
                                   completed: set<StageName>, dispatched: set<StageName>) returns (at: seq<nat>)
    ensures Picks(front, at, ReadyAmong(StagesFor(front, family), pipeline, family, completed, dispatched))
    ensures forall i: nat :: i in at <==> i < |front| && MayStart(pipeline, family, completed, dispatched, front[i])
  {
    hide MayStart, IsReady, StagesFor, ReadyAmong;
    if front == [] {
      at := [];
      NoneReady(pipeline, family, completed, dispatched);
    } else {
      var before, s := front[..|front| - 1], front[|front| - 1];
      at := ReadyAt(before, pipeline, family, completed, dispatched);
      assert front == before + [s];
      StagesForAppend(before, [s], family);
      PathOfOne(s, family);
      MayStartIff(pipeline, family, completed, dispatched, s);
      if family in s.families {
        ReadyAppend(StagesFor(before, family), s, pipeline, family, completed, dispatched);
      } else {
        assert StagesFor(before, family) + [] == StagesFor(before, family);
      }
      if MayStart(pipeline, family, completed, dispatched, s) {
        at := at + [|before|];
      }
    }
  }

  lemma PathOfOne(s: Stage, family: Family)
    ensures StagesFor([s], family) == if family in s.families then [s] else []
  {
    assert [s][1..] == [];
  }

  lemma NoneReady(pipeline: seq<Stage>, family: Family, completed: set<StageName>, dispatched: set<StageName>)
    ensures ReadyAmong(StagesFor([], family), pipeline, family, completed, dispatched) == []
  {
  }

  ghost predicate ReadyAsDeclared(pipeline: seq<Stage>, family: Family, completed: set<StageName>,
                                  dispatched: set<StageName>, r: seq<Stage>, at: seq<nat>)
  {
    && Picks(pipeline, at, r)
    && forall i: nat :: i in at <==> i < |pipeline| && MayStart(pipeline, family, completed, dispatched, pipeline[i])
  }

  lemma SamePlaces(a: seq<nat>, b: seq<nat>)
    requires forall j, k :: 0 <= j < k < |a| ==> a[j] < a[k]
    requires forall j, k :: 0 <= j < k < |b| ==> b[j] < b[k]
    requires forall i: nat :: i in a <==> i in b
    ensures a == b
  {
    if a != [] {
      assert a[0] in b;
      assert b[0] in a;
      assert a[0] == b[0];
      forall i: nat ensures i in a[1..] <==> i in b[1..] {
        assert i in a[1..] <==> i in a && i != a[0];
        assert i in b[1..] <==> i in b && i != b[0];
      }
      SamePlaces(a[1..], b[1..]);
    } else {
      FirstPlace(b);
    }
  }

  lemma FirstPlace(s: seq<nat>)
    ensures s != [] ==> s[0] in s
  {
  }

  /** The ready stages are those that may start, as declared. */
  lemma {:induction false} ReadyIff(pipeline: seq<Stage>, family: Family, completed: set<StageName>,
                                    dispatched: set<StageName>, r: seq<Stage>)
    ensures r == Ready(pipeline, family, completed, dispatched)
       <==> exists at :: ReadyAsDeclared(pipeline, family, completed, dispatched, r, at)
  {
    hide MayStart, StagesFor, ReadyAmong;
    var at := ReadyAt(pipeline, pipeline, family, completed, dispatched);
    assert ReadyAsDeclared(pipeline, family, completed, dispatched, Ready(pipeline, family, completed, dispatched), at);
    if at' :| ReadyAsDeclared(pipeline, family, completed, dispatched, r, at') {
      SamePlaces(at, at');
    }
  }

  // ---------------------------------------------------------------- the resume plan

  /** A plan names those in flight first, by name, then those that may start, as declared. */
  ghost predicate InPlanOrder(pipeline: seq<Stage>, family: Family, completed: set<StageName>,
                              dispatched: set<StageName>, plan: seq<StageName>, inFlight: nat)
  {
    && inFlight <= |plan|
    && (forall k :: 0 <= k < inFlight ==> plan[k] in dispatched && plan[k] !in completed)
    && (forall j, k :: 0 <= j < k < inFlight ==>
          plan[j] != plan[k] && (TextBefore(Text(plan[j]), Text(plan[k])) || Text(plan[j]) == Text(plan[k])))
    && (forall n :: n in dispatched && n !in completed ==> n in plan[..inFlight])
    && exists r, at ::
         ReadyAsDeclared(pipeline, family, completed, dispatched, r, at) && plan[inFlight..] == NamesOf(r)
  }

  lemma {:induction false} PlanInOrder(pipeline: seq<Stage>, family: Family, completed: set<StageName>,
                                       dispatched: set<StageName>)
    ensures InPlanOrder(pipeline, family, completed, dispatched,
                        ResumePlan(pipeline, family, completed, dispatched), |dispatched - completed|)
  {
    hide MayStart, StagesFor, ReadyAmong, TextBefore, TextAtMost, Text, NamesOf, Runner.Sorted, ReadyAsDeclared;
    var plan := ResumePlan(pipeline, family, completed, dispatched);
    var front, r := Runner.Sorted(dispatched - completed), Ready(pipeline, family, completed, dispatched);
    ReadyIff(pipeline, family, completed, dispatched, r);
    assert plan[..|front|] == front && plan[|front|..] == NamesOf(r);
    forall n ensures n in front <==> n in dispatched && n !in completed {
      assert n in front <==> n in dispatched - completed;
    }
    forall k | 0 <= k < |front| ensures plan[k] == front[k] && plan[k] in front {
    }
    forall j, k | 0 <= j < k < |front|
      ensures plan[j] != plan[k] && (TextBefore(Text(plan[j]), Text(plan[k])) || Text(plan[j]) == Text(plan[k]))
    {
      TextBeforeIff(Text(front[j]), Text(front[k]));
    }
  }

  const BY_NAME := [Chunk, Contextualize, Convert, Detect, Embed, Figures, Ocr, Parse, ParseFlow, Tables]

  lemma BeforeAt(a: string, b: string, p: nat)
    requires p < |a| && p < |b| && a[..p] == b[..p] && a[p] < b[p]
    ensures TextBefore(a, b)
  {
  }

  lemma NeighboursByName(i: nat)
    requires i + 1 < |BY_NAME|
    ensures TextBefore(Text(BY_NAME[i]), Text(BY_NAME[i + 1]))
  {
    hide TextBefore;
    var a, b := Text(BY_NAME[i]), Text(BY_NAME[i + 1]);
    if i == 0 {
      BeforeAt(a, b, 1);
    } else if i == 1 {
      assert a[..3] == b[..3] == "con";
      BeforeAt(a, b, 3);
    } else if i == 7 {
      assert "parse_flow"[..5] == "parse";
      PrefixIsBefore("parse", "parse_flow");
    } else {
      assert a[..0] == b[..0];
      BeforeAt(a, b, 0);
    }
  }

  lemma PrefixIsBefore(a: string, b: string)
    requires a < b
    ensures TextBefore(a, b)
  {
  }

  /** The order of the shipped names. */
  lemma {:induction false} ShippedByName(i: nat, j: nat)
    requires i < j < |BY_NAME|
    ensures TextBefore(Text(BY_NAME[i]), Text(BY_NAME[j]))
    decreases j
  {
    var a, b, c := Text(BY_NAME[i]), Text(BY_NAME[j - 1]), Text(BY_NAME[j]);
    NeighboursByName(j - 1);
    hide *;
    if i < j - 1 {
      ShippedByName(i, j - 1);
      TextBeforeIff(a, b);
      TextBeforeIff(b, c);
      TextBeforeIff(a, c);
      TextTransitive(a, b, c);
      if a == c {
        TextAntisymmetric(a, b);
      }
    }
  }
}
