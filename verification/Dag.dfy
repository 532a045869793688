/** The shape that makes hand-off between concurrent stages safe, and the proof
    that the shipped pipeline has it for every family. */
module Dag {
  import opened Stages

  /** Every run starts here. */
  const ENTRY_STAGE: StageName := Detect

  /** The stage with this name; the first one, as names are distinct in every use. */
  function Lookup(path: seq<Stage>, name: StageName): (s: Stage)
    requires name in Names(path)
    ensures s in path && s.name == name
  {
    if path[0].name == name then path[0]
    else
      assert path == [path[0]] + path[1..];
      Lookup(path[1..], name)
  }

  lemma {:induction false} LookupUnique(path: seq<Stage>, s: Stage)
    requires DistinctNames(path) && s in path
    ensures Lookup(path, s.name) == s
  {
    var t := Lookup(path, s.name);
    var i :| 0 <= i < |path| && path[i] == s;
    var j :| 0 <= j < |path| && path[j] == t;
  }

  /** What the stage called `name` waits for on this family's path. */
  ghost function Deps(pipeline: seq<Stage>, family: Family, name: StageName): set<StageName> {
    var path := StagesFor(pipeline, family);
    if name in Names(path) then EffectiveDeps(pipeline, Lookup(path, name), family) else {}
  }

  /** Position on the path; off the path, its length. */
  ghost function Rank(path: seq<Stage>, name: StageName): nat {
    if path == [] || path[0].name == name then 0 else 1 + Rank(path[1..], name)
  }

  /** `u` has to finish before `s` can start, directly or through other stages. */
  ghost predicate Ancestor(pipeline: seq<Stage>, family: Family, u: StageName, s: StageName)
    decreases Rank(StagesFor(pipeline, family), s)
  {
    || u in Deps(pipeline, family, s)
    || exists d ::
         && d in Deps(pipeline, family, s)
         && Rank(StagesFor(pipeline, family), d) < Rank(StagesFor(pipeline, family), s)
         && Ancestor(pipeline, family, u, d)
  }

  /** One entry stage, from which everything else hangs. */
  ghost predicate Rooted(pipeline: seq<Stage>, family: Family) {
    && ENTRY_STAGE in PathNames(pipeline, family)
    && forall s :: s in PathNames(pipeline, family) ==>
         (Deps(pipeline, family, s) == {} <==> s == ENTRY_STAGE)
  }

  ghost predicate WellFormed(pipeline: seq<Stage>) {
    && DistinctNames(pipeline)
    && Topological(pipeline)
    && (forall s :: s in pipeline ==> s.maxAttempts >= 1)
    && forall family :: Rooted(pipeline, family)
  }

  /** Fork-join: a stage that waits for `t` also waits for everything that can run
      beside `t`. */
  ghost predicate ForkJoin(pipeline: seq<Stage>, family: Family) {
    forall s, t, u ::
      && t in Deps(pipeline, family, s)
      && u in PathNames(pipeline, family)
      && u != t
      && !Ancestor(pipeline, family, u, t)
      && !Ancestor(pipeline, family, t, u)
      ==> Ancestor(pipeline, family, u, s)
  }

  /** Whatever finished, its dependencies finished too. */
  ghost predicate Closed(pipeline: seq<Stage>, family: Family, done: set<StageName>) {
    forall s, d :: s in done && d in Deps(pipeline, family, s) ==> d in done
  }

  lemma {:induction false} AncestorsInClosed(pipeline: seq<Stage>, family: Family, done: set<StageName>,
                                             u: StageName, s: StageName)
    requires Closed(pipeline, family, done) && Deps(pipeline, family, s) <= done
    requires Ancestor(pipeline, family, u, s)
    ensures u in done
    decreases Rank(StagesFor(pipeline, family), s)
  {
    if u !in Deps(pipeline, family, s) {
      var d :| && d in Deps(pipeline, family, s)
               && Rank(StagesFor(pipeline, family), d) < Rank(StagesFor(pipeline, family), s)
               && Ancestor(pipeline, family, u, d);
      assert Deps(pipeline, family, d) <= done;
      AncestorsInClosed(pipeline, family, done, u, d);
    }
  }

  lemma {:induction false} RankAtIndex(path: seq<Stage>, j: nat)
    requires DistinctNames(path) && j < |path|
    ensures Rank(path, path[j].name) == j
  {
    if j > 0 {
      assert path[1..][j - 1] == path[j];
      RankAtIndex(path[1..], j - 1);
    }
  }

  lemma {:induction false} DepRankSmaller(pipeline: seq<Stage>, family: Family, s: StageName, d: StageName)
    requires DistinctNames(pipeline) && Topological(pipeline)
    requires d in Deps(pipeline, family, s)
    ensures Rank(StagesFor(pipeline, family), d) < Rank(StagesFor(pipeline, family), s)
    ensures d in PathNames(pipeline, family) && s in PathNames(pipeline, family)
  {
    hide Topological, DistinctNames, StagesFor;
    var path := StagesFor(pipeline, family);
    var stage := Lookup(path, s);
    var j :| 0 <= j < |path| && path[j] == stage;
    PathDistinct(pipeline, family);
    RankAtIndex(path, j);
    DepsPrecede(pipeline, family, j);
    var k :| 0 <= k < |path[..j]| && path[..j][k].name == d;
    RankAtIndex(path, k);
  }

  lemma {:induction false} DepIsAncestor(pipeline: seq<Stage>, family: Family, u: StageName, d: StageName, s: StageName)
    requires DistinctNames(pipeline) && Topological(pipeline)
    requires d in Deps(pipeline, family, s) && (u == d || Ancestor(pipeline, family, u, d))
    ensures Ancestor(pipeline, family, u, s)
  {
    DepRankSmaller(pipeline, family, s, d);
  }

  /** Any closed set of finished stages that is not empty contains the entry stage. */
  lemma {:induction false} EntryInClosed(pipeline: seq<Stage>, family: Family, done: set<StageName>, s: StageName)
    requires WellFormed(pipeline) && Closed(pipeline, family, done)
    requires s in PathNames(pipeline, family) && s != ENTRY_STAGE && Deps(pipeline, family, s) <= done
    ensures ENTRY_STAGE in done
    decreases Rank(StagesFor(pipeline, family), s)
  {
    assert Rooted(pipeline, family);
    var d :| d in Deps(pipeline, family, s);
    if d != ENTRY_STAGE {
      DepRankSmaller(pipeline, family, s, d);
      assert Deps(pipeline, family, d) <= done;
      EntryInClosed(pipeline, family, done, d);
    }
  }

  // ---------------------------------------------------------------- the shipped pipeline

  /** Where each stage of the shipped pipeline is declared. */
  ghost function Slot(name: StageName): nat {
    match name
    case Detect => 0
    case Convert => 1
    case Parse => 2
    case ParseFlow => 3
    case Ocr => 4
    case Tables => 5
    case Figures => 6
    case Chunk => 7
    case Contextualize => 8
    case Embed => 9
    case Named(_) => 10
  }

  ghost function AppliesTo(name: StageName): set<Family> {
    match name
    case Convert => {Office, Web}
    case ParseFlow => {Flow}
    case Parse => PAGED
    case Ocr => PAGED
    case Tables => PAGED
    case Figures => PAGED
    case _ => ALL_FAMILIES
  }

  ghost function Declared(name: StageName): set<StageName> {
    match name
    case Detect => {}
    case Convert => {Detect}
    case Parse => {Detect, Convert}
    case ParseFlow => {Detect}
    case Ocr => {Parse}
    case Tables => {Parse, Ocr}
    case Figures => {Parse, Ocr}
    case Chunk => {Tables, Figures, ParseFlow}
    case Contextualize => {Chunk}
    case Embed => {Contextualize}
    case Named(_) => {}
  }

  ghost predicate SlotOf(p: seq<Stage>, i: nat, n: StageName) {
    && i < |p|
    && p[i].name == n && Slot(n) == i
    && p[i].families == AppliesTo(n)
    && p[i].dependsOn == Declared(n)
    && p[i].maxAttempts >= 1
  }

  /** Each stage of the shipped pipeline sits in its slot. */
  ghost predicate Shipped(p: seq<Stage>) {
    && |p| == 10
    && SlotOf(p, 0, Detect) && SlotOf(p, 1, Convert) && SlotOf(p, 2, Parse) && SlotOf(p, 3, ParseFlow)
    && SlotOf(p, 4, Ocr) && SlotOf(p, 5, Tables) && SlotOf(p, 6, Figures) && SlotOf(p, 7, Chunk)
    && SlotOf(p, 8, Contextualize) && SlotOf(p, 9, Embed)
  }

  lemma PipelineShipped()
    ensures Shipped(PIPELINE)
  {
    FirstSlots();
    LastSlots();
    hide SlotOf;
  }

  lemma FirstSlots()
    ensures SlotOf(PIPELINE, 0, Detect) && SlotOf(PIPELINE, 1, Convert) && SlotOf(PIPELINE, 2, Parse)
    ensures SlotOf(PIPELINE, 3, ParseFlow) && SlotOf(PIPELINE, 4, Ocr)
  {
  }

  lemma LastSlots()
    ensures SlotOf(PIPELINE, 5, Tables) && SlotOf(PIPELINE, 6, Figures) && SlotOf(PIPELINE, 7, Chunk)
    ensures SlotOf(PIPELINE, 8, Contextualize) && SlotOf(PIPELINE, 9, Embed)
  {
  }

  lemma StageInSlot(p: seq<Stage>, s: Stage)
    requires Shipped(p) && s in p
    ensures SlotOf(p, Slot(s.name), s.name) && p[Slot(s.name)] == s
  {
    var i :| 0 <= i < |p| && p[i] == s;
  }

  lemma PathOf(p: seq<Stage>, family: Family, n: StageName)
    requires Shipped(p)
    ensures n in PathNames(p, family) <==> !n.Named? && family in AppliesTo(n)
  {
    if !n.Named? {
      assert SlotOf(p, Slot(n), n);
      StagesForMember(p, family, p[Slot(n)]);
    }
    if n in PathNames(p, family) {
      var s :| s in StagesFor(p, family) && s.name == n;
      StagesForMember(p, family, s);
      StageInSlot(p, s);
    }
  }

  ghost predicate Waits(family: Family, n: StageName, d: StageName) {
    !n.Named? && family in AppliesTo(n) && d in Declared(n) && family in AppliesTo(d)
  }

  lemma DepsOf(p: seq<Stage>, family: Family, n: StageName, d: StageName)
    requires Shipped(p)
    ensures d in Deps(p, family, n) <==> Waits(family, n, d)
  {
    hide Shipped;
    PathOf(p, family, n);
    PathOf(p, family, d);
    if n in PathNames(p, family) {
      var stage := Lookup(StagesFor(p, family), n);
      StagesForMember(p, family, stage);
      StageInSlot(p, stage);
    }
  }

  lemma ShippedTopological(p: seq<Stage>)
    requires Shipped(p)
    ensures DistinctNames(p) && Topological(p)
  {
    forall i | 0 <= i < |p| ensures p[i].dependsOn <= Names(p[..i]) && Slot(p[i].name) == i {
      StageInSlot(p, p[i]);
      forall d | d in p[i].dependsOn ensures d in Names(p[..i]) {
        assert Slot(d) < i;
        assert SlotOf(p, Slot(d), d);
        assert p[..i][Slot(d)] == p[Slot(d)];
      }
    }
  }

  /** Some stage that `s` waits for; on the way down to `t`, if `t` lies below. */
  ghost function Towards(family: Family, t: StageName, s: StageName): (d: StageName)
    requires s != ENTRY_STAGE && !s.Named? && family in AppliesTo(s) && family in AppliesTo(t)
    ensures Waits(family, s, d)
    ensures Level(t) < Level(s) ==> t == d || Level(t) < Level(d) < Level(s)
  {
    match s
    case Convert => Detect
    case Parse => if family in AppliesTo(Convert) then Convert else Detect
    case ParseFlow => Detect
    case Ocr => Parse
    case Tables => Ocr
    case Figures => Ocr
    case Chunk => if family == Flow then ParseFlow else if t == Figures then Figures else Tables
    case Contextualize => Chunk
    case Embed => Contextualize
  }

  /** How deep in the drawing of the DAG a stage sits. */
  ghost function Level(name: StageName): nat {
    match name
    case Detect => 0
    case Convert => 1
    case Parse => 2
    case Ocr => 3
    case ParseFlow => 4
    case Tables => 4
    case Figures => 4
    case Chunk => 5
    case Contextualize => 6
    case Embed => 7
    case Named(_) => 8
  }

  lemma ShippedRooted(p: seq<Stage>, family: Family)
    requires Shipped(p)
    ensures Rooted(p, family)
  {
    PathOf(p, family, ENTRY_STAGE);
    forall s | s in PathNames(p, family)
      ensures Deps(p, family, s) == {} <==> s == ENTRY_STAGE
    {
      PathOf(p, family, s);
      if s == ENTRY_STAGE {
        forall d ensures d !in Deps(p, family, s) {
          DepsOf(p, family, s, d);
        }
      } else {
        DepsOf(p, family, s, Towards(family, s, s));
      }
    }
  }

  /** One edge down from a stage, towards a stage of a lower level. */
  lemma EdgeTowards(p: seq<Stage>, family: Family, t: StageName, u: StageName) returns (d: StageName)
    requires Shipped(p)
    requires t in PathNames(p, family) && u in PathNames(p, family) && Level(t) < Level(u)
    ensures d in Deps(p, family, u) && d in PathNames(p, family)
    ensures t == d || Level(t) < Level(d) < Level(u)
  {
    hide Shipped, PathNames, Deps;
    PathOf(p, family, t);
    PathOf(p, family, u);
    d := Towards(family, t, u);
    DepsOf(p, family, u, d);
    PathOf(p, family, d);
  }

  lemma {:induction false} LowerIsAncestor(p: seq<Stage>, family: Family, t: StageName, u: StageName)
    requires Shipped(p)
    requires t in PathNames(p, family) && u in PathNames(p, family) && Level(t) < Level(u)
    ensures Ancestor(p, family, t, u)
    decreases Level(u)
  {
    hide Shipped, Ancestor, PathNames, Deps, Level;
    ShippedTopological(p);
    var d := EdgeTowards(p, family, t, u);
    if t != d {
      LowerIsAncestor(p, family, t, d);
    }
    DepIsAncestor(p, family, t, d, u);
  }

  /** Every family's path through the shipped pipeline is fork-join: only `tables`
      and `figures` can run side by side, and `chunk` waits for both. */
  lemma ShippedForkJoin(p: seq<Stage>, family: Family)
    requires Shipped(p)
    ensures ForkJoin(p, family)
  {
    hide Shipped, Ancestor, PathNames, Deps;
    ShippedTopological(p);
    forall s, t, u |
      && t in Deps(p, family, s)
      && u in PathNames(p, family)
      && u != t
      && !Ancestor(p, family, u, t)
      && !Ancestor(p, family, t, u)
      ensures Ancestor(p, family, u, s)
    {
      DepRankSmaller(p, family, s, t);
      SameLevel(p, family, t, u);
      DepsOf(p, family, s, t);
      LowerIsAncestor(p, family, u, s);
    }
  }

  lemma {:induction false} SameLevel(p: seq<Stage>, family: Family, t: StageName, u: StageName)
    requires Shipped(p) && t in PathNames(p, family) && u in PathNames(p, family) && t != u
    requires !Ancestor(p, family, u, t) && !Ancestor(p, family, t, u)
    ensures {t, u} == {Tables, Figures}
  {
    PathOf(p, family, t);
    PathOf(p, family, u);
    if Level(t) < Level(u) {
      LowerIsAncestor(p, family, t, u);
    } else if Level(u) < Level(t) {
      LowerIsAncestor(p, family, u, t);
    }
  }

  lemma PipelineWellFormed(family: Family)
    ensures WellFormed(PIPELINE) && ForkJoin(PIPELINE, family)
  {
    PipelineShipped();
    ShippedWellFormed(PIPELINE, family);
  }

  lemma ShippedWellFormed(p: seq<Stage>, family: Family)
    requires Shipped(p)
    ensures WellFormed(p) && ForkJoin(p, family)
  {
    ShippedTopological(p);
    ShippedForkJoin(p, family);
    forall f ensures Rooted(p, f) {
      ShippedRooted(p, f);
    }
    forall s | s in p ensures s.maxAttempts >= 1 {
      StageInSlot(p, s);
    }
  }
}
