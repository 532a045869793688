/** What every crash-free run keeps: each live stage is somewhere exactly once. */
module Handoff {
  import opened Stages
  import opened Dag
  import opened Messages
  import opened Runner
  import opened Store
  import opened Protocol

  ghost function MaxAttempts(c: Config, s: StageName): int {
    var path := StagesFor(c.pipeline, c.family);
    if s in Names(path) then Lookup(path, s).maxAttempts else 0
  }

  /** The unfinished stages an activity will still get done. */
  function Holds(a: Activity): set<StageName> {
    match a
    case Completed(_, followers) => Members(StagesOf(followers))
    case Publishing(_, followers) => Members(StagesOf(followers))
    case Finished(_) => {}
    case _ => {a.raw.stage}
  }

  ghost predicate MessageOk(c: Config, m: StageMessage) {
    && m.SameRun(c.origin)
    && m.stage in PathNames(c.pipeline, c.family)
    && 1 <= m.attempt <= MaxAttempts(c, m.stage)
    && (m.stage != ENTRY_STAGE ==> m.family == c.family)
  }

  /** Not finished, and nothing it waits for is missing. */
  ghost predicate Live(c: Config, done: set<StageName>, s: StageName) {
    s !in done && Deps(c.pipeline, c.family, s) <= done
  }

  ghost predicate FollowersOk(c: Config, done: set<StageName>, starts: multiset<StageName>,
                              followers: seq<StageMessage>)
  {
    && followers != []
    && (forall k :: 0 <= k < |followers| ==>
          && MessageOk(c, followers[k])
          && followers[k].attempt == 1
          && followers[k].stage != ENTRY_STAGE
          && Live(c, done, followers[k].stage)
          && starts[followers[k].stage] == 0)
    && (forall k, l :: 0 <= k < l < |followers| ==> followers[k].stage != followers[l].stage)
  }

  ghost predicate ActionOk(c: Config, m: StageMessage, action: Action) {
    action.Retry? ==> action.attempt == m.attempt + 1 && m.attempt + 1 <= MaxAttempts(c, m.stage)
  }

  /** The handler has been called for this attempt. */
  ghost predicate UnderWay(c: Config, done: set<StageName>, known: set<StageName>,
                           starts: multiset<StageName>, m: StageMessage)
  {
    Live(c, done, m.stage) && m.stage in known && starts[m.stage] == m.attempt
  }

  ghost predicate ActOk(c: Config, done: set<StageName>, known: set<StageName>,
                        starts: multiset<StageName>, a: Activity)
  {
    && MessageOk(c, a.raw)
    && match a
       case Queued(queue, m) =>
         && Live(c, done, m.stage)
         && (m.stage in known || m.stage == ENTRY_STAGE)
         && (match queue
             case Work(s) => s == m.stage && starts[m.stage] == m.attempt - 1
             case Tier(_) => starts[m.stage] == m.attempt - 1
             case Dlq(s) => s == m.stage && starts[m.stage] <= m.attempt)
       case Delivered(m) =>
         && Live(c, done, m.stage)
         && (m.stage in known || m.stage == ENTRY_STAGE)
         && starts[m.stage] == m.attempt - 1
       case Completed(_, followers) =>
         && FollowersOk(c, done, starts, followers)
         && forall k :: 0 <= k < |followers| ==> followers[k].stage !in known
       case Publishing(_, followers) =>
         && FollowersOk(c, done, starts, followers)
         && forall k :: 0 <= k < |followers| ==> followers[k].stage in known
       case Finished(_) => true
       case Begun(m) => UnderWay(c, done, known, starts, m)
       case Handled(m, adopted) => UnderWay(c, done, known, starts, m) && adopted == Adopt(c, m)
       case Failing(m, action, _) => UnderWay(c, done, known, starts, m) && ActionOk(c, m, action)
       case Recorded(m, action) => UnderWay(c, done, known, starts, m) && ActionOk(c, m, action)
  }

  ghost predicate ProgressOk(c: Config, done: set<StageName>, known: set<StageName>) {
    && known <= PathNames(c.pipeline, c.family)
    && done <= known
    && (forall s :: s in known ==> Deps(c.pipeline, c.family, s) <= done)
    && (ENTRY_STAGE !in known ==> known == {})
  }

  ghost predicate AllOk(c: Config, done: set<StageName>, known: set<StageName>,
                        starts: multiset<StageName>, acts: seq<Activity>)
  {
    forall i :: 0 <= i < |acts| ==> ActOk(c, done, known, starts, acts[i])
  }

  /** No stage is in two hands. */
  ghost predicate Exclusive(acts: seq<Activity>) {
    forall i, j :: 0 <= i < j < |acts| ==> Holds(acts[i]) !! Holds(acts[j])
  }

  ghost predicate HeldBySome(acts: seq<Activity>, s: StageName) {
    exists i :: 0 <= i < |acts| && s in Holds(acts[i])
  }

  /** No stage is lost: whatever can run is in some hand. */
  ghost predicate Covered(c: Config, done: set<StageName>, acts: seq<Activity>) {
    forall s :: Runnable(c.pipeline, c.family, done, s) ==> HeldBySome(acts, s)
  }

  /** Between a completion that made stages ready and their reservation, nothing
      else of this run is in any hand. */
  ghost predicate Quiet(done: set<StageName>, known: set<StageName>, acts: seq<Activity>) {
    forall i :: 0 <= i < |acts| && acts[i].Completed? ==>
      && done == known
      && forall j :: 0 <= j < |acts| && j != i ==> Holds(acts[j]) == {}
  }

  ghost predicate Core(c: Config, done: set<StageName>, known: set<StageName>,
                       starts: multiset<StageName>, acts: seq<Activity>)
  {
    && ProgressOk(c, done, known)
    && AllOk(c, done, known, starts, acts)
    && Exclusive(acts)
    && Covered(c, done, acts)
    && Quiet(done, known, acts)
  }

  ghost predicate InPublication(acts: seq<Activity>, s: StageName) {
    exists i :: 0 <= i < |acts| && acts[i].Publishing? && s in Holds(acts[i])
  }

  /** First-attempt messages: each stage that was reserved has had exactly one, or is
      still waiting in its publisher's hand. */
  ghost predicate SentOk(known: set<StageName>, acts: seq<Activity>, sent: seq<StageName>) {
    && (forall i, j :: 0 <= i < j < |sent| ==> sent[i] != sent[j])
    && (forall s :: s in sent ==> (s in known || s == ENTRY_STAGE) && !InPublication(acts, s))
    && (forall s :: s in known ==> s in sent || InPublication(acts, s))
    && ENTRY_STAGE in sent
  }

  /** No stage is tried more often than its declaration allows. */
  ghost predicate StartsOk(c: Config, known: set<StageName>, starts: multiset<StageName>) {
    && (forall s :: starts[s] <= MaxAttempts(c, s))
    && (forall s :: s !in known ==> starts[s] == 0)
  }

  /** Every operation so far was one the Postgres store can follow. */
  ghost predicate StoresOk(st: State) {
    && st.rows == PgRunOf(st.ops)
    && st.mem == MemRunOf(st.ops)
    && Disciplined(st.ops)
    && PgSnapshot(st.rows) == MemSnapshot(st.mem)
    && st.succeeded == st.mem.completed
  }

  ghost predicate Inv(c: Config, st: State) {
    && StoresOk(st)
    && Core(c, st.mem.completed, st.mem.dispatched, st.starts, st.acts)
    && SentOk(st.mem.dispatched, st.acts, st.sent)
    && StartsOk(c, st.mem.dispatched, st.starts)
  }

  // ---------------------------------------------------------------- moving between hands

  /** Passing what activity `i` holds to itself and to newly published messages. */
  lemma MoveKeepsCore(c: Config, done: set<StageName>, known: set<StageName>, starts: multiset<StageName>,
                      acts: seq<Activity>, i: nat, after: Activity, published: seq<Activity>)
    requires Core(c, done, known, starts, acts) && i < |acts|
    requires |published| <= 1 && !after.Completed? && (published == [] || !published[0].Completed?)
    requires ActOk(c, done, known, starts, after)
    requires published == [] || ActOk(c, done, known, starts, published[0])
    requires Holds(acts[i]) == Holds(after) + (if published == [] then {} else Holds(published[0]))
    requires published != [] ==> Holds(after) !! Holds(published[0])
    ensures Core(c, done, known, starts, acts[i := after] + published)
  {
    hide ActOk, ProgressOk, Holds, Runnable;
    var acts' := acts[i := after] + published;
    forall j | 0 <= j < |acts'| ensures ActOk(c, done, known, starts, acts'[j]) {
      assert j == |acts| ==> acts'[j] == published[0];
    }
    forall j, k | 0 <= j < k < |acts'| ensures Holds(acts'[j]) !! Holds(acts'[k]) {
      assert j != i && j < |acts| ==> Holds(acts[j]) !! Holds(acts[i]);
      assert k != i && k < |acts| ==> Holds(acts[k]) !! Holds(acts[i]);
    }
    forall s | HeldBySome(acts, s) ensures HeldBySome(acts', s) {
      var j :| 0 <= j < |acts| && s in Holds(acts[j]);
      if j == i {
        assert s in Holds(acts'[i]) || (published != [] && s in Holds(acts'[|acts|]));
      } else {
        assert s in Holds(acts'[j]);
      }
    }
    forall j | 0 <= j < |acts'| && acts'[j].Completed?
      ensures done == known && forall k :: 0 <= k < |acts'| && k != j ==> Holds(acts'[k]) == {}
    {
      assert j < |acts| && acts[j].Completed? && j != i;
      assert Holds(acts[i]) == {};
    }
  }

  lemma DropKeepsCore(c: Config, done: set<StageName>, known: set<StageName>, starts: multiset<StageName>,
                      acts: seq<Activity>, i: nat)
    requires Core(c, done, known, starts, acts) && i < |acts| && Holds(acts[i]) == {} && !acts[i].Completed?
    ensures Core(c, done, known, starts, acts[..i] + acts[i + 1..])
  {
    hide ActOk, ProgressOk, Holds, Runnable;
    var acts' := acts[..i] + acts[i + 1..];
    forall s | HeldBySome(acts, s) ensures HeldBySome(acts', s) {
      var j :| 0 <= j < |acts| && s in Holds(acts[j]);
      assert s in Holds(acts'[if j < i then j else j - 1]);
    }
    forall j | 0 <= j < |acts'| && acts'[j].Completed?
      ensures done == known && forall k :: 0 <= k < |acts'| && k != j ==> Holds(acts'[k]) == {}
    {
      var j0 := if j < i then j else j + 1;
      assert acts[j0].Completed?;
      forall k | 0 <= k < |acts'| && k != j ensures Holds(acts'[k]) == {} {
        var k0 := if k < i then k else k + 1;
        assert acts'[k] == acts[k0];
      }
    }
  }

  lemma MoveKeepsSent(known: set<StageName>, acts: seq<Activity>, acts': seq<Activity>, sent: seq<StageName>)
    requires SentOk(known, acts, sent)
    requires forall s :: InPublication(acts, s) <==> InPublication(acts', s)
    ensures SentOk(known, acts', sent)
  {
  }

  lemma SamePublications(acts: seq<Activity>, i: nat, after: Activity, published: seq<Activity>)
    requires i < |acts| && !acts[i].Publishing? && !after.Publishing?
    requires |published| <= 1 && (published == [] || !published[0].Publishing?)
    ensures forall s :: InPublication(acts, s) <==> InPublication(acts[i := after] + published, s)
  {
    hide Holds;
    var acts' := acts[i := after] + published;
    forall s ensures InPublication(acts, s) <==> InPublication(acts', s) {
      if InPublication(acts, s) {
        var j :| 0 <= j < |acts| && acts[j].Publishing? && s in Holds(acts[j]);
        assert acts'[j] == acts[j];
      }
      if InPublication(acts', s) {
        var j :| 0 <= j < |acts'| && acts'[j].Publishing? && s in Holds(acts'[j]);
        assert j < |acts| && acts'[j] == acts[j];
      }
    }
  }

  // ---------------------------------------------------------------- steps that touch no store

  lemma {:induction false} AttemptsOnPath(c: Config, s: StageName)
    requires ValidConfig(c) && s in PathNames(c.pipeline, c.family)
    ensures s in Names(c.pipeline) && Lookup(c.pipeline, s).maxAttempts == MaxAttempts(c, s)
  {
    var stage := Lookup(StagesFor(c.pipeline, c.family), s);
    StagesForMember(c.pipeline, c.family, stage);
    LookupUnique(c.pipeline, stage);
  }

  /** A step that only passes a stage from one hand to the next keeps the invariant. */
  lemma PassOn(c: Config, st: State, i: nat, after: Activity, published: seq<Activity>)
    requires Inv(c, st) && i < |st.acts|
    requires !st.acts[i].Publishing? && !after.Publishing? && !after.Completed?
    requires |published| <= 1 && (published == [] || (published[0].Queued?))
    requires ActOk(c, st.mem.completed, st.mem.dispatched, st.starts, after)
    requires published == [] || ActOk(c, st.mem.completed, st.mem.dispatched, st.starts, published[0])
    requires Holds(st.acts[i]) == Holds(after) + (if published == [] then {} else Holds(published[0]))
    requires published != [] ==> Holds(after) !! Holds(published[0])
    ensures Inv(c, Move(st, i, after, published))
  {
    MoveKeepsCore(c, st.mem.completed, st.mem.dispatched, st.starts, st.acts, i, after, published);
    SamePublications(st.acts, i, after, published);
    MoveKeepsSent(st.mem.dispatched, st.acts, st.acts[i := after] + published, st.sent);
  }

  lemma ActAt(c: Config, st: State, i: nat)
    requires Inv(c, st) && i < |st.acts|
    ensures ActOk(c, st.mem.completed, st.mem.dispatched, st.starts, st.acts[i])
  {
  }

  predicate Plain(step: Step) {
    || step.Deliver? || step.NoHandler? || step.HandlerReturns? || step.HandlerRaises?
    || step.Reroute? || step.Expire?
  }

  /** What a plain step does to its activity, and that the result is in order. */
  lemma PlainNext(c: Config, st: State, step: Step) returns (after: Activity, published: seq<Activity>)
    requires ValidConfig(c) && Plain(step) && Enabled(c, st, step)
    requires ActOk(c, st.mem.completed, st.mem.dispatched, st.starts, st.acts[step.i])
    ensures Apply(c, st, step) == Move(st, step.i, after, published)
    ensures !st.acts[step.i].Publishing? && !after.Publishing? && !after.Completed?
    ensures |published| <= 1 && (published == [] || (published[0].Queued?))
    ensures ActOk(c, st.mem.completed, st.mem.dispatched, st.starts, after)
    ensures published == [] || ActOk(c, st.mem.completed, st.mem.dispatched, st.starts, published[0])
    ensures Holds(st.acts[step.i]) == Holds(after) + (if published == [] then {} else Holds(published[0]))
    ensures published != [] ==> Holds(after) !! Holds(published[0])
  {
    var a := st.acts[step.i];
    var m := a.raw;
    after, published := Finished(m), [];
    match step
    case Deliver(i) => after := Delivered(m);
    case NoHandler(i) => published := [Queued(Dlq(m.stage), m)];
    case HandlerReturns(i) => after := Handled(m, Adopt(c, m));
    case HandlerRaises(i, failure, error) =>
      AttemptsOnPath(c, m.stage);
      after := Failing(m, PlanFailure(c.pipeline, m, failure), error);
    case Reroute(i) =>
      published := [if a.action.Retry? then Queued(Tier(a.action.delayMs), m.Retried()) else Queued(Dlq(m.stage), m)];
    case Expire(i) => after := Queued(Work(m.stage), m);
  }

  lemma PlainStepKeepsInv(c: Config, st: State, step: Step)
    requires ValidConfig(c) && Inv(c, st) && Enabled(c, st, step) && Plain(step)
    ensures Inv(c, Apply(c, st, step))
  {
    var after, published := PlainNext(c, st, step);
    PassOn(c, st, step.i, after, published);
  }

  lemma SamePublicationsDrop(acts: seq<Activity>, i: nat)
    requires i < |acts| && !acts[i].Publishing?
    ensures forall s :: InPublication(acts, s) <==> InPublication(acts[..i] + acts[i + 1..], s)
  {
    hide Holds;
    var acts' := acts[..i] + acts[i + 1..];
    forall j | 0 <= j < |acts'| ensures acts'[j] == acts[if j < i then j else j + 1] {
    }
    forall s | InPublication(acts, s) ensures InPublication(acts', s) {
      var j :| 0 <= j < |acts| && acts[j].Publishing? && s in Holds(acts[j]);
      PublishedAt(acts', if j < i then j else j - 1, s);
    }
    forall s | InPublication(acts', s) ensures InPublication(acts, s) {
      var j :| 0 <= j < |acts'| && acts'[j].Publishing? && s in Holds(acts'[j]);
      PublishedAt(acts, if j < i then j else j + 1, s);
    }
  }

  lemma PublishedAt(acts: seq<Activity>, j: nat, s: StageName)
    requires j < |acts| && acts[j].Publishing? && s in Holds(acts[j])
    ensures InPublication(acts, s)
  {
  }

  lemma AckKeepsInv(c: Config, st: State, i: nat)
    requires Inv(c, st) && i < |st.acts| && st.acts[i].Finished?
    ensures Inv(c, Drop(st, i))
  {
    DropKeepsCore(c, st.mem.completed, st.mem.dispatched, st.starts, st.acts, i);
    SamePublicationsDrop(st.acts, i);
    MoveKeepsSent(st.mem.dispatched, st.acts, st.acts[..i] + st.acts[i + 1..], st.sent);
  }

  // ---------------------------------------------------------------- steps that commit to the store

  lemma CommitKeepsStores(st: State, op: StoreOp)
    requires StoresOk(st) && Allowed(st.ops, op)
    ensures StoresOk(Commit(st, op))
  {
    var ops := st.ops + [op];
    assert ops[..|ops| - 1] == st.ops;
    StepAgreesIff(st.ops, op);
  }

  lemma AllowedByProgress(st: State, op: StoreOp)
    requires StoresOk(st)
    requires op.BeginStage? || op.FailStage? ==> op.stage !in st.mem.completed
    requires op.FailStage? ==> op.stage in st.mem.dispatched
    ensures Allowed(st.ops, op)
  {
    MemTracksHistory(st.ops);
  }

  /** Counting a call of `s` and giving `s` a row disturbs no other hand. */
  lemma OthersUndisturbed(c: Config, done: set<StageName>, known: set<StageName>, starts: multiset<StageName>,
                          a: Activity, s: StageName)
    requires ActOk(c, done, known, starts, a) && s !in Holds(a)
    ensures ActOk(c, done, known + {s}, starts + multiset{s}, a)
  {
    match a
    case Completed(_, followers) => FollowersHeld(a, followers);
    case Publishing(_, followers) => FollowersHeld(a, followers);
    case _ =>
  }

  lemma FollowersHeld(a: Activity, followers: seq<StageMessage>)
    requires (a.Completed? || a.Publishing?) && a.followers == followers
    ensures forall k :: 0 <= k < |followers| ==> followers[k].stage in Holds(a)
  {
    forall k | 0 <= k < |followers| ensures followers[k].stage in Holds(a) {
      assert StagesOf(followers)[k] in StagesOf(followers);
    }
  }

  lemma HeldIsFollower(a: Activity, s: StageName) returns (k: nat)
    requires (a.Completed? || a.Publishing?) && s in Holds(a)
    ensures k < |a.followers| && a.followers[k].stage == s
  {
    k :| 0 <= k < |a.followers| && StagesOf(a.followers)[k] == s;
  }

  /** A held stage is live and on the path; without a row it is the entry stage or
      waits to be reserved. */
  lemma HeldIsLive(c: Config, done: set<StageName>, known: set<StageName>, starts: multiset<StageName>,
                   a: Activity, s: StageName)
    requires ActOk(c, done, known, starts, a) && s in Holds(a)
    ensures Live(c, done, s) && s in PathNames(c.pipeline, c.family)
    ensures s in known || s == ENTRY_STAGE || a.Completed?
  {
    if a.Completed? || a.Publishing? {
      var k := HeldIsFollower(a, s);
      assert MessageOk(c, a.followers[k]);
    }
  }

  lemma BeginKeepsCore(c: Config, done: set<StageName>, known: set<StageName>, starts: multiset<StageName>,
                       acts: seq<Activity>, i: nat)
    requires Core(c, done, known, starts, acts) && i < |acts| && acts[i].Delivered?
    ensures var m := acts[i].raw;
      Core(c, done, known + {m.stage}, starts + multiset{m.stage}, acts[i := Begun(m)])
  {
    var m := acts[i].raw;
    var known', starts' := known + {m.stage}, starts + multiset{m.stage};
    var acts' := acts[i := Begun(m)];
    assert ActOk(c, done, known, starts, acts[i]);
    forall j | 0 <= j < |acts'| ensures ActOk(c, done, known', starts', acts'[j]) {
      if j != i {
        assert Holds(acts[j]) !! Holds(acts[i]);
        OthersUndisturbed(c, done, known, starts, acts[j], m.stage);
      }
    }
    forall s | HeldBySome(acts, s) ensures HeldBySome(acts', s) {
      var j :| 0 <= j < |acts| && s in Holds(acts[j]);
      assert s in Holds(acts'[j]);
    }
    assert m.stage in Holds(acts[i]);
    assert forall j :: 0 <= j < |acts'| ==> !acts'[j].Completed?;
  }

  /** Beginning a stage gives it a row and counts one call, within what is allowed. */
  lemma BeginCounts(c: Config, done: set<StageName>, known: set<StageName>, starts: multiset<StageName>,
                    acts: seq<Activity>, i: nat, sent: seq<StageName>)
    requires i < |acts| && acts[i].Delivered? && ActOk(c, done, known, starts, acts[i])
    requires SentOk(known, acts, sent) && StartsOk(c, known, starts)
    ensures var s := acts[i].raw.stage;
      && s !in done
      && SentOk(known + {s}, acts[i := Begun(acts[i].raw)], sent)
      && StartsOk(c, known + {s}, starts + multiset{s})
  {
    hide Deps, Holds;
    var after := Begun(acts[i].raw);
    SamePublications(acts, i, after, []);
    assert acts[i := after] + [] == acts[i := after];
  }

  lemma BeginKeepsInv(c: Config, st: State, i: nat)
    requires ValidConfig(c) && Inv(c, st) && Enabled(c, st, Begin(i))
    ensures Inv(c, Apply(c, st, Begin(i)))
  {
    hide Core, ActOk, SentOk, StartsOk, ValidConfig;
    var m := st.acts[i].raw;
    var op := BeginStage(m.stage, m.attempt);
    ActAt(c, st, i);
    BeginCounts(c, st.mem.completed, st.mem.dispatched, st.starts, st.acts, i, st.sent);
    BeginKeepsCore(c, st.mem.completed, st.mem.dispatched, st.starts, st.acts, i);
    AllowedByProgress(st, op);
    CommitKeepsStores(st, op);
    assert st.acts[i := Begun(m)] + [] == st.acts[i := Begun(m)];
  }

  lemma RecordKeepsInv(c: Config, st: State, i: nat)
    requires ValidConfig(c) && Inv(c, st) && Enabled(c, st, RecordFailure(i))
    ensures Inv(c, Apply(c, st, RecordFailure(i)))
  {
    hide Core, StartsOk, SentOk;
    var a := st.acts[i];
    var op := FailStage(a.raw.stage, a.error, a.action.DeadLetter?);
    ActAt(c, st, i);
    AllowedByProgress(st, op);
    CommitKeepsStores(st, op);
    var st' := Commit(st, op);
    assert st'.mem.dispatched == st.mem.dispatched && st'.mem.completed == st.mem.completed;
    PassOn(c, st', i, Recorded(a.raw, a.action), []);
  }

  // ---------------------------------------------------------------- completion

  /** The heart of the hand-off: when a completion makes some stage ready, no other
      stage of the run is in any hand and everything queued so far has finished. */
  lemma CompletionIsQuiet(c: Config, done: set<StageName>, known: set<StageName>, starts: multiset<StageName>,
                          acts: seq<Activity>, i: nat, s: StageName, next: StageName)
    requires ValidConfig(c) && ForkJoin(c.pipeline, c.family)
    requires Core(c, done, known, starts, acts) && i < |acts| && Holds(acts[i]) == {s} && s in known
    requires !acts[i].Completed?
    requires Runnable(c.pipeline, c.family, done + {s}, next) && next !in known
    ensures forall j :: 0 <= j < |acts| && j != i ==> Holds(acts[j]) == {}
    ensures done + {s} == known
  {
    assert ActOk(c, done, known, starts, acts[i]);
    HeldIsLive(c, done, known, starts, acts[i], s);
    if s !in Deps(c.pipeline, c.family, next) {
      assert Runnable(c.pipeline, c.family, done, next);
      var j :| 0 <= j < |acts| && next in Holds(acts[j]);
      assert ActOk(c, done, known, starts, acts[j]);
      HeldIsLive(c, done, known, starts, acts[j], next);
      assert false;
    }
    forall j | 0 <= j < |acts| && j != i ensures Holds(acts[j]) == {} {
      forall u | u in Holds(acts[j]) ensures false {
        assert ActOk(c, done, known, starts, acts[j]);
        HeldIsLive(c, done, known, starts, acts[j], u);
        assert Holds(acts[i]) !! Holds(acts[j]);
        BesideIsUpstream(c, done, s, u, next);
      }
    }
    forall n | n in known ensures n in done + {s} {
      if n !in done {
        assert Runnable(c.pipeline, c.family, done, n);
        var j :| 0 <= j < |acts| && n in Holds(acts[j]);
        assert j == i;
      }
    }
  }

  /** With `s` finishing, a stage `u` still live beside it would be upstream of
      anything that waits for `s`, so nothing that waits for `s` could be ready. */
  lemma BesideIsUpstream(c: Config, done: set<StageName>, s: StageName, u: StageName, next: StageName)
    requires ForkJoin(c.pipeline, c.family) && Closed(c.pipeline, c.family, done)
    requires Live(c, done, s) && Live(c, done, u) && u != s
    requires u in PathNames(c.pipeline, c.family)
    requires s in Deps(c.pipeline, c.family, next)
    ensures !(Deps(c.pipeline, c.family, next) <= done + {s})
  {
    if Ancestor(c.pipeline, c.family, u, s) {
      AncestorsInClosed(c.pipeline, c.family, done, u, s);
    }
    if Ancestor(c.pipeline, c.family, s, u) {
      AncestorsInClosed(c.pipeline, c.family, done, s, u);
    }
    assert Ancestor(c.pipeline, c.family, u, next);
    if Deps(c.pipeline, c.family, next) <= done + {s} {
      assert Closed(c.pipeline, c.family, done + {s});
      AncestorsInClosed(c.pipeline, c.family, done + {s}, u, next);
    }
  }

  lemma {:induction false} HandOffStages(m: StageMessage, stages: seq<Stage>)
    ensures StagesOf(HandOff(m, stages)) == NamesOf(stages)
  {
    if stages != [] {
      HandOffStages(m, stages[1..]);
      assert HandOff(m, stages)[1..] == HandOff(m, stages[1..]);
    }
  }

  /** The followers of a completion are exactly the stages that are ready and not yet queued. */
  lemma FollowerNames(c: Config, done: set<StageName>, known: set<StageName>, m: StageMessage)
    requires ValidConfig(c) && m.family == c.family
    ensures var followers := NextMessages(c.pipeline, m, done, known);
      && (forall n :: n in Members(StagesOf(followers)) <==> Runnable(c.pipeline, c.family, done, n) && n !in known)
      && (forall k, l :: 0 <= k < l < |followers| ==> followers[k].stage != followers[l].stage)
  {
    var ready := Ready(c.pipeline, c.family, done, known);
    ReadyNames(c.pipeline, c.family, done, known);
    HandOffStages(m, ready);
    HandOffAt(m, ready);
    forall n ensures n in Members(StagesOf(HandOff(m, ready))) <==> n in Names(ready) {
      NamesOfMember(ready, n);
    }
  }

  lemma FollowersAreReady(c: Config, done: set<StageName>, known: set<StageName>, starts: multiset<StageName>,
                          m: StageMessage)
    requires ValidConfig(c) && StartsOk(c, known, starts)
    requires m.SameRun(c.origin) && m.family == c.family
    requires ENTRY_STAGE in known
    ensures var followers := NextMessages(c.pipeline, m, done, known);
      && (followers != [] ==> FollowersOk(c, done, starts, followers))
      && (forall k :: 0 <= k < |followers| ==> followers[k].stage !in known)
  {
    var ready := Ready(c.pipeline, c.family, done, known);
    var followers := NextMessages(c.pipeline, m, done, known);
    FollowerNames(c, done, known, m);
    HandOffAt(m, ready);
    forall k | 0 <= k < |followers|
      ensures MessageOk(c, followers[k]) && followers[k].attempt == 1
      ensures Live(c, done, followers[k].stage) && followers[k].stage !in known
    {
      assert StagesOf(followers)[k] in Members(StagesOf(followers));
      AttemptsOnPath(c, ready[k].name);
    }
  }

  lemma FinishingDisturbsNobody(c: Config, done: set<StageName>, known: set<StageName>, starts: multiset<StageName>,
                                a: Activity, s: StageName)
    requires ActOk(c, done, known, starts, a) && s !in Holds(a)
    ensures ActOk(c, done + {s}, known, starts, a)
  {
    match a
    case Completed(_, followers) => FollowersHeld(a, followers);
    case Publishing(_, followers) => FollowersHeld(a, followers);
    case _ =>
  }

  /** After a completion every runnable stage is still in some hand. */
  lemma CompleteKeepsCovered(c: Config, done: set<StageName>, known: set<StageName>, acts: seq<Activity>,
                             i: nat, s: StageName, after: Activity)
    requires Covered(c, done, acts) && i < |acts| && Holds(acts[i]) == {s}
    requires forall n :: n in known ==> Deps(c.pipeline, c.family, n) <= done
    requires forall n :: Runnable(c.pipeline, c.family, done + {s}, n) && n !in known ==> n in Holds(after)
    ensures Covered(c, done + {s}, acts[i := after])
  {
    var acts' := acts[i := after];
    forall n | Runnable(c.pipeline, c.family, done + {s}, n) ensures HeldBySome(acts', n) {
      if n in known {
        assert Runnable(c.pipeline, c.family, done, n);
        var j :| 0 <= j < |acts| && n in Holds(acts[j]);
        assert n in Holds(acts'[j]);
      } else {
        assert n in Holds(acts'[i]);
      }
    }
  }

  /** The hand that finishes a stage takes on exactly the stages this makes ready. */
  lemma FinisherTakesFollowers(c: Config, done: set<StageName>, known: set<StageName>, starts: multiset<StageName>,
                               a: Activity)
    requires ValidConfig(c) && ProgressOk(c, done, known) && StartsOk(c, known, starts)
    requires a.Handled? && ActOk(c, done, known, starts, a)
    ensures var done' := done + {a.raw.stage};
      var after := AfterComplete(a.raw, NextMessages(c.pipeline, a.adopted, done', known));
      && ProgressOk(c, done', known) && ActOk(c, done', known, starts, after) && Holds(a) == {a.raw.stage}
      && (forall n :: n in Holds(after) <==> Runnable(c.pipeline, c.family, done', n) && n !in known)
      && (after.Finished? || (after.Completed? && Holds(after) != {}))
  {
    hide Runnable, NextMessages, Deps, PathNames, PlanFailure;
    var done' := done + {a.raw.stage};
    var followers := NextMessages(c.pipeline, a.adopted, done', known);
    FollowersAreReady(c, done', known, starts, a.adopted);
    FollowerNames(c, done', known, a.adopted);
    if followers != [] {
      assert followers[0].stage == StagesOf(followers)[0];
    }
  }

  lemma CompleteKeepsCore(c: Config, done: set<StageName>, known: set<StageName>, starts: multiset<StageName>,
                          acts: seq<Activity>, i: nat)
    requires ValidConfig(c) && ForkJoin(c.pipeline, c.family)
    requires Core(c, done, known, starts, acts) && StartsOk(c, known, starts)
    requires i < |acts| && acts[i].Handled?
    ensures var m := acts[i].raw;
      var done' := done + {m.stage};
      var followers := NextMessages(c.pipeline, acts[i].adopted, done', known);
      Core(c, done', known, starts, acts[i := AfterComplete(m, followers)])
  {
    hide ActOk, Runnable, NextMessages, AfterComplete, Holds, StartsOk, ValidConfig, ForkJoin, Covered, Quiet;
    var s := acts[i].raw.stage;
    var done' := done + {s};
    var after := AfterComplete(acts[i].raw, NextMessages(c.pipeline, acts[i].adopted, done', known));
    var acts' := acts[i := after];
    FinisherTakesFollowers(c, done, known, starts, acts[i]);
    forall j | 0 <= j < |acts'| ensures ActOk(c, done', known, starts, acts'[j]) {
      if j != i {
        assert Holds(acts[j]) !! Holds(acts[i]);
        FinishingDisturbsNobody(c, done, known, starts, acts[j], s);
      }
    }
    CompleteKeepsCovered(c, done, known, acts, i, s, after);
    CompleteIsExclusive(c, done, known, starts, acts, i, after);
  }

  lemma CompleteIsExclusive(c: Config, done: set<StageName>, known: set<StageName>, starts: multiset<StageName>,
                            acts: seq<Activity>, i: nat, after: Activity)
    requires ValidConfig(c) && ForkJoin(c.pipeline, c.family)
    requires Core(c, done, known, starts, acts) && i < |acts| && acts[i].Handled?
    requires after.Finished? || after.Completed?
    requires forall n :: n in Holds(after) ==>
      Runnable(c.pipeline, c.family, done + {acts[i].raw.stage}, n) && n !in known
    requires after.Completed? ==> Holds(after) != {}
    ensures Exclusive(acts[i := after]) && Quiet(done + {acts[i].raw.stage}, known, acts[i := after])
  {
    hide Runnable, ForkJoin, ValidConfig, Covered, StartsOk, NextMessages, PathNames, Deps;
    var s := acts[i].raw.stage;
    var acts' := acts[i := after];
    assert ActOk(c, done, known, starts, acts[i]);
    assert s in Holds(acts[i]);
    assert forall j :: 0 <= j < |acts'| && j != i ==> !acts'[j].Completed?;
    if after.Completed? {
      var next :| next in Holds(after);
      CompletionIsQuiet(c, done, known, starts, acts, i, s, next);
    }
  }

  lemma HandledIsKnown(c: Config, st: State, i: nat)
    requires Inv(c, st) && i < |st.acts| && st.acts[i].Handled?
    ensures st.acts[i].raw.stage in st.mem.dispatched
  {
    ActAt(c, st, i);
  }

  lemma CompleteKeepsInv(c: Config, st: State, i: nat)
    requires ValidConfig(c) && ForkJoin(c.pipeline, c.family)
    requires Inv(c, st) && Enabled(c, st, Complete(i))
    ensures Inv(c, Apply(c, st, Complete(i)))
  {
    hide Core, SentOk, StartsOk, ActOk, NextMessages, StagesFor;
    var a := st.acts[i];
    var op := CompleteStage(a.raw.stage);
    var st' := Commit(st, op);
    CommitKeepsStores(st, op);
    HandledIsKnown(c, st, i);
    assert st'.mem.dispatched == st.mem.dispatched && st'.mem.completed == st.mem.completed + {a.raw.stage};
    var snapshot := TakeSnapshot(c, st');
    assert snapshot == MemSnapshot(st'.mem);
    var followers := NextMessages(c.pipeline, a.adopted, snapshot.completed, snapshot.dispatched);
    var after := AfterComplete(a.raw, followers);
    CompleteKeepsCore(c, st.mem.completed, st.mem.dispatched, st.starts, st.acts, i);
    SamePublications(st.acts, i, after, []);
    MoveKeepsSent(st.mem.dispatched, st.acts, st.acts[i := after] + [], st.sent);
    assert st.acts[i := after] + [] == st.acts[i := after];
  }

  // ---------------------------------------------------------------- reservation and publication

  lemma BusyHolds(c: Config, done: set<StageName>, known: set<StageName>, starts: multiset<StageName>, a: Activity)
    requires ActOk(c, done, known, starts, a) && (a.Completed? || a.Publishing?)
    ensures a.followers != [] && a.followers[0].stage in Holds(a)
  {
    FollowersHeld(a, a.followers);
  }

  /** Who holds nothing has nothing left to check. */
  lemma IdleIsFinished(c: Config, done: set<StageName>, known: set<StageName>, starts: multiset<StageName>, a: Activity)
    requires ActOk(c, done, known, starts, a) && Holds(a) == {}
    ensures a.Finished?
  {
    if a.Completed? || a.Publishing? {
      BusyHolds(c, done, known, starts, a);
    }
  }

  lemma ReserveKeepsCore(c: Config, done: set<StageName>, known: set<StageName>, starts: multiset<StageName>,
                         acts: seq<Activity>, i: nat)
    requires ValidConfig(c)
    requires Core(c, done, known, starts, acts) && i < |acts| && acts[i].Completed?
    ensures Core(c, done, known + Holds(acts[i]), starts, acts[i := Publishing(acts[i].raw, acts[i].followers)])
  {
    hide Runnable, MaxAttempts, ProgressOk;
    var a := acts[i];
    var after := Publishing(a.raw, a.followers);
    var known' := known + Holds(a);
    var acts' := acts[i := after];
    assert ActOk(c, done, known, starts, a);
    FollowersHeld(a, a.followers);
    assert Holds(after) == Holds(a);
    forall j | 0 <= j < |acts'| && j != i ensures ActOk(c, done, known', starts, acts'[j]) && acts'[j].Finished? {
      IdleIsFinished(c, done, known, starts, acts[j]);
    }
    forall s | HeldBySome(acts, s) ensures HeldBySome(acts', s) {
      var j :| 0 <= j < |acts| && s in Holds(acts[j]);
      assert s in Holds(acts'[j]);
    }
    ReserveKeepsProgress(c, done, known, starts, a);
  }

  lemma ReserveKeepsProgress(c: Config, done: set<StageName>, known: set<StageName>, starts: multiset<StageName>,
                             a: Activity)
    requires ValidConfig(c) && ProgressOk(c, done, known) && a.Completed? && ActOk(c, done, known, starts, a)
    ensures ProgressOk(c, done, known + Holds(a))
  {
    forall s | s in Holds(a)
      ensures s in PathNames(c.pipeline, c.family) && Deps(c.pipeline, c.family, s) <= done
      ensures ENTRY_STAGE in known
    {
      var k := HeldIsFollower(a, s);
      assert MessageOk(c, a.followers[k]);
      assert Rooted(c.pipeline, c.family);
      var d :| d in Deps(c.pipeline, c.family, s);
      assert d in known;
    }
  }

  lemma ReserveKeepsSent(known: set<StageName>, acts: seq<Activity>, sent: seq<StageName>, i: nat)
    requires SentOk(known, acts, sent) && i < |acts| && acts[i].Completed?
    requires Holds(acts[i]) !! known + {ENTRY_STAGE}
    ensures SentOk(known + Holds(acts[i]), acts[i := Publishing(acts[i].raw, acts[i].followers)], sent)
  {
    var a := acts[i];
    var acts' := acts[i := Publishing(a.raw, a.followers)];
    assert Holds(acts'[i]) == Holds(a);
    forall s ensures InPublication(acts', s) <==> InPublication(acts, s) || s in Holds(a) {
      if s in Holds(a) {
        PublishedAt(acts', i, s);
      }
      if InPublication(acts, s) {
        var j :| 0 <= j < |acts| && acts[j].Publishing? && s in Holds(acts[j]);
        PublishedAt(acts', j, s);
      }
      if InPublication(acts', s) && s !in Holds(a) {
        var j :| 0 <= j < |acts'| && acts'[j].Publishing? && s in Holds(acts'[j]);
        PublishedAt(acts, j, s);
      }
    }
  }

  /** Followers waiting to be reserved have no row and are not the entry stage. */
  lemma UnreservedIsNew(c: Config, done: set<StageName>, known: set<StageName>, starts: multiset<StageName>,
                        a: Activity)
    requires ActOk(c, done, known, starts, a) && a.Completed?
    ensures Holds(a) !! known + {ENTRY_STAGE}
  {
    forall s | s in Holds(a) ensures s !in known && s != ENTRY_STAGE {
      var k := HeldIsFollower(a, s);
    }
  }

  lemma ReserveKeepsInv(c: Config, st: State, i: nat)
    requires ValidConfig(c) && Inv(c, st) && Enabled(c, st, Reserve(i))
    ensures Inv(c, Apply(c, st, Reserve(i)))
  {
    hide ActOk, ProgressOk, Exclusive, Covered, Quiet, SentOk, StoresOk, Holds;
    var a := st.acts[i];
    var known := st.mem.dispatched;
    var st' := Apply(c, st, Reserve(i));
    AfterReserve(c, st, i);
    CommitKeepsStores(st, MarkDispatched(StagesOf(a.followers)));
    ReserveKeepsCore(c, st.mem.completed, known, st.starts, st.acts, i);
    UnreservedIsNew(c, st.mem.completed, known, st.starts, a);
    ReserveKeepsSent(known, st.acts, st.sent, i);
  }

  /** A reservation moves what the activity holds into the known stages, and nothing else. */
  lemma AfterReserve(c: Config, st: State, i: nat)
    requires Enabled(c, st, Reserve(i))
    ensures var a := st.acts[i];
      var st' := Apply(c, st, Reserve(i));
      var op := MarkDispatched(StagesOf(a.followers));
      && (StoresOk(Commit(st, op)) ==> StoresOk(st')) && Allowed(st.ops, op)
      && st'.mem.completed == st.mem.completed && st'.mem.dispatched == st.mem.dispatched + Holds(a)
      && st'.starts == st.starts && st'.sent == st.sent
      && st'.acts == st.acts[i := Publishing(a.raw, a.followers)]
  {
    hide PgApply, NextMessages, Runnable, Deps;
  }

  lemma PublishedMoves(acts: seq<Activity>, acts': seq<Activity>, i: nat, next: StageName, s: StageName)
    requires Exclusive(acts) && i < |acts| && |acts'| == |acts| + 1
    requires acts[i].Publishing? && next in Holds(acts[i])
    requires forall j :: 0 <= j < |acts| && j != i ==> acts'[j] == acts[j]
    requires !acts'[|acts|].Publishing?
    requires if acts'[i].Publishing? then Holds(acts'[i]) == Holds(acts[i]) - {next} else Holds(acts[i]) == {next}
    ensures InPublication(acts', s) <==> InPublication(acts, s) && s != next
  {
    hide Holds;
    if InPublication(acts, s) && s != next {
      var j :| 0 <= j < |acts| && acts[j].Publishing? && s in Holds(acts[j]);
      PublishedAt(acts', j, s);
    }
    if InPublication(acts', s) {
      var j :| 0 <= j < |acts'| && acts'[j].Publishing? && s in Holds(acts'[j]);
      assert j < |acts|;
      PublishedAt(acts, j, s);
      assert j != i ==> Holds(acts[i]) !! Holds(acts[j]);
    }
  }

  lemma PublishKeepsSent(known: set<StageName>, acts: seq<Activity>, acts': seq<Activity>, sent: seq<StageName>,
                         i: nat, next: StageName)
    requires SentOk(known, acts, sent) && Exclusive(acts) && i < |acts| && |acts'| == |acts| + 1
    requires acts[i].Publishing? && next in Holds(acts[i]) && next in known
    requires forall j :: 0 <= j < |acts| && j != i ==> acts'[j] == acts[j]
    requires !acts'[|acts|].Publishing?
    requires if acts'[i].Publishing? then Holds(acts'[i]) == Holds(acts[i]) - {next} else Holds(acts[i]) == {next}
    ensures SentOk(known, acts', sent + [next])
  {
    forall s ensures InPublication(acts', s) <==> InPublication(acts, s) && s != next {
      PublishedMoves(acts, acts', i, next, s);
    }
    PublishedAt(acts, i, next);
    assert next !in sent;
  }

  /** Publishing the head leaves the tail. */
  lemma PublishHolds(c: Config, done: set<StageName>, starts: multiset<StageName>, a: Activity)
    requires a.Publishing? && FollowersOk(c, done, starts, a.followers)
    ensures var next, rest := a.followers[0].stage, a.followers[1..];
      && Holds(AfterPublish(a.raw, rest)) == Holds(a) - {next}
      && next in Holds(a)
      && (rest != [] ==> FollowersOk(c, done, starts, rest))
      && (rest == [] ==> Holds(a) == {next})
  {
    hide MessageOk, Live;
    FirstIsNotAgain(a.followers);
  }

  lemma {:induction false} FirstIsNotAgain(followers: seq<StageMessage>)
    requires followers != []
    requires forall k, l :: 0 <= k < l < |followers| ==> followers[k].stage != followers[l].stage
    ensures Members(StagesOf(followers)) == {followers[0].stage} + Members(StagesOf(followers[1..]))
    ensures followers[0].stage !in Members(StagesOf(followers[1..]))
  {
    var rest := followers[1..];
    assert StagesOf(followers) == [followers[0].stage] + StagesOf(rest);
    forall s | s in StagesOf(rest) ensures s != followers[0].stage {
      var k :| 0 <= k < |rest| && StagesOf(rest)[k] == s;
      assert rest[k] == followers[k + 1];
    }
  }

  lemma PublishActsOk(c: Config, done: set<StageName>, known: set<StageName>, starts: multiset<StageName>, a: Activity)
    requires a.Publishing? && ActOk(c, done, known, starts, a)
    ensures var next := a.followers[0];
      && ActOk(c, done, known, starts, AfterPublish(a.raw, a.followers[1..]))
      && ActOk(c, done, known, starts, Queued(Work(next.stage), next))
  {
    PublishHolds(c, done, starts, a);
  }

  /** What publishing the next follower does to the publisher's hand. */
  lemma PublishSplits(c: Config, done: set<StageName>, known: set<StageName>, starts: multiset<StageName>, a: Activity)
    requires a.Publishing? && ActOk(c, done, known, starts, a)
    ensures var next, after := a.followers[0], AfterPublish(a.raw, a.followers[1..]);
      var message := Queued(Work(next.stage), next);
      && ActOk(c, done, known, starts, after) && ActOk(c, done, known, starts, message) && !after.Completed?
      && next.stage in Holds(a) && next.stage in known
      && Holds(a) == Holds(after) + Holds(message) && Holds(after) !! Holds(message)
      && (if after.Publishing? then Holds(after) == Holds(a) - {next.stage} else Holds(a) == {next.stage})
  {
    PublishHolds(c, done, starts, a);
    PublishActsOk(c, done, known, starts, a);
  }

  lemma PublishKeepsInv(c: Config, st: State, i: nat)
    requires ValidConfig(c) && Inv(c, st) && Enabled(c, st, PublishNext(i))
    ensures Inv(c, Apply(c, st, PublishNext(i)))
  {
    hide AllOk, ProgressOk, Covered, Quiet, SentOk, StartsOk, ActOk, Holds, Deps;
    var a := st.acts[i];
    ActAt(c, st, i);
    var next := a.followers[0];
    var after := AfterPublish(a.raw, a.followers[1..]);
    var message := Queued(Work(next.stage), next);
    var done, known := st.mem.completed, st.mem.dispatched;
    PublishSplits(c, done, known, st.starts, a);
    MoveKeepsCore(c, done, known, st.starts, st.acts, i, after, [message]);
    PublishKeepsSent(known, st.acts, st.acts[i := after] + [message], st.sent, i, next.stage);
  }
}
