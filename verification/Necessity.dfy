/** Why the pipeline has to be fork-join: without that shape some crash-free run hands a stage
    off twice. With it none does, so the shape is exactly what at-most-once hand-off needs. */
module Necessity {
  import opened Stages
  import opened Dag
  import opened Messages
  import opened Runner
  import opened Store
  import opened Protocol
  import opened Handoff
  import opened Delivery

  // ---------------------------------------------------------------- runs step by step

  lemma Go(c: Config, steps: seq<Step>, st: State, step: Step) returns (steps': seq<Step>, st': State)
    requires CrashFreeRun(c, steps, st) && Enabled(c, st, step) && CrashFree(step)
    ensures CrashFreeRun(c, steps', st') && st' == Apply(c, st, step)
  {
    steps', st' := steps + [step], Apply(c, st, step);
    assert steps'[..|steps'| - 1] == steps;
  }

  lemma SnapshotAfterBegin(c: Config, st: State, n: StageName, attempt: int)
    requires n !in TakeSnapshot(c, st).completed
    ensures TakeSnapshot(c, Commit(st, BeginStage(n, attempt)))
         == TakeSnapshot(c, st).(dispatched := TakeSnapshot(c, st).dispatched + {n})
  {
  }

  lemma SnapshotAfterComplete(c: Config, st: State, n: StageName)
    ensures TakeSnapshot(c, Commit(st, CompleteStage(n)))
         == Snapshot(TakeSnapshot(c, st).completed + {n}, TakeSnapshot(c, st).dispatched + {n})
  {
  }

  lemma SnapshotAfterMark(c: Config, st: State, stages: seq<StageName>)
    ensures TakeSnapshot(c, Commit(st, MarkDispatched(stages)))
         == TakeSnapshot(c, st).(dispatched := TakeSnapshot(c, st).dispatched + Members(stages))
  {
    InsertAllKeys(st.rows, stages);
  }

  /** From its queue to the end of its handler. */
  lemma ToHandled(c: Config, steps: seq<Step>, st: State, k: nat) returns (steps': seq<Step>, st': State)
    requires CrashFreeRun(c, steps, st) && k < |st.acts|
    requires st.acts[k].Queued? && st.acts[k].queue.Work? && st.acts[k].raw.stage !in TakeSnapshot(c, st).completed
    ensures CrashFreeRun(c, steps', st') && st'.sent == st.sent
    ensures var m := st.acts[k].raw;
      && st'.acts == st.acts[k := Handled(m, Adopt(c, m))]
      && TakeSnapshot(c, st') == TakeSnapshot(c, st).(dispatched := TakeSnapshot(c, st).dispatched + {m.stage})
  {
    hide CrashFreeRun;
    var m := st.acts[k].raw;
    var steps1, st1 := Go(c, steps, st, Deliver(k));
    var steps2, st2 := Go(c, steps1, st1, Begin(k));
    SnapshotAfterBegin(c, st1, m.stage, m.attempt);
    steps', st' := Go(c, steps2, st2, HandlerReturns(k));
  }

  lemma PublishOne(c: Config, steps: seq<Step>, st: State, k: nat, followers: seq<StageMessage>)
    returns (steps': seq<Step>, st': State)
    requires CrashFreeRun(c, steps, st) && k < |st.acts| && followers != []
    requires st.acts[k] == Publishing(st.acts[k].raw, followers)
    ensures CrashFreeRun(c, steps', st') && TakeSnapshot(c, st') == TakeSnapshot(c, st)
    ensures st'.sent == st.sent + [followers[0].stage]
    ensures st'.acts == st.acts[k := AfterPublish(st.acts[k].raw, followers[1..])]
                        + [Queued(Work(followers[0].stage), followers[0])]
  {
    hide CrashFreeRun;
    steps', st' := Go(c, steps, st, PublishNext(k));
  }

  function AsQueued(followers: seq<StageMessage>): (r: seq<Activity>)
    ensures |r| == |followers| && forall x :: 0 <= x < |r| ==> r[x] == Queued(Work(followers[x].stage), followers[x])
  {
    if followers == [] then [] else [Queued(Work(followers[0].stage), followers[0])] + AsQueued(followers[1..])
  }

  lemma RawStays(raw: StageMessage, followers: seq<StageMessage>)
    ensures AfterPublish(raw, followers).raw == raw
    ensures followers != [] ==> AfterPublish(raw, followers) == Publishing(raw, followers)
    ensures followers == [] ==> AfterPublish(raw, followers) == Finished(raw)
  {
  }

  lemma {:induction false} PublishRest(acts: seq<Activity>, acts1: seq<Activity>, sent: seq<StageName>, k: nat,
                                       raw: StageMessage,
                                       followers: seq<StageMessage>)
    requires k < |acts| && followers != []
    requires acts1 == acts[k := AfterPublish(raw, followers[1..])] + [Queued(Work(followers[0].stage), followers[0])]
    ensures acts1[k := Finished(raw)] + AsQueued(followers[1..]) == acts[k := Finished(raw)] + AsQueued(followers)
    ensures sent + [followers[0].stage] + StagesOf(followers[1..]) == sent + StagesOf(followers)
  {
    var first := [Queued(Work(followers[0].stage), followers[0])];
    assert AsQueued(followers) == first + AsQueued(followers[1..]);
    assert StagesOf(followers) == [followers[0].stage] + StagesOf(followers[1..]);
    hide AsQueued, StagesOf;
    assert acts1[k := Finished(raw)] == acts[k := Finished(raw)] + first;
    JoinsOn(acts[k := Finished(raw)], first, AsQueued(followers[1..]));
    JoinsOn(sent, [followers[0].stage], StagesOf(followers[1..]));
  }

  lemma JoinsOn<T>(a: seq<T>, b: seq<T>, c: seq<T>)
    ensures a + b + c == a + (b + c)
  {
  }

  /** Publishing everything in one hand. */
  lemma {:induction false} PublishAll(c: Config, steps: seq<Step>, st: State, k: nat, raw: StageMessage,
                                      followers: seq<StageMessage>)
    returns (steps': seq<Step>, st': State)
    requires CrashFreeRun(c, steps, st) && k < |st.acts|
    requires st.acts[k] == AfterPublish(raw, followers)
    ensures CrashFreeRun(c, steps', st') && TakeSnapshot(c, st') == TakeSnapshot(c, st)
    ensures st'.sent == st.sent + StagesOf(followers)
    ensures st'.acts == st.acts[k := Finished(raw)] + AsQueued(followers)
    decreases |followers|
  {
    hide CrashFreeRun, TakeSnapshot, AfterPublish;
    RawStays(raw, followers);
    if followers == [] {
      steps', st' := steps, st;
    } else {
      hide StagesOf, AsQueued;
      var steps1, st1 := PublishOne(c, steps, st, k, followers);
      PublishRest(st.acts, st1.acts, st.sent, k, raw, followers);
      steps', st' := PublishAll(c, steps1, st1, k, raw, followers[1..]);
    }
  }

  // ---------------------------------------------------------------- settled runs

  /** A message of this run that is waiting for a worker of its stage. */
  predicate Waiting(c: Config, a: Activity, s: StageName) {
    a.Queued? && a.queue.Work? && a.raw.stage == s && Adopt(c, a.raw).family == c.family
  }

  ghost predicate Offers(c: Config, acts: seq<Activity>, s: StageName) {
    exists k :: 0 <= k < |acts| && Waiting(c, acts[k], s)
  }

  /** Exactly `done` has finished, every stage that can run now has a message waiting,
      and no other stage has been queued yet. */
  ghost predicate Settled(c: Config, st: State, done: set<StageName>) {
    && TakeSnapshot(c, st).completed == done
    && (forall s :: Runnable(c.pipeline, c.family, done, s) ==> Offers(c, st.acts, s))
    && (forall s :: s in TakeSnapshot(c, st).dispatched ==> s in done || Runnable(c.pipeline, c.family, done, s))
  }

  lemma InitSettled(c: Config)
    requires ValidConfig(c)
    ensures CrashFreeRun(c, [], Init(c)) && Settled(c, Init(c), {})
  {
    assert Rooted(c.pipeline, c.family);
    assert PgCompleted(map[]) == {};
    forall s | Runnable(c.pipeline, c.family, {}, s) ensures Offers(c, Init(c).acts, s) {
      assert s == ENTRY_STAGE;
      assert Waiting(c, Init(c).acts[0], s);
    }
  }

  /** After the handler: record the completion and find the followers. */
  lemma ToCompleted(c: Config, steps: seq<Step>, st: State, k: nat, raw: StageMessage, known: set<StageName>,
                    done: set<StageName>)
    returns (steps': seq<Step>, st': State, followers: seq<StageMessage>)
    requires ValidConfig(c) && CrashFreeRun(c, steps, st) && k < |st.acts|
    requires st.acts[k] == Handled(raw, Adopt(c, raw)) && Adopt(c, raw).family == c.family
    requires TakeSnapshot(c, st) == Snapshot(done, known) && raw.stage in known
    ensures CrashFreeRun(c, steps', st') && st'.sent == st.sent
    ensures TakeSnapshot(c, st') == Snapshot(done + {raw.stage}, known)
    ensures st'.acts == st.acts[k := AfterComplete(raw, followers)]
    ensures forall s :: s in StagesOf(followers)
              <==> Runnable(c.pipeline, c.family, done + {raw.stage}, s) && s !in known
    ensures forall x :: 0 <= x < |followers| ==> followers[x].family == c.family
  {
    hide CrashFreeRun, Runnable, NextMessages, AfterComplete, ValidConfig;
    steps', st' := Go(c, steps, st, Complete(k));
    SnapshotAfterComplete(c, st, raw.stage);
    assert known + {raw.stage} == known;
    followers := NextMessages(c.pipeline, Adopt(c, raw), done + {raw.stage}, known);
    FollowerNames(c, done + {raw.stage}, known, Adopt(c, raw));
    FollowerFamily(c.pipeline, Adopt(c, raw), done + {raw.stage}, known);
    assert forall s :: s in StagesOf(followers) <==> s in Members(StagesOf(followers));
  }

  lemma FollowerFamily(pipeline: seq<Stage>, m: StageMessage, done: set<StageName>, known: set<StageName>)
    ensures forall x :: 0 <= x < |NextMessages(pipeline, m, done, known)| ==>
              NextMessages(pipeline, m, done, known)[x].family == m.family
  {
    HandOffAt(m, Ready(pipeline, m.family, done, known));
  }

  /** Reserve the followers and publish every one of them. */
  lemma ToPublished(c: Config, steps: seq<Step>, st: State, k: nat, raw: StageMessage, followers: seq<StageMessage>)
    returns (steps': seq<Step>, st': State)
    requires CrashFreeRun(c, steps, st) && k < |st.acts|
    requires st.acts[k] == AfterComplete(raw, followers)
    ensures CrashFreeRun(c, steps', st')
    ensures TakeSnapshot(c, st') == TakeSnapshot(c, st).(dispatched := TakeSnapshot(c, st).dispatched
                                                                       + Members(StagesOf(followers)))
    ensures st'.sent == st.sent + StagesOf(followers)
    ensures st'.acts == st.acts[k := Finished(raw)] + AsQueued(followers)
  {
    hide CrashFreeRun, TakeSnapshot, AfterPublish;
    RawStays(raw, followers);
    if followers == [] {
      steps', st' := steps, st;
    } else {
      hide AsQueued;
      var steps1, st1 := ToPublishing(c, steps, st, k, raw, followers);
      steps', st' := PublishAll(c, steps1, st1, k, raw, followers);
      assert st1.acts[k := Finished(raw)] == st.acts[k := Finished(raw)];
    }
  }

  lemma ToPublishing(c: Config, steps: seq<Step>, st: State, k: nat, raw: StageMessage, followers: seq<StageMessage>)
    returns (steps': seq<Step>, st': State)
    requires CrashFreeRun(c, steps, st) && k < |st.acts|
    requires st.acts[k] == Completed(raw, followers)
    ensures CrashFreeRun(c, steps', st') && st'.sent == st.sent
    ensures TakeSnapshot(c, st') == TakeSnapshot(c, st).(dispatched := TakeSnapshot(c, st).dispatched
                                                                       + Members(StagesOf(followers)))
    ensures st'.acts == st.acts[k := Publishing(raw, followers)]
  {
    hide CrashFreeRun, StagesOf;
    steps', st' := Go(c, steps, st, Reserve(k));
    SnapshotAfterMark(c, st, StagesOf(followers));
  }

  /** A settled run can finish any stage that can run, and is settled again. */
  lemma FinishOne(c: Config, steps: seq<Step>, st: State, done: set<StageName>, n: StageName)
    returns (steps': seq<Step>, st': State)
    requires ValidConfig(c) && CrashFreeRun(c, steps, st) && Settled(c, st, done)
    requires Runnable(c.pipeline, c.family, done, n)
    ensures CrashFreeRun(c, steps', st') && Settled(c, st', done + {n})
  {
    hide CrashFreeRun, TakeSnapshot, ValidConfig, AfterComplete, Adopt;
    assert Offers(c, st.acts, n);
    var k :| 0 <= k < |st.acts| && Waiting(c, st.acts[k], n);
    var raw, known := st.acts[k].raw, TakeSnapshot(c, st).dispatched;
    var steps1, st1 := ToHandled(c, steps, st, k);
    var steps2, st2, followers := ToCompleted(c, steps1, st1, k, raw, known + {n}, done);
    steps', st' := ToPublished(c, steps2, st2, k, raw, followers);
    assert st'.acts == st.acts[k := Finished(raw)] + AsQueued(followers);
    SettledAgain(c, st, st', done, k, n, followers);
  }

  lemma {:induction false} SettledAgain(c: Config, st: State, st': State, done: set<StageName>, k: nat, n: StageName,
                                        followers: seq<StageMessage>)
    requires Settled(c, st, done) && Runnable(c.pipeline, c.family, done, n)
    requires k < |st.acts| && Waiting(c, st.acts[k], n)
    requires var known := TakeSnapshot(c, st).dispatched + {n};
      && TakeSnapshot(c, st') == Snapshot(done + {n}, known + Members(StagesOf(followers)))
      && (forall s :: s in StagesOf(followers) <==> Runnable(c.pipeline, c.family, done + {n}, s) && s !in known)
    requires forall x :: 0 <= x < |followers| ==> followers[x].family == c.family
    requires st'.acts == st.acts[k := Finished(st.acts[k].raw)] + AsQueued(followers)
    ensures Settled(c, st', done + {n})
  {
    hide TakeSnapshot, Offers, AsQueued, StagesOf, Waiting;
    forall s | Runnable(c.pipeline, c.family, done + {n}, s) ensures Offers(c, st'.acts, s) {
      if s in StagesOf(followers) {
        OffersNew(c, st.acts[k := Finished(st.acts[k].raw)], followers, s);
      } else {
        assert Offers(c, st.acts, s);
        OffersStill(c, st.acts, k, n, AsQueued(followers), s);
      }
    }
  }

  lemma {:induction false} OffersNew(c: Config, acts: seq<Activity>, followers: seq<StageMessage>, s: StageName)
    requires s in StagesOf(followers)
    requires forall x :: 0 <= x < |followers| ==> followers[x].family == c.family
    ensures Offers(c, acts + AsQueued(followers), s)
  {
    var x :| 0 <= x < |followers| && StagesOf(followers)[x] == s;
    assert (acts + AsQueued(followers))[|acts| + x] == AsQueued(followers)[x];
    assert Waiting(c, (acts + AsQueued(followers))[|acts| + x], s);
  }

  lemma OffersStill(c: Config, acts: seq<Activity>, k: nat, n: StageName, more: seq<Activity>, s: StageName)
    requires Offers(c, acts, s) && k < |acts| && Waiting(c, acts[k], n) && s != n
    ensures Offers(c, acts[k := Finished(acts[k].raw)] + more, s)
  {
    var j :| 0 <= j < |acts| && Waiting(c, acts[j], s);
    assert Waiting(c, (acts[k := Finished(acts[k].raw)] + more)[j], s);
  }

  /** A settled run can be taken to any larger closed set of finished stages. */
  lemma {:induction false} FinishSet(c: Config, steps: seq<Step>, st: State, done: set<StageName>,
                                     target: set<StageName>)
    returns (steps': seq<Step>, st': State)
    requires ValidConfig(c) && CrashFreeRun(c, steps, st) && Settled(c, st, done)
    requires done <= target <= PathNames(c.pipeline, c.family) && Closed(c.pipeline, c.family, target)
    ensures CrashFreeRun(c, steps', st') && Settled(c, st', target)
    decreases |target - done|
  {
    hide CrashFreeRun, Settled;
    steps', st' := steps, st;
    if done != target {
      var n := NextToFinish(c, done, target);
      var steps1, st1 := FinishOne(c, steps, st, done, n);
      assert target - (done + {n}) < target - done;
      SmallerSet(target - (done + {n}), target - done);
      steps', st' := FinishSet(c, steps1, st1, done + {n}, target);
    }
  }

  lemma {:induction false} SmallerSet(small: set<StageName>, large: set<StageName>)
    requires small < large
    ensures |small| < |large|
  {
    var x :| x in large && x !in small;
    if small != {} {
      var y :| y in small;
      SmallerSet(small - {y}, large - {y});
    }
  }

  lemma NextToFinish(c: Config, done: set<StageName>, target: set<StageName>) returns (n: StageName)
    requires ValidConfig(c)
    requires done < target <= PathNames(c.pipeline, c.family) && Closed(c.pipeline, c.family, target)
    ensures n in target && Runnable(c.pipeline, c.family, done, n)
  {
    var path := StagesFor(c.pipeline, c.family);
    var some :| some in target && some !in done;
    assert some in (target - done) * Names(path);
    var j := FirstIn(path, target - done);
    n := path[j].name;
    DepsPrecede(c.pipeline, c.family, j);
    PathDistinct(c.pipeline, c.family);
    LookupUnique(path, path[j]);
    forall d | d in Deps(c.pipeline, c.family, n) ensures d in done {
      assert d in target;
    }
  }

  // ---------------------------------------------------------------- the double hand-off

  ghost predicate Repeats(sent: seq<StageName>) {
    exists i, j :: 0 <= i < j < |sent| && sent[i] == sent[j]
  }

  lemma PublishedTwice(sent: seq<StageName>, first: seq<StageName>, second: seq<StageName>, s: StageName)
    requires s in first && s in second
    ensures Repeats(sent + first + second)
  {
    var i :| 0 <= i < |first| && first[i] == s;
    var j :| 0 <= j < |second| && second[j] == s;
    var all := sent + first + second;
    assert all[|sent| + i] == s && all[|sent| + |first| + j] == s;
  }

  /** Two stages finish side by side; a third waits for the first and not for the
      second. Both completions find it ready before either reserves it. */
  lemma HandOffTwice(c: Config, steps: seq<Step>, st: State, done: set<StageName>, t: StageName, u: StageName,
                     s: StageName)
    returns (steps': seq<Step>, st': State)
    requires ValidConfig(c) && CrashFreeRun(c, steps, st) && Settled(c, st, done)
    requires Runnable(c.pipeline, c.family, done, t) && Runnable(c.pipeline, c.family, done, u) && t != u
    requires !Runnable(c.pipeline, c.family, done, s) && s !in done + {t, u}
    requires Runnable(c.pipeline, c.family, done + {t}, s)
    ensures CrashFreeRun(c, steps', st') && Repeats(st'.sent)
  {
    hide CrashFreeRun, TakeSnapshot, ValidConfig, AfterComplete, Adopt, Repeats;
    assert Offers(c, st.acts, t) && Offers(c, st.acts, u);
    var known := TakeSnapshot(c, st).dispatched;
    var i :| 0 <= i < |st.acts| && Waiting(c, st.acts[i], t);
    var j :| 0 <= j < |st.acts| && Waiting(c, st.acts[j], u);
    var rawT, rawU := st.acts[i].raw, st.acts[j].raw;
    var steps1, st1 := ToHandled(c, steps, st, i);
    var steps2, st2 := ToHandled(c, steps1, st1, j);
    var steps3, st3, first := ToCompleted(c, steps2, st2, i, rawT, known + {t} + {u}, done);
    var steps4, st4, second := ToCompleted(c, steps3, st3, j, rawU, known + {t} + {u}, done + {t});
    assert s in StagesOf(first) && s in StagesOf(second);
    var steps5, st5 := ToPublished(c, steps4, st4, i, rawT, first);
    steps', st' := ToPublished(c, steps5, st5, j, rawU, second);
    PublishedTwice(st.sent, StagesOf(first), StagesOf(second), s);
  }

  // ---------------------------------------------------------------- where it happens

  lemma {:induction false} AncestorRank(c: Config, u: StageName, s: StageName)
    requires ValidConfig(c) && Ancestor(c.pipeline, c.family, u, s)
    ensures var path := StagesFor(c.pipeline, c.family);
      Rank(path, u) < Rank(path, s) && u in Names(path) && s in Names(path)
    decreases Rank(StagesFor(c.pipeline, c.family), s)
  {
    var path := StagesFor(c.pipeline, c.family);
    if u in Deps(c.pipeline, c.family, s) {
      DepRankSmaller(c.pipeline, c.family, s, u);
    } else {
      var d :| && d in Deps(c.pipeline, c.family, s) && Rank(path, d) < Rank(path, s)
               && Ancestor(c.pipeline, c.family, u, d);
      DepRankSmaller(c.pipeline, c.family, s, d);
      AncestorRank(c, u, d);
    }
  }

  lemma {:induction false} AncestorTransitive(c: Config, a: StageName, b: StageName, s: StageName)
    requires ValidConfig(c) && Ancestor(c.pipeline, c.family, a, b) && Ancestor(c.pipeline, c.family, b, s)
    ensures Ancestor(c.pipeline, c.family, a, s)
    decreases Rank(StagesFor(c.pipeline, c.family), s)
  {
    var path := StagesFor(c.pipeline, c.family);
    if b in Deps(c.pipeline, c.family, s) {
      DepIsAncestor(c.pipeline, c.family, a, b, s);
    } else {
      var d :| && d in Deps(c.pipeline, c.family, s) && Rank(path, d) < Rank(path, s)
               && Ancestor(c.pipeline, c.family, b, d);
      AncestorTransitive(c, a, b, d);
      DepIsAncestor(c.pipeline, c.family, a, d, s);
    }
  }

  /** Of the dependencies of `s` that wait for `t`, or `t` itself, one that no other
      dependency of `s` waits for. */
  lemma {:induction false} LastToFinish(c: Config, s: StageName, t: StageName) returns (last: StageName)
    requires ValidConfig(c) && t in Deps(c.pipeline, c.family, s)
    ensures last in Deps(c.pipeline, c.family, s) && (last == t || Ancestor(c.pipeline, c.family, t, last))
    ensures forall d :: d in Deps(c.pipeline, c.family, s) ==> !Ancestor(c.pipeline, c.family, last, d)
    decreases Rank(StagesFor(c.pipeline, c.family), s) - Rank(StagesFor(c.pipeline, c.family), t)
  {
    last := t;
    if d :| d in Deps(c.pipeline, c.family, s) && Ancestor(c.pipeline, c.family, t, d) {
      AncestorRank(c, t, d);
      DepRankSmaller(c.pipeline, c.family, s, d);
      last := LastToFinish(c, s, d);
      if last != d {
        AncestorTransitive(c, t, d, last);
      }
    }
  }

  ghost function Upstream(c: Config, s: StageName): set<StageName> {
    set n | n in PathNames(c.pipeline, c.family) && Ancestor(c.pipeline, c.family, n, s)
  }

  lemma UpstreamClosed(c: Config, s: StageName)
    requires ValidConfig(c)
    ensures Closed(c.pipeline, c.family, Upstream(c, s))
    ensures Deps(c.pipeline, c.family, s) <= Upstream(c, s) && s !in Upstream(c, s)
  {
    forall n, d | n in Upstream(c, s) && d in Deps(c.pipeline, c.family, n) ensures d in Upstream(c, s) {
      DepRankSmaller(c.pipeline, c.family, n, d);
      AncestorTransitive(c, d, n, s);
    }
    forall d | d in Deps(c.pipeline, c.family, s) ensures d in Upstream(c, s) {
      DepRankSmaller(c.pipeline, c.family, s, d);
    }
    if s in Upstream(c, s) {
      AncestorRank(c, s, s);
    }
  }

  /** Everything `s` waits for but `last` itself can finish first. */
  lemma {:induction false} AllButLastClosed(c: Config, s: StageName, last: StageName)
    requires ValidConfig(c)
    requires forall d :: d in Deps(c.pipeline, c.family, s) ==> !Ancestor(c.pipeline, c.family, last, d)
    ensures Closed(c.pipeline, c.family, Upstream(c, s) - {last})
  {
    UpstreamClosed(c, s);
    forall n, d | n in Upstream(c, s) - {last} && d in Deps(c.pipeline, c.family, n) ensures d != last {
      NotBeforeAnother(c, s, last, n);
    }
  }

  lemma {:induction false} NotBeforeAnother(c: Config, s: StageName, last: StageName, n: StageName)
    requires ValidConfig(c) && Ancestor(c.pipeline, c.family, n, s)
    requires forall d :: d in Deps(c.pipeline, c.family, s) ==> !Ancestor(c.pipeline, c.family, last, d)
    ensures last !in Deps(c.pipeline, c.family, n)
  {
    var path := StagesFor(c.pipeline, c.family);
    if n !in Deps(c.pipeline, c.family, s) && last in Deps(c.pipeline, c.family, n) {
      var e :| && e in Deps(c.pipeline, c.family, s) && Rank(path, e) < Rank(path, s)
               && Ancestor(c.pipeline, c.family, n, e);
      AncestorTransitive(c, last, n, e);
    }
  }

  /** Where the shape fails, a closed set of stages exists after which two stages run
      side by side and only one of them is what a third still waits for. */
  lemma ForkWithoutJoin(c: Config, s: StageName, t: StageName, u: StageName)
    returns (done: set<StageName>, last: StageName)
    requires ValidConfig(c)
    requires t in Deps(c.pipeline, c.family, s) && u in PathNames(c.pipeline, c.family) && u != t
    requires !Ancestor(c.pipeline, c.family, u, t) && !Ancestor(c.pipeline, c.family, t, u)
    requires !Ancestor(c.pipeline, c.family, u, s)
    ensures done <= PathNames(c.pipeline, c.family) && Closed(c.pipeline, c.family, done)
    ensures Runnable(c.pipeline, c.family, done, last) && Runnable(c.pipeline, c.family, done, u) && last != u
    ensures !Runnable(c.pipeline, c.family, done, s) && s !in done + {last, u}
    ensures Runnable(c.pipeline, c.family, done + {last}, s)
  {
    hide Deps, PathNames, Ancestor;
    last := LastToFinish(c, s, t);
    done := (Upstream(c, s) - {last}) + Upstream(c, u);
    UpstreamClosed(c, s);
    UpstreamClosed(c, u);
    AllButLastClosed(c, s, last);
    DepsOfLast(c, s, last);
    NotUpstream(c, s, t, u, last);
  }

  /** What the last stage to finish waits for is upstream of the stage that waits for it. */
  lemma DepsOfLast(c: Config, s: StageName, last: StageName)
    requires ValidConfig(c) && last in Deps(c.pipeline, c.family, s)
    ensures Deps(c.pipeline, c.family, last) <= Upstream(c, s) - {last}
    ensures last in PathNames(c.pipeline, c.family) && s in PathNames(c.pipeline, c.family)
  {
    hide Deps, PathNames, Ancestor;
    DepRankSmaller(c.pipeline, c.family, s, last);
    forall d | d in Deps(c.pipeline, c.family, last) ensures d in Upstream(c, s) - {last} {
      DepRankSmaller(c.pipeline, c.family, last, d);
      EdgeIsAncestor(c, last, d);
      DepIsAncestor(c.pipeline, c.family, d, last, s);
    }
  }

  lemma {:induction false} EdgeIsAncestor(c: Config, s: StageName, d: StageName)
    requires ValidConfig(c) && d in Deps(c.pipeline, c.family, s)
    ensures Ancestor(c.pipeline, c.family, d, s)
  {
    DepIsAncestor(c.pipeline, c.family, d, d, s);
  }

  lemma {:induction false} NotUpstream(c: Config, s: StageName, t: StageName, u: StageName, last: StageName)
    requires ValidConfig(c) && t in Deps(c.pipeline, c.family, s) && last in Deps(c.pipeline, c.family, s)
    requires last == t || Ancestor(c.pipeline, c.family, t, last)
    requires u != t && !Ancestor(c.pipeline, c.family, t, u) && !Ancestor(c.pipeline, c.family, u, s)
    ensures last != u && s != u && last != s
    ensures !Ancestor(c.pipeline, c.family, last, u) && !Ancestor(c.pipeline, c.family, s, u)
  {
    DepRankSmaller(c.pipeline, c.family, s, last);
    if Ancestor(c.pipeline, c.family, last, u) && last != t {
      AncestorTransitive(c, t, last, u);
    }
    if Ancestor(c.pipeline, c.family, s, u) {
      AncestorTransitive(c, t, s, u);
    }
  }

  /** No stage is handed off twice in any crash-free run if and only if the family's
      path is fork-join. */
  lemma HandoffSafeIff(c: Config)
    requires ValidConfig(c)
    ensures (forall steps, st :: CrashFreeRun(c, steps, st) ==> !Repeats(st.sent))
            <==> ForkJoin(c.pipeline, c.family)
  {
    hide CrashFreeRun;
    if ForkJoin(c.pipeline, c.family) {
      forall steps, st | CrashFreeRun(c, steps, st) ensures !Repeats(st.sent) {
        HandedOffAtMostOnce(c, steps, st);
      }
    } else {
      var steps, st := SomeRunRepeats(c);
      assert CrashFreeRun(c, steps, st) && Repeats(st.sent);
    }
  }

  /** Beside `t`, something can run that `s`, which waits for `t`, does not wait for. */
  ghost predicate Escapes(c: Config, s: StageName, t: StageName, u: StageName) {
    && t in Deps(c.pipeline, c.family, s) && u in PathNames(c.pipeline, c.family) && u != t
    && !Ancestor(c.pipeline, c.family, u, t) && !Ancestor(c.pipeline, c.family, t, u)
    && !Ancestor(c.pipeline, c.family, u, s)
  }

  lemma NotForkJoin(c: Config) returns (s: StageName, t: StageName, u: StageName)
    requires !ForkJoin(c.pipeline, c.family)
    ensures t in Deps(c.pipeline, c.family, s) && u in PathNames(c.pipeline, c.family) && u != t
    ensures !Ancestor(c.pipeline, c.family, u, t) && !Ancestor(c.pipeline, c.family, t, u)
    ensures !Ancestor(c.pipeline, c.family, u, s)
  {
    hide Deps, PathNames, Ancestor;
    if forall s, t, u :: !Escapes(c, s, t, u) {
      forall s, t, u | t in Deps(c.pipeline, c.family, s) && u in PathNames(c.pipeline, c.family) && u != t
        && !Ancestor(c.pipeline, c.family, u, t) && !Ancestor(c.pipeline, c.family, t, u)
        ensures Ancestor(c.pipeline, c.family, u, s)
      {
        assert !Escapes(c, s, t, u);
      }
    }
    s, t, u :| Escapes(c, s, t, u);
  }

  lemma SomeRunRepeats(c: Config) returns (steps: seq<Step>, st: State)
    requires ValidConfig(c) && !ForkJoin(c.pipeline, c.family)
    ensures CrashFreeRun(c, steps, st) && Repeats(st.sent)
  {
    var s, t, u := NotForkJoin(c);
    hide ForkJoin;
    hide CrashFreeRun, Settled, ValidConfig, Runnable, Closed, Ancestor;
    var done, last := ForkWithoutJoin(c, s, t, u);
    InitSettled(c);
    steps, st := FinishSet(c, [], Init(c), {}, done);
    steps, st := HandOffTwice(c, steps, st, done, last, u, s);
  }
}
