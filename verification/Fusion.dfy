/** Reciprocal rank fusion: several ranked lists of ids become one. */
module Fusion {
  import opened Wrappers
  import opened Texts
  import opened Sorting

  /** What one retriever found, best first. */
  datatype Ranking = Ranking(retriever: string, ids: seq<string>)

  datatype Hit = Hit(id: string, score: real, ranks: map<string, nat>, contributions: map<string, real>)

  /** Retriever names are the keys of a mapping. */
  ghost predicate Distinct(rankings: seq<Ranking>) {
    forall i, j :: 0 <= i < j < |rankings| ==> rankings[i].retriever != rankings[j].retriever
  }

  /** Place of the first occurrence, counted from one. */
  function RankOf(ids: seq<string>, id: string): (r: nat)
    requires id in ids
    ensures 1 <= r <= |ids| && ids[r - 1] == id && forall j :: 0 <= j < r - 1 ==> ids[j] != id
  {
    if ids[0] == id then 1 else 1 + RankOf(ids[1..], id)
  }

  function WeightOf(weights: map<string, real>, retriever: string): real {
    if retriever in weights then weights[retriever] else 1.0
  }

  predicate Finds(weights: map<string, real>, r: Ranking, id: string) {
    WeightOf(weights, r.retriever) != 0.0 && id in r.ids
  }

  function Share(weight: real, k: int, rank: nat): real
    requires k > 0
  {
    weight / (k + rank) as real
  }

  function Contribution(k: int, weights: map<string, real>, r: Ranking, id: string): real
    requires k > 0 && id in r.ids
  {
    Share(WeightOf(weights, r.retriever), k, RankOf(r.ids, id))
  }

  function Credit(h: Hit, retriever: string, rank: nat, contribution: real): Hit {
    Hit(h.id, h.score + contribution, h.ranks[retriever := rank], h.contributions[retriever := contribution])
  }

  /** What one more ranking adds to a hit. */
  function Counted(k: int, weights: map<string, real>, h: Hit, r: Ranking): Hit
    requires k > 0
  {
    if Finds(weights, r, h.id) then Credit(h, r.retriever, RankOf(r.ids, h.id), Contribution(k, weights, r, h.id))
    else h
  }

  function HitOf(k: int, weights: map<string, real>, rankings: seq<Ranking>, id: string): (h: Hit)
    requires k > 0
    ensures h.id == id
  {
    if rankings == [] then Hit(id, 0.0, map[], map[])
    else Counted(k, weights, HitOf(k, weights, rankings[..|rankings| - 1], id), rankings[|rankings| - 1])
  }

  /** Adds the ids that are not there yet. */
  function AddNew(known: seq<string>, ids: seq<string>): seq<string> {
    if ids == [] then known
    else
      var more := AddNew(known, ids[..|ids| - 1]);
      if ids[|ids| - 1] in more then more else more + [ids[|ids| - 1]]
  }

  lemma {:induction false} AddOneMore(known: seq<string>, ids: seq<string>, p: nat)
    requires p < |ids|
    ensures var more := AddNew(known, ids[..p]);
      AddNew(known, ids[..p + 1]) == if ids[p] in more then more else more + [ids[p]]
  {
    assert ids[..p + 1][..p] == ids[..p];
  }

  lemma {:induction false} AddedIds(known: seq<string>, ids: seq<string>, id: string)
    ensures id in AddNew(known, ids) <==> id in known || id in ids
  {
    if ids != [] {
      AddedIds(known, ids[..|ids| - 1], id);
      assert ids == ids[..|ids| - 1] + [ids[|ids| - 1]];
    }
  }

  /** The ids found, in the order they were met. */
  function IdsOf(weights: map<string, real>, rankings: seq<Ranking>): seq<string> {
    if rankings == [] then []
    else
      var known, r := IdsOf(weights, rankings[..|rankings| - 1]), rankings[|rankings| - 1];
      if WeightOf(weights, r.retriever) == 0.0 then known else AddNew(known, r.ids)
  }

  function HitsOf(k: int, weights: map<string, real>, rankings: seq<Ranking>, ids: seq<string>): (r: seq<Hit>)
    requires k > 0
    ensures |r| == |ids| && forall i :: 0 <= i < |r| ==> r[i] == HitOf(k, weights, rankings, ids[i])
  {
    seq(|ids|, i requires 0 <= i < |ids| => HitOf(k, weights, rankings, ids[i]))
  }

  /** Higher score first, then broader agreement, then the smaller id. */
  predicate Before(a: Hit, b: Hit) {
    || a.score > b.score
    || (a.score == b.score && |a.ranks| > |b.ranks|)
    || (a.score == b.score && |a.ranks| == |b.ranks| && a.id != b.id && TextAtMost(a.id, b.id))
  }

  function Fused(k: int, weights: map<string, real>, rankings: seq<Ranking>): seq<Hit>
    requires k > 0
  {
    Sort(HitsOf(k, weights, rankings, IdsOf(weights, rankings)), Before)
  }

  /** The slice `[:limit]`; a negative limit counts from the end. */
  function Cut(hits: seq<Hit>, limit: Option<int>): seq<Hit> {
    match limit
    case None => hits
    case Some(n) =>
      if n >= |hits| then hits
      else if n >= 0 then hits[..n]
      else if |hits| + n >= 0 then hits[..|hits| + n]
      else []
  }

  datatype FusionError = KNotPositive

  // ---------------------------------------------------------------- the fusion loop

  /** A ranking read up to place `p`. */
  function Upto(r: Ranking, p: nat): Ranking
    requires p <= |r.ids|
  {
    Ranking(r.retriever, r.ids[..p])
  }

  lemma {:induction false} OneRankingMore(k: int, weights: map<string, real>, before: seq<Ranking>, r: Ranking,
                                          id: string)
    requires k > 0
    ensures HitOf(k, weights, before + [r], id) == Counted(k, weights, HitOf(k, weights, before, id), r)
  {
    assert (before + [r])[..|before|] == before;
  }

  lemma {:induction false} RankUnique(ids: seq<string>, id: string, r: nat)
    requires 1 <= r <= |ids| && ids[r - 1] == id && forall j :: 0 <= j < r - 1 ==> ids[j] != id
    ensures id in ids && RankOf(ids, id) == r
  {
  }

  lemma {:induction false} RankInPrefix(ids: seq<string>, n: nat, id: string)
    requires n <= |ids| && id in ids[..n]
    ensures id in ids && RankOf(ids, id) == RankOf(ids[..n], id)
  {
    RankUnique(ids, id, RankOf(ids[..n], id));
  }

  /** Reading one more id credits that id, once, and leaves the others alone. */
  lemma ReadOne(k: int, weights: map<string, real>, h: Hit, r: Ranking, p: nat)
    requires k > 0 && p < |r.ids| && WeightOf(weights, r.retriever) != 0.0
    ensures Counted(k, weights, h, Upto(r, p + 1)) ==
      if h.id == r.ids[p] && h.id !in r.ids[..p]
      then Credit(h, r.retriever, p + 1, Share(WeightOf(weights, r.retriever), k, p + 1))
      else Counted(k, weights, h, Upto(r, p))
  {
    var b := r.ids[..p + 1];
    assert b == r.ids[..p] + [r.ids[p]] && b[..p] == r.ids[..p];
    if h.id in r.ids[..p] {
      RankInPrefix(b, p, h.id);
    } else if h.id == r.ids[p] {
      RankUnique(b, h.id, p + 1);
    }
  }

  method Fuse(rankings: seq<Ranking>, k: int, weights: map<string, real>, limit: Option<int>)
    returns (r: Result<seq<Hit>, FusionError>)
    requires Distinct(rankings)
    ensures r == if k <= 0 then Failure(KNotPositive) else Success(Cut(Fused(k, weights, rankings), limit))
  {
    if k <= 0 {
      return Failure(KNotPositive);
    }
    var hits: map<string, Hit>, order: seq<string> := map[], [];
    var n := 0;
    while n < |rankings|
      invariant n <= |rankings| && order == IdsOf(weights, rankings[..n])
      invariant forall id :: id in hits <==> id in order
      invariant forall id :: HitOf(k, weights, rankings[..n], id) == Lookup(hits, id)
    {
      hits, order := ReadRanking(k, weights, hits, order, rankings[..n], rankings[n]);
      assert rankings[..n + 1] == rankings[..n] + [rankings[n]];
      n := n + 1;
    }
    assert rankings[..n] == rankings;
    var found := seq(|order|, i requires 0 <= i < |order| => Lookup(hits, order[i]));
    assert found == HitsOf(k, weights, rankings, order);
    return Success(Cut(Sort(found, Before), limit));
  }

  function Lookup(hits: map<string, Hit>, id: string): Hit {
    if id in hits then hits[id] else Hit(id, 0.0, map[], map[])
  }

  /** The hits kept so far are those of the part of `r` that has been read. */
  ghost predicate ReadUpto(k: int, weights: map<string, real>, hits0: map<string, Hit>, hits: map<string, Hit>,
                           r: Ranking, p: nat)
    requires k > 0 && p <= |r.ids|
  {
    forall id :: Counted(k, weights, Lookup(hits0, id), Upto(r, p)) == Lookup(hits, id)
  }

  lemma ReadingKeeps(k: int, weights: map<string, real>, hits0: map<string, Hit>, hits: map<string, Hit>,
                     hits': map<string, Hit>, r: Ranking, p: nat)
    requires k > 0 && p < |r.ids| && WeightOf(weights, r.retriever) != 0.0 && ReadUpto(k, weights, hits0, hits, r, p)
    requires var share := Share(WeightOf(weights, r.retriever), k, p + 1);
      forall x :: Lookup(hits', x) == if x == r.ids[p] && x !in r.ids[..p]
                                      then Credit(Lookup(hits, x), r.retriever, p + 1, share) else Lookup(hits, x)
    requires forall x :: Lookup(hits0, x).id == x
    ensures ReadUpto(k, weights, hits0, hits', r, p + 1)
  {
    forall x ensures Counted(k, weights, Lookup(hits0, x), Upto(r, p + 1)) == Lookup(hits', x) {
      ReadOne(k, weights, Lookup(hits0, x), r, p);
      if x !in r.ids[..p] {
        NotYetCounted(k, weights, Lookup(hits0, x), r, p);
      }
    }
  }

  lemma NotYetCounted(k: int, weights: map<string, real>, h: Hit, r: Ranking, p: nat)
    requires k > 0 && p <= |r.ids| && h.id !in r.ids[..p]
    ensures Counted(k, weights, h, Upto(r, p)) == h
  {
  }

  lemma {:induction false} NothingRead(k: int, weights: map<string, real>, hits: map<string, Hit>,
                                       order: seq<string>, r: Ranking)
    requires k > 0
    ensures ReadUpto(k, weights, hits, hits, r, 0) && AddNew(order, r.ids[..0]) == order
  {
  }

  /** Reads one retriever's ids, each of them once. */
  method ReadIds(k: int, weights: map<string, real>, hits0: map<string, Hit>, order0: seq<string>, r: Ranking)
    returns (hits: map<string, Hit>, order: seq<string>)
    requires k > 0 && WeightOf(weights, r.retriever) != 0.0
    requires (forall id :: id in hits0 <==> id in order0) && forall id :: Lookup(hits0, id).id == id
    ensures order == AddNew(order0, r.ids) && (forall id :: id in hits <==> id in order)
    ensures ReadUpto(k, weights, hits0, hits, r, |r.ids|)
  {
    hide ReadUpto, AddNew, Share;
    hits, order := hits0, order0;
    NothingRead(k, weights, hits0, order0, r);
    var weight := WeightOf(weights, r.retriever);
    var seen: set<string> := {};
    var p := 0;
    while p < |r.ids|
      invariant p <= |r.ids| && order == AddNew(order0, r.ids[..p])
      invariant forall id :: id in seen <==> id in r.ids[..p]
      invariant forall id :: id in hits <==> id in order
      invariant ReadUpto(k, weights, hits0, hits, r, p)
    {
      var id := r.ids[p];
      ghost var was := hits;
      AddOneMore(order0, r.ids, p);
      AddedIds(order0, r.ids[..p], id);
      assert forall x :: x in r.ids[..p + 1] <==> x in r.ids[..p] || x == id;
      if id !in seen {
        seen := seen + {id};
        var contribution := Share(weight, k, p + 1);
        if id !in hits {
          hits, order := hits[id := Hit(id, 0.0, map[], map[])], order + [id];
        }
        hits := hits[id := Credit(hits[id], r.retriever, p + 1, contribution)];
      }
      ReadingKeeps(k, weights, hits0, was, hits, r, p);
      p := p + 1;
    }
    assert r.ids[..p] == r.ids;
  }

  method ReadRanking(k: int, weights: map<string, real>, hits0: map<string, Hit>, order0: seq<string>,
                     ghost before: seq<Ranking>, r: Ranking)
    returns (hits: map<string, Hit>, order: seq<string>)
    requires k > 0 && order0 == IdsOf(weights, before)
    requires forall id :: id in hits0 <==> id in order0
    requires forall id :: HitOf(k, weights, before, id) == Lookup(hits0, id)
    ensures order == IdsOf(weights, before + [r])
    ensures forall id :: id in hits <==> id in order
    ensures forall id :: HitOf(k, weights, before + [r], id) == Lookup(hits, id)
  {
    assert (before + [r])[..|before|] == before && Upto(r, |r.ids|) == r;
    forall id ensures HitOf(k, weights, before + [r], id) == Counted(k, weights, Lookup(hits0, id), r) {
      OneRankingMore(k, weights, before, r, id);
    }
    if WeightOf(weights, r.retriever) == 0.0 {
      hits, order := hits0, order0;
    } else {
      hits, order := ReadIds(k, weights, hits0, order0, r);
    }
  }

  // ---------------------------------------------------------------- what a fused list is

  /** Some retriever that counts found `id`. */
  ghost predicate Found(weights: map<string, real>, rankings: seq<Ranking>, id: string) {
    exists r :: r in rankings && Finds(weights, r, id)
  }

  lemma {:induction false} IdsAreFound(weights: map<string, real>, rankings: seq<Ranking>, id: string)
    ensures id in IdsOf(weights, rankings) <==> Found(weights, rankings, id)
  {
    if rankings != [] {
      var front, r := rankings[..|rankings| - 1], rankings[|rankings| - 1];
      IdsAreFound(weights, front, id);
      AddedIds(IdsOf(weights, front), r.ids, id);
      assert Found(weights, rankings, id) <==> Found(weights, front, id) || Finds(weights, r, id) by {
        assert r in rankings && forall x :: x in rankings <==> x in front || x == r;
      }
    }
  }

  lemma {:induction false} AddedOnce(known: seq<string>, ids: seq<string>)
    requires NoRepeats(known)
    ensures NoRepeats(AddNew(known, ids))
  {
    if ids != [] {
      AddedOnce(known, ids[..|ids| - 1]);
    }
  }

  lemma {:induction false} IdsOnce(weights: map<string, real>, rankings: seq<Ranking>)
    ensures NoRepeats(IdsOf(weights, rankings))
  {
    if rankings != [] {
      IdsOnce(weights, rankings[..|rankings| - 1]);
      AddedOnce(IdsOf(weights, rankings[..|rankings| - 1]), rankings[|rankings| - 1].ids);
    }
  }

  lemma BeforeIsWeakOrder()
    ensures WeakOrder(Before)
  {
    forall a, b | Before(a, b) ensures !Before(b, a) {
      if a.score == b.score && |a.ranks| == |b.ranks| && TextAtMost(b.id, a.id) {
        TextAntisymmetric(a.id, b.id);
      }
    }
    forall a, b, c | Before(a, c) ensures Before(a, b) || Before(b, c) {
      BeforeSplits(a, b, c);
    }
  }

  lemma BeforeSplits(a: Hit, b: Hit, c: Hit)
    requires Before(a, c)
    ensures Before(a, b) || Before(b, c)
  {
    TextTotal(a.id, b.id);
    TextTotal(b.id, c.id);
    if TextAtMost(b.id, a.id) && TextAtMost(a.id, c.id) {
      TextTransitive(b.id, a.id, c.id);
    }
  }

  lemma BeforeDecides(a: Hit, b: Hit)
    requires a.id != b.id
    ensures Before(a, b) || Before(b, a)
  {
    TextTotal(a.id, b.id);
  }

  /** The fused list holds the hit of every id found, once, strictly ordered: no two places tie. */
  lemma {:induction false} FusedIsRanked(k: int, weights: map<string, real>, rankings: seq<Ranking>)
    requires k > 0
    ensures var f := Fused(k, weights, rankings);
      && (forall i, j :: 0 <= i < j < |f| ==> Before(f[i], f[j]))
      && (forall h :: h in f <==> Found(weights, rankings, h.id) && h == HitOf(k, weights, rankings, h.id))
  {
    var ids := IdsOf(weights, rankings);
    var hits, f := HitsOf(k, weights, rankings, ids), Fused(k, weights, rankings);
    BeforeIsWeakOrder();
    SortSorts(hits, Before);
    SortPermutes(hits, Before);
    IdsOnce(weights, rankings);
    assert NoRepeats(hits);
    DistinctMembers(hits, f);
    forall h ensures h in f <==> Found(weights, rankings, h.id) && h == HitOf(k, weights, rankings, h.id) {
      InSort(hits, Before, h);
      IdsAreFound(weights, rankings, h.id);
      if h.id in ids {
        var i :| 0 <= i < |ids| && ids[i] == h.id;
        assert hits[i] == HitOf(k, weights, rankings, h.id);
      }
    }
    forall i, j | 0 <= i < j < |f| ensures Before(f[i], f[j]) {
      assert f[i] in f && f[j] in f && f[i] != f[j];
      BeforeDecides(f[i], f[j]);
    }
  }

  /** Whatever a hit records, some retriever of that name found. */
  lemma {:induction false} OnlyFinders(k: int, weights: map<string, real>, rankings: seq<Ranking>, id: string,
                                       name: string)
    requires k > 0
    ensures var h := HitOf(k, weights, rankings, id);
      name in h.ranks || name in h.contributions ==> FoundBy(weights, rankings, id, name)
  {
    if rankings != [] {
      var front, last := rankings[..|rankings| - 1], rankings[|rankings| - 1];
      OnlyFinders(k, weights, front, id, name);
      assert forall r :: r in rankings <==> r in front || r == last;
    }
  }

  ghost predicate FoundBy(weights: map<string, real>, rankings: seq<Ranking>, id: string, name: string) {
    exists r :: r in rankings && r.retriever == name && Finds(weights, r, id)
  }

  /** A hit records every retriever that found it, at its best place, and nothing else. */
  lemma {:induction false} HitRecords(k: int, weights: map<string, real>, rankings: seq<Ranking>, r: Ranking,
                                      id: string)
    requires k > 0 && Distinct(rankings) && r in rankings
    ensures var h := HitOf(k, weights, rankings, id);
      if Finds(weights, r, id) then
        && r.retriever in h.ranks && h.ranks[r.retriever] == RankOf(r.ids, id)
        && r.retriever in h.contributions && h.contributions[r.retriever] == Contribution(k, weights, r, id)
      else r.retriever !in h.ranks && r.retriever !in h.contributions
  {
    var front, last := rankings[..|rankings| - 1], rankings[|rankings| - 1];
    var i :| 0 <= i < |rankings| && rankings[i] == r;
    if i < |front| {
      assert front[i] == r;
      HitRecords(k, weights, front, r, id);
    } else {
      OnlyFinders(k, weights, front, id, r.retriever);
    }
  }

  /** Sum of the contributions, taken in the order of the rankings. */
  function SumOf(contributions: map<string, real>, rankings: seq<Ranking>): real {
    if rankings == [] then 0.0
    else
      var name := rankings[|rankings| - 1].retriever;
      SumOf(contributions, rankings[..|rankings| - 1]) + if name in contributions then contributions[name] else 0.0
  }

  lemma {:induction false} SumIgnores(contributions: map<string, real>, rankings: seq<Ranking>, name: string, x: real)
    requires forall r :: r in rankings ==> r.retriever != name
    ensures SumOf(contributions[name := x], rankings) == SumOf(contributions, rankings)
  {
    if rankings != [] {
      assert rankings[|rankings| - 1] in rankings;
      SumIgnores(contributions, rankings[..|rankings| - 1], name, x);
    }
  }

  lemma {:induction false} ContributionsSumToScore(k: int, weights: map<string, real>, rankings: seq<Ranking>,
                                                   id: string)
    requires k > 0 && Distinct(rankings)
    ensures SumOf(HitOf(k, weights, rankings, id).contributions, rankings) == HitOf(k, weights, rankings, id).score
  {
    if rankings != [] {
      var front, last := rankings[..|rankings| - 1], rankings[|rankings| - 1];
      ContributionsSumToScore(k, weights, front, id);
      OnlyFinders(k, weights, front, id, last.retriever);
      if Finds(weights, last, id) {
        SumIgnores(HitOf(k, weights, front, id).contributions, front, last.retriever,
                   Contribution(k, weights, last, id));
      }
    }
  }

  // ---------------------------------------------------------------- order of the retrievers

  lemma CreditCommutes(h: Hit, a: string, i: nat, x: real, b: string, j: nat, y: real)
    requires a != b
    ensures Credit(Credit(h, a, i, x), b, j, y) == Credit(Credit(h, b, j, y), a, i, x)
  {
    assert h.ranks[a := i][b := j] == h.ranks[b := j][a := i];
    assert h.contributions[a := x][b := y] == h.contributions[b := y][a := x];
  }

  /** Rankings of different retrievers can be counted in either order. */
  lemma CountedCommutes(k: int, weights: map<string, real>, h: Hit, a: Ranking, b: Ranking)
    requires k > 0 && a.retriever != b.retriever
    ensures Counted(k, weights, Counted(k, weights, h, a), b) == Counted(k, weights, Counted(k, weights, h, b), a)
  {
    if Finds(weights, a, h.id) && Finds(weights, b, h.id) {
      CreditCommutes(h, a.retriever, RankOf(a.ids, h.id), Contribution(k, weights, a, h.id),
                     b.retriever, RankOf(b.ids, h.id), Contribution(k, weights, b, h.id));
    }
  }

  function Without(rankings: seq<Ranking>, i: nat): seq<Ranking>
    requires i < |rankings|
  {
    rankings[..i] + rankings[i + 1..]
  }

  lemma {:induction false} CountLast(k: int, weights: map<string, real>, rankings: seq<Ranking>, i: nat, id: string)
    requires k > 0 && Distinct(rankings) && i < |rankings|
    ensures HitOf(k, weights, rankings, id)
      == Counted(k, weights, HitOf(k, weights, Without(rankings, i), id), rankings[i])
  {
    var n := |rankings| - 1;
    var front, last := rankings[..n], rankings[n];
    if i == n {
      assert Without(rankings, i) == front;
    } else {
      CountLast(k, weights, front, i, id);
      var rest := Without(rankings, i);
      assert rest[..|rest| - 1] == Without(front, i) && rest[|rest| - 1] == last;
      CountedCommutes(k, weights, HitOf(k, weights, Without(front, i), id), rankings[i], last);
    }
  }

  /** Finds the last of `a` in a rearrangement `b` of it. */
  lemma TakeOut(a: seq<Ranking>, b: seq<Ranking>) returns (i: nat)
    requires a != [] && multiset(a) == multiset(b)
    ensures i < |b| && b[i] == a[|a| - 1] && multiset(a[..|a| - 1]) == multiset(Without(b, i))
  {
    var last := a[|a| - 1];
    assert last in b by {
      assert last in multiset(b);
    }
    i :| 0 <= i < |b| && b[i] == last;
    RemoveOne(b, i);
    RemoveOne(a, |a| - 1);
    assert a[..|a| - 1] + a[|a|..] == a[..|a| - 1];
  }

  lemma {:induction false} HitIgnoresOrder(k: int, weights: map<string, real>, a: seq<Ranking>, b: seq<Ranking>,
                                           id: string)
    requires k > 0 && Distinct(a) && Distinct(b) && multiset(a) == multiset(b)
    ensures HitOf(k, weights, a, id) == HitOf(k, weights, b, id)
  {
    assert |multiset(a)| == |multiset(b)|;
    if a != [] {
      var i := TakeOut(a, b);
      CountLast(k, weights, b, i, id);
      HitIgnoresOrder(k, weights, a[..|a| - 1], Without(b, i), id);
    }
  }

  /** The order in which retrievers are listed does not matter. */
  lemma FusionIgnoresRetrieverOrder(k: int, weights: map<string, real>, a: seq<Ranking>, b: seq<Ranking>)
    requires k > 0 && Distinct(a) && Distinct(b) && multiset(a) == multiset(b)
    ensures Fused(k, weights, a) == Fused(k, weights, b)
  {
    var f, g := Fused(k, weights, a), Fused(k, weights, b);
    FusedIsRanked(k, weights, a);
    FusedIsRanked(k, weights, b);
    forall h ensures h in f <==> h in g {
      HitIgnoresOrder(k, weights, a, b, h.id);
      assert forall r :: r in a <==> r in multiset(a);
      assert forall r :: r in b <==> r in multiset(b);
    }
    BeforeIsWeakOrder();
    StrictlySortedUnique(f, g);
  }

  lemma StrictlySortedUnique(f: seq<Hit>, g: seq<Hit>)
    requires WeakOrder(Before) && forall h :: h in f <==> h in g
    requires (forall i, j :: 0 <= i < j < |f| ==> Before(f[i], f[j]))
      && forall i, j :: 0 <= i < j < |g| ==> Before(g[i], g[j])
    ensures f == g
  {
    assert NoRepeats(f) && NoRepeats(g);
    forall h: Hit ensures multiset(f)[h] == multiset(g)[h] {
      OnceInDistinct(f, h);
      OnceInDistinct(g, h);
    }
    forall x, y | x in f && y in f ensures x == y || Before(x, y) || Before(y, x) {
      var i :| 0 <= i < |f| && f[i] == x;
      var j :| 0 <= j < |f| && f[j] == y;
    }
    SortedIsUnique(f, g, Before);
  }

  // ---------------------------------------------------------------- agreement

  /** `a` stands before `b` in the list. */
  ghost predicate Precedes(hits: seq<Hit>, a: string, b: string) {
    exists i, j :: 0 <= i < j < |hits| && hits[i].id == a && hits[j].id == b
  }

  lemma {:induction false} PrecedesIffBefore(k: int, weights: map<string, real>, rankings: seq<Ranking>, a: string,
                                             b: string)
    requires k > 0 && Found(weights, rankings, a) && Found(weights, rankings, b)
    ensures Precedes(Fused(k, weights, rankings), a, b)
      <==> Before(HitOf(k, weights, rankings, a), HitOf(k, weights, rankings, b))
  {
    hide Fused, HitOf, Found;
    var f := Fused(k, weights, rankings);
    var x, y := HitOf(k, weights, rankings, a), HitOf(k, weights, rankings, b);
    FusedIsRanked(k, weights, rankings);
    BeforeIsWeakOrder();
    assert x in f && y in f;
    if Before(x, y) {
      var i :| 0 <= i < |f| && f[i] == x;
      var j :| 0 <= j < |f| && f[j] == y;
      assert i < j;
    }
    if Precedes(f, a, b) {
      var i, j :| 0 <= i < j < |f| && f[i].id == a && f[j].id == b;
      assert f[i] in f && f[j] in f;
    }
  }

  lemma CrossMultiply(a: real, b: real, z: real)
    requires b > 0.0 && z > 0.0
    ensures a / b >= 1.0 / z <==> z * a >= b
  {
    var u, v := a / b, 1.0 / z;
    assert u * b == a && v * z == 1.0;
    assert (u - v) * (b * z) == (u * b) * z - (v * z) * b;
    if u >= v {
      assert (u - v) * (b * z) >= 0.0;
    } else {
      assert (v - u) * (b * z) > 0.0;
    }
  }

  lemma SharesCompare(p: int, q: int, s: int)
    requires p > 0 && q > 0 && s > 0
    ensures 1.0 / p as real + 1.0 / q as real >= 1.0 / s as real <==> Outweigh(p, q, s)
  {
    var x, y, z := p as real, q as real, s as real;
    assert 1.0 / x + 1.0 / y == (x + y) / (x * y);
    CrossMultiply(x + y, x * y, z);
    assert (s * (p + q)) as real == z * (x + y) && (p * q) as real == x * y;
  }

  lemma {:induction false} HitByBoth(k: int, weights: map<string, real>, a: Ranking, b: Ranking, id: string)
    requires k > 0 && a.retriever != b.retriever && id in a.ids && id in b.ids
    requires WeightOf(weights, a.retriever) == 1.0 == WeightOf(weights, b.retriever)
    ensures var h := HitOf(k, weights, [a, b], id);
      h.score == Share(1.0, k, RankOf(a.ids, id)) + Share(1.0, k, RankOf(b.ids, id)) && |h.ranks| == 2
  {
    assert [a, b][..1] == [a] && [a][..0] == [];
    var h1 := Counted(k, weights, Hit(id, 0.0, map[], map[]), a);
    assert HitOf(k, weights, [a], id) == h1;
    assert h1.ranks == map[a.retriever := RankOf(a.ids, id)];
    assert HitOf(k, weights, [a, b], id).ranks.Keys == {a.retriever, b.retriever};
  }

  lemma {:induction false} HitByOne(k: int, weights: map<string, real>, a: Ranking, b: Ranking, id: string)
    requires k > 0 && a.retriever != b.retriever && (id in a.ids) != (id in b.ids)
    requires WeightOf(weights, a.retriever) == 1.0 == WeightOf(weights, b.retriever)
    ensures var h := HitOf(k, weights, [a, b], id);
      h.score == Share(1.0, k, if id in a.ids then RankOf(a.ids, id) else RankOf(b.ids, id)) && |h.ranks| == 1
  {
    assert [a, b][..1] == [a] && [a][..0] == [];
    var h1 := Counted(k, weights, Hit(id, 0.0, map[], map[]), a);
    assert HitOf(k, weights, [a], id) == h1;
    var finder := if id in a.ids then a else b;
    assert HitOf(k, weights, [a, b], id).ranks.Keys == {finder.retriever};
  }

  /** Of a hit found by both and one found by one: the tie goes to agreement. */
  lemma {:induction false} BothBeforeOne(k: int, weights: map<string, real>, a: Ranking, b: Ranking, both: string,
                                         one: string)
    requires k > 0 && a.retriever != b.retriever
    requires WeightOf(weights, a.retriever) == 1.0 == WeightOf(weights, b.retriever)
    requires both in a.ids && both in b.ids && (one in a.ids) != (one in b.ids)
    ensures var x, y := HitOf(k, weights, [a, b], both), HitOf(k, weights, [a, b], one);
      Before(x, y) <==> x.score >= y.score
  {
    HitByBoth(k, weights, a, b, both);
    HitByOne(k, weights, a, b, one);
  }

  /** Whether ranks with denominators `p` and `q` together outweigh one with denominator `s`. */
  predicate Outweigh(p: int, q: int, s: int) {
    s * (p + q) >= p * q
  }

  /** The denominators of the three shares: of the document found by both, and of the other. */
  lemma {:induction false} ScoresCompare(k: int, weights: map<string, real>, a: Ranking, b: Ranking, both: string,
                                         one: string)
    requires k > 0 && a.retriever != b.retriever
    requires WeightOf(weights, a.retriever) == 1.0 == WeightOf(weights, b.retriever)
    requires both in a.ids && both in b.ids && (one in a.ids) != (one in b.ids)
    ensures HitOf(k, weights, [a, b], both).score >= HitOf(k, weights, [a, b], one).score <==>
      Outweigh(k + RankOf(a.ids, both), k + RankOf(b.ids, both),
               k + if one in a.ids then RankOf(a.ids, one) else RankOf(b.ids, one))
  {
    HitByBoth(k, weights, a, b, both);
    HitByOne(k, weights, a, b, one);
    SharesCompare(k + RankOf(a.ids, both), k + RankOf(b.ids, both),
                  k + if one in a.ids then RankOf(a.ids, one) else RankOf(b.ids, one));
  }

  lemma FoundInPair(weights: map<string, real>, a: Ranking, b: Ranking, id: string)
    requires Finds(weights, a, id) || Finds(weights, b, id)
    ensures Found(weights, [a, b], id)
  {
    assert a in [a, b] && b in [a, b];
  }

  /** A document found by both stands before one found by one exactly when its two ranks
      outweigh the other's. */
  lemma {:induction false} AgreementIff(k: int, weights: map<string, real>, a: Ranking, b: Ranking, both: string,
                                        one: string)
    requires k > 0 && a.retriever != b.retriever
    requires WeightOf(weights, a.retriever) == 1.0 == WeightOf(weights, b.retriever)
    requires both in a.ids && both in b.ids && (one in a.ids) != (one in b.ids)
    ensures Precedes(Fused(k, weights, [a, b]), both, one) <==>
      Outweigh(k + RankOf(a.ids, both), k + RankOf(b.ids, both),
               k + if one in a.ids then RankOf(a.ids, one) else RankOf(b.ids, one))
  {
    FoundInPair(weights, a, b, both);
    FoundInPair(weights, a, b, one);
    PrecedesIffBefore(k, weights, [a, b], both, one);
    BothBeforeOne(k, weights, a, b, both, one);
    ScoresCompare(k, weights, a, b, both, one);
  }

  /** With lists of at most `k + 2` entries, agreement always wins. */
  lemma AgreementWins(k: int, weights: map<string, real>, a: Ranking, b: Ranking, both: string, one: string)
    requires k > 0 && a.retriever != b.retriever
    requires WeightOf(weights, a.retriever) == 1.0 == WeightOf(weights, b.retriever)
    requires |a.ids| <= k + 2 && |b.ids| <= k + 2
    requires both in a.ids && both in b.ids && (one in a.ids) != (one in b.ids)
    ensures Precedes(Fused(k, weights, [a, b]), both, one)
  {
    AgreementIff(k, weights, a, b, both, one);
    LongEnough(k, k + RankOf(a.ids, both), k + RankOf(b.ids, both),
               k + if one in a.ids then RankOf(a.ids, one) else RankOf(b.ids, one));
  }

  lemma LongEnough(k: int, p: int, q: int, s: int)
    requires k > 0 && k < p <= 2 * k + 2 && k < q <= 2 * k + 2 && s >= k + 1
    ensures Outweigh(p, q, s)
  {
    var m := k + 1;
    Product(p, 2 * m - q);
    Product(q, 2 * m - p);
    Product(p + q, s - m);
    Distribute(p, 2 * m, q);
    Distribute(q, 2 * m, p);
    Distribute(p + q, s, m);
  }

  lemma Distribute(a: int, b: int, c: int)
    ensures a * (b - c) == a * b - a * c
  {
  }

  lemma Product(a: int, b: int)
    requires a >= 0 && b >= 0
    ensures a * b >= 0
  {
  }

  function Filler(n: nat): (r: seq<string>)
    ensures |r| == n && forall i :: 0 <= i < n ==> r[i] == "filler"
  {
    seq(n, i => "filler")
  }

  /** Two lists of `k + 3` entries that end in the document both found. */
  function FirstList(k: nat): Ranking {
    Ranking("dense", ["one"] + Filler(k + 1) + ["both"])
  }

  function SecondList(k: nat): Ranking {
    Ranking("lexical", Filler(k + 2) + ["both"])
  }

  lemma RanksInLists(k: nat)
    ensures var a, b := FirstList(k), SecondList(k);
      && |a.ids| == k + 3 == |b.ids| && "one" in a.ids && "one" !in b.ids && "both" in a.ids && "both" in b.ids
      && RankOf(a.ids, "one") == 1 && RankOf(a.ids, "both") == k + 3 == RankOf(b.ids, "both")
  {
    var a, b := FirstList(k), SecondList(k);
    RankUnique(a.ids, "one", 1);
    RankUnique(a.ids, "both", k + 3);
    RankUnique(b.ids, "both", k + 3);
  }

  lemma LastPlacesDoNotOutweigh(k: nat)
    ensures !Outweigh(2 * k + 3, 2 * k + 3, k + 1)
  {
    var p := 2 * k + 3;
    assert (k + 1) * (p + p) == (p - 1) * p == p * p - p;
  }

  /** The bound is sharp: one more entry and a first place beats two last ones. */
  lemma AgreementCanLose(k: nat)
    requires k > 0
    ensures |FirstList(k).ids| == k + 3 == |SecondList(k).ids|
    ensures Precedes(Fused(k, map[], [FirstList(k), SecondList(k)]), "one", "both")
    ensures !Precedes(Fused(k, map[], [FirstList(k), SecondList(k)]), "both", "one")
  {
    RanksInLists(k);
    AgreementIff(k, map[], FirstList(k), SecondList(k), "both", "one");
    LastPlacesDoNotOutweigh(k);
    OneOrTheOther(k, FirstList(k), SecondList(k), "both", "one");
  }

  /** Of two documents found, one stands before the other. */
  lemma OneOrTheOther(k: int, a: Ranking, b: Ranking, x: string, y: string)
    requires k > 0 && x != y && (x in a.ids || x in b.ids) && (y in a.ids || y in b.ids)
    ensures Precedes(Fused(k, map[], [a, b]), x, y) <==> !Precedes(Fused(k, map[], [a, b]), y, x)
  {
    FoundInPair(map[], a, b, x);
    FoundInPair(map[], a, b, y);
    PrecedesIffBefore(k, map[], [a, b], x, y);
    PrecedesIffBefore(k, map[], [a, b], y, x);
    BeforeIsWeakOrder();
    BeforeDecides(HitOf(k, map[], [a, b], x), HitOf(k, map[], [a, b], y));
  }
}
