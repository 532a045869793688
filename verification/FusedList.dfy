/** The fused list said outright: which hits, with what in them, in what order, and how much of it. */
module FusedList {
  import opened Wrappers
  import opened Texts
  import opened Fusion

  // ---------------------------------------------------------------- what a hit holds

  /** Retrievers without a weight count once; those of weight zero do not count. */
  ghost predicate Counts(weights: map<string, real>, r: Ranking, weight: real) {
    && (r.retriever in weights ==> weight == weights[r.retriever])
    && (r.retriever !in weights ==> weight == 1.0)
    && weight != 0.0
  }

  /** The first place of `id` in the ranking, counted from one. */
  ghost predicate StandsAt(r: Ranking, id: string, place: nat) {
    1 <= place <= |r.ids| && r.ids[place - 1] == id && id !in r.ids[..place - 1]
  }

  ghost predicate Contributes(k: int, weights: map<string, real>, r: Ranking, h: Hit) {
    forall weight: real, place: nat :: Counts(weights, r, weight) && StandsAt(r, h.id, place) ==>
      && r.retriever in h.ranks && h.ranks[r.retriever] == place
      && r.retriever in h.contributions && k + place > 0
      && h.contributions[r.retriever] == weight / (k + place) as real
  }

  ghost predicate FoundIn(weights: map<string, real>, r: Ranking, id: string) {
    exists weight :: Counts(weights, r, weight) && id in r.ids
  }

  ghost predicate NamedIn(weights: map<string, real>, rankings: seq<Ranking>, id: string, name: string) {
    exists r :: r in rankings && r.retriever == name && FoundIn(weights, r, id)
  }

  /** What each retriever that counts gave it, for the first place only, nothing else, and in all. */
  ghost predicate HitIs(k: int, weights: map<string, real>, rankings: seq<Ranking>, h: Hit) {
    && (forall r :: r in rankings ==> Contributes(k, weights, r, h))
    && (forall name :: name in h.ranks ==> NamedIn(weights, rankings, h.id, name))
    && (forall name :: name in h.contributions ==> NamedIn(weights, rankings, h.id, name))
    && h.score == SumOf(h.contributions, rankings)
  }

  lemma FindsIff(weights: map<string, real>, r: Ranking, id: string)
    ensures Finds(weights, r, id) <==> FoundIn(weights, r, id)
    ensures forall weight :: Counts(weights, r, weight) ==> weight == WeightOf(weights, r.retriever)
  {
    if Finds(weights, r, id) {
      assert Counts(weights, r, WeightOf(weights, r.retriever));
    }
  }

  lemma PlaceIs(r: Ranking, id: string, place: nat)
    ensures StandsAt(r, id, place) <==> id in r.ids && place == RankOf(r.ids, id)
  {
    if StandsAt(r, id, place) {
      forall j | 0 <= j < place - 1 ensures r.ids[j] != id {
        assert r.ids[..place - 1][j] == r.ids[j];
      }
      RankUnique(r.ids, id, place);
    }
    if id in r.ids && place == RankOf(r.ids, id) {
      var front := r.ids[..place - 1];
      assert forall j :: 0 <= j < |front| ==> front[j] == r.ids[j] != id;
    }
  }

  lemma HitIsOne(k: int, weights: map<string, real>, rankings: seq<Ranking>, id: string)
    requires k > 0 && Distinct(rankings)
    ensures HitIs(k, weights, rankings, HitOf(k, weights, rankings, id))
  {
    hide HitOf, SumOf, Distinct, RankOf, StandsAt, Finds, FoundIn, WeightOf, Counts;
    var h := HitOf(k, weights, rankings, id);
    forall r | r in rankings ensures Contributes(k, weights, r, h) {
      HitRecords(k, weights, rankings, r, id);
      forall weight: real, place: nat | Counts(weights, r, weight) && StandsAt(r, id, place)
        ensures r.retriever in h.ranks && h.ranks[r.retriever] == place
        ensures r.retriever in h.contributions && h.contributions[r.retriever] == weight / (k + place) as real
      {
        FindsIff(weights, r, id);
        PlaceIs(r, id, place);
        CountsFinds(weights, r, id, weight);
      }
    }
    forall name | name in h.ranks || name in h.contributions ensures NamedIn(weights, rankings, id, name) {
      OnlyFinders(k, weights, rankings, id, name);
      var r :| r in rankings && r.retriever == name && Finds(weights, r, id);
      FindsIff(weights, r, id);
    }
    ContributionsSumToScore(k, weights, rankings, id);
  }

  lemma CountsFinds(weights: map<string, real>, r: Ranking, id: string, weight: real)
    requires Counts(weights, r, weight) && id in r.ids
    ensures FoundIn(weights, r, id)
  {
  }

  lemma RecordedAlike(k: int, weights: map<string, real>, rankings: seq<Ranking>, g: Hit, h: Hit, name: string)
    requires k > 0 && Distinct(rankings) && g.id == h.id
    requires HitIs(k, weights, rankings, g) && HitIs(k, weights, rankings, h)
    requires NamedIn(weights, rankings, g.id, name)
    ensures name in g.ranks && name in h.ranks && g.ranks[name] == h.ranks[name]
    ensures name in g.contributions && name in h.contributions && g.contributions[name] == h.contributions[name]
  {
    hide SumOf, Distinct, RankOf, StandsAt, Finds, WeightOf, Counts, NamedIn;
    var r := NamedBy(weights, rankings, g.id, name);
    var weight :| Counts(weights, r, weight) && g.id in r.ids;
    var place := RankOf(r.ids, g.id);
    PlaceIs(r, g.id, place);
    assert Contributes(k, weights, r, g) && Contributes(k, weights, r, h);
  }

  lemma NamedBy(weights: map<string, real>, rankings: seq<Ranking>, id: string, name: string) returns (r: Ranking)
    requires NamedIn(weights, rankings, id, name)
    ensures r in rankings && r.retriever == name && FoundIn(weights, r, id)
  {
    r :| r in rankings && r.retriever == name && FoundIn(weights, r, id);
  }

  lemma NamedOrNot(k: int, weights: map<string, real>, rankings: seq<Ranking>, h: Hit, name: string)
    requires HitIs(k, weights, rankings, h)
    ensures name in h.ranks || name in h.contributions ==> NamedIn(weights, rankings, h.id, name)
  {
    hide NamedIn, Contributes;
  }

  /** There is only one such hit for an id. */
  lemma HitUnique(k: int, weights: map<string, real>, rankings: seq<Ranking>, g: Hit, h: Hit)
    requires k > 0 && Distinct(rankings) && g.id == h.id
    requires HitIs(k, weights, rankings, g) && HitIs(k, weights, rankings, h)
    ensures g == h
  {
    forall name
      ensures name in g.ranks <==> name in h.ranks
      ensures name in g.contributions <==> name in h.contributions
      ensures name in g.ranks ==> g.ranks[name] == h.ranks[name]
      ensures name in g.contributions ==> g.contributions[name] == h.contributions[name]
    {
      NamedOrNot(k, weights, rankings, g, name);
      NamedOrNot(k, weights, rankings, h, name);
      if NamedIn(weights, rankings, g.id, name) {
        RecordedAlike(k, weights, rankings, g, h, name);
      }
    }
    assert g.ranks == h.ranks && g.contributions == h.contributions;
    ScoreIsSum(k, weights, rankings, g);
    ScoreIsSum(k, weights, rankings, h);
  }

  lemma ScoreIsSum(k: int, weights: map<string, real>, rankings: seq<Ranking>, h: Hit)
    requires HitIs(k, weights, rankings, h)
    ensures h.score == SumOf(h.contributions, rankings)
  {
  }

  // ---------------------------------------------------------------- in what order

  /** A higher score, then more retrievers, then the id. */
  ghost predicate Outranks(a: Hit, b: Hit) {
    || a.score > b.score
    || (a.score == b.score && |a.ranks| > |b.ranks|)
    || (a.score == b.score && |a.ranks| == |b.ranks| && TextBefore(a.id, b.id))
  }

  lemma OutranksIff(a: Hit, b: Hit)
    ensures Outranks(a, b) <==> Before(a, b)
  {
    TextBeforeIff(a.id, b.id);
    hide TextBefore, TextAtMost;
  }

  // ---------------------------------------------------------------- the whole list

  ghost predicate IsFused(k: int, weights: map<string, real>, rankings: seq<Ranking>, f: seq<Hit>) {
    && (forall i, j :: 0 <= i < j < |f| ==> Outranks(f[i], f[j]))
    && (forall h :: h in f ==> HitIs(k, weights, rankings, h) && FoundByAny(weights, rankings, h.id))
    && (forall id :: FoundByAny(weights, rankings, id) ==> exists h :: h in f && h.id == id)
  }

  ghost predicate FoundByAny(weights: map<string, real>, rankings: seq<Ranking>, id: string) {
    exists r :: r in rankings && FoundIn(weights, r, id)
  }

  lemma FoundIff(weights: map<string, real>, rankings: seq<Ranking>, id: string)
    ensures FoundByAny(weights, rankings, id) <==> Found(weights, rankings, id)
  {
    forall r ensures Finds(weights, r, id) <==> FoundIn(weights, r, id) {
      FindsIff(weights, r, id);
    }
    hide Finds, FoundIn;
  }

  /** One hit for every id that a retriever that counts has found, with what each gave it, strictly
      ordered by score, agreement and id: this says what the fused list is. */
  lemma {:induction false} FusedIff(k: int, weights: map<string, real>, rankings: seq<Ranking>, f: seq<Hit>)
    requires k > 0 && Distinct(rankings)
    ensures IsFused(k, weights, rankings, f) <==> f == Fused(k, weights, rankings)
  {
    hide Fused, HitOf, HitIs, FoundByAny, Found, Outranks, Before, Distinct;
    var g := Fused(k, weights, rankings);
    FusedIsRanked(k, weights, rankings);
    forall a, b ensures Outranks(a, b) <==> Before(a, b) {
      OutranksIff(a, b);
    }
    forall id ensures FoundByAny(weights, rankings, id) <==> Found(weights, rankings, id) {
      FoundIff(weights, rankings, id);
    }
    forall h: Hit ensures HitIs(k, weights, rankings, h) <==> h == HitOf(k, weights, rankings, h.id) {
      HitIsOne(k, weights, rankings, h.id);
      if HitIs(k, weights, rankings, h) {
        HitUnique(k, weights, rankings, h, HitOf(k, weights, rankings, h.id));
      }
    }
    forall id | Found(weights, rankings, id) ensures exists h :: h in g && h.id == id {
      assert HitOf(k, weights, rankings, id) in g;
    }
    assert IsFused(k, weights, rankings, g);
    if IsFused(k, weights, rankings, f) {
      BeforeIsWeakOrder();
      forall h ensures h in f <==> h in g {
        if h in g {
          var x :| x in f && x.id == h.id;
        }
      }
      StrictlySortedUnique(f, g);
    }
  }

  /** A limit keeps the best hits; a negative one drops so many from the end. */
  lemma LimitKeepsBest(hits: seq<Hit>, limit: int)
    ensures var kept := Cut(hits, Some(limit));
      && kept <= hits && Cut(hits, None) == hits
      && |kept| == if 0 <= limit <= |hits| then limit else if limit > |hits| then |hits|
                   else if -limit <= |hits| then |hits| + limit else 0
  {
  }
}
