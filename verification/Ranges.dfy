/** Ranges of a document, and the texts between given runs of whitespace. */
module Ranges {
  import opened Texts

  type Range = (nat, nat)

  ghost predicate RangesIn(doc: string, ranges: seq<Range>) {
    forall k :: 0 <= k < |ranges| ==> ranges[k].0 <= ranges[k].1 <= |doc|
  }

  predicate RangeIn(doc: string, r: Range) { r.0 <= r.1 <= |doc| }

  // ---------------------------------------------------------------- text between breaks

  ghost predicate SpaceBetween(doc: string, a: nat, b: nat) {
    a <= b <= |doc| && forall p :: a <= p < b ==> IsSpace(doc[p])
  }

  /** Breaks: runs of whitespace, one after the other. */
  ghost predicate BreaksOk(doc: string, breaks: seq<Range>) {
    && (forall k :: 0 <= k < |breaks| ==> breaks[k].0 < breaks[k].1 && SpaceBetween(doc, breaks[k].0, breaks[k].1))
    && (forall j, k :: 0 <= j < k < |breaks| ==> breaks[j].1 <= breaks[k].0)
  }

  /** The text between the breaks, from `cursor` on. */
  function Bounds(doc: string, breaks: seq<Range>, cursor: nat): seq<Range>
    decreases |breaks|
  {
    if breaks == [] then if cursor < |doc| then [(cursor, |doc|)] else []
    else
      (if breaks[0].0 > cursor then [(cursor, breaks[0].0)] else []) + Bounds(doc, breaks[1..], breaks[0].1)
  }

  lemma {:induction false} BoundsOne(doc: string, breaks: seq<Range>, i: nat, cursor: nat, done: seq<Range>)
    requires i < |breaks|
    ensures done + Bounds(doc, breaks[i..], cursor)
         == done + (if breaks[i].0 > cursor then [(cursor, breaks[i].0)] else [])
            + Bounds(doc, breaks[i + 1..], breaks[i].1)
  {
    assert breaks[i..][1..] == breaks[i + 1..];
  }

  method FindBounds(doc: string, breaks: seq<Range>) returns (bounds: seq<Range>)
    ensures bounds == Bounds(doc, breaks, 0)
  {
    bounds := [];
    var cursor: nat, i: nat := 0, 0;
    ghost var all := Bounds(doc, breaks, 0);
    assert breaks[0..] == breaks;
    while i < |breaks|
      invariant i <= |breaks| && all == bounds + Bounds(doc, breaks[i..], cursor)
    {
      BoundsOne(doc, breaks, i, cursor, bounds);
      hide Bounds;
      if breaks[i].0 > cursor {
        bounds := bounds + [(cursor, breaks[i].0)];
      }
      cursor := breaks[i].1;
      i := i + 1;
    }
    assert breaks[i..] == [];
    if cursor < |doc| {
      bounds := bounds + [(cursor, |doc|)];
    }
  }

  /** The texts between follow each other with nothing but whitespace before, between and after them. */
  ghost predicate BoundsOk(doc: string, bounds: seq<Range>, from: nat) {
    if bounds == [] then SpaceBetween(doc, from, |doc|)
    else
      && SpaceBetween(doc, from, bounds[0].0)
      && bounds[0].0 < bounds[0].1 <= |doc|
      && BoundsOk(doc, bounds[1..], bounds[0].1)
  }

  lemma SpaceJoins(doc: string, a: nat, b: nat, c: nat)
    requires SpaceBetween(doc, a, b) && SpaceBetween(doc, b, c)
    ensures SpaceBetween(doc, a, c)
  {
    hide IsSpace;
  }

  lemma {:induction false} BoundsAreOk(doc: string, breaks: seq<Range>, cursor: nat)
    requires BreaksOk(doc, breaks) && cursor <= |doc| && (breaks != [] ==> cursor <= breaks[0].0)
    ensures BoundsOk(doc, Bounds(doc, breaks, cursor), cursor)
    decreases |breaks|
  {
    hide IsSpace;
    if breaks != [] {
      var b, rest := breaks[0], breaks[1..];
      BoundsAreOk(doc, rest, b.1);
      var tail := Bounds(doc, rest, b.1);
      SpaceJoins(doc, b.0, b.1, if tail == [] then |doc| else tail[0].0);
      if cursor < b.0 {
        assert ([(cursor, b.0)] + tail)[1..] == tail;
      } else {
        assert Bounds(doc, breaks, cursor) == tail;
      }
    }
  }

  lemma {:induction false} BoundsAscend(doc: string, bounds: seq<Range>, from: nat, k: nat)
    requires BoundsOk(doc, bounds, from) && k < |bounds|
    ensures from <= bounds[0].0 <= bounds[k].0 < bounds[k].1 <= |doc|
    ensures k > 0 ==> SpaceBetween(doc, bounds[k - 1].1, bounds[k].0)
    decreases k
  {
    hide IsSpace;
    if k > 0 {
      BoundsAscend(doc, bounds[1..], bounds[0].1, k - 1);
      if k > 1 {
        assert bounds[1..][k - 2] == bounds[k - 1];
      }
    }
  }

  lemma {:induction false} BoundsApart(doc: string, bounds: seq<Range>, from: nat, j: nat, k: nat)
    requires BoundsOk(doc, bounds, from) && j < k < |bounds|
    ensures bounds[j].1 <= bounds[k].0
    decreases j
  {
    hide IsSpace;
    if j > 0 {
      BoundsApart(doc, bounds[1..], bounds[0].1, j - 1, k - 1);
    } else {
      BoundsAscend(doc, bounds[1..], bounds[0].1, k - 1);
    }
  }

  lemma {:induction false} BoundsInDoc(doc: string, bounds: seq<Range>)
    requires BoundsOk(doc, bounds, 0)
    ensures RangesIn(doc, bounds)
  {
    hide BoundsOk;
    forall k | 0 <= k < |bounds| ensures RangeIn(doc, bounds[k]) {
      BoundsAscend(doc, bounds, 0, k);
    }
  }

  lemma {:induction false} TextInBounds(doc: string, bounds: seq<Range>, from: nat, p: nat) returns (k: nat)
    requires BoundsOk(doc, bounds, from) && from <= p < |doc| && !IsSpace(doc[p])
    ensures k < |bounds| && bounds[k].0 <= p < bounds[k].1
    decreases |bounds|
  {
    hide IsSpace;
    if bounds != [] && p < bounds[0].1 {
      k := 0;
    } else {
      k := TextInBounds(doc, bounds[1..], bounds[0].1, p);
      k := k + 1;
    }
  }

  /** Ranges of a document that follow each other. */
  ghost predicate InOrder(doc: string, ranges: seq<Range>) {
    && RangesIn(doc, ranges)
    && forall j, k :: 0 <= j < k < |ranges| ==> ranges[j].1 <= ranges[k].0
  }

  lemma {:induction false} BoundsInOrder(doc: string, bounds: seq<Range>)
    requires BoundsOk(doc, bounds, 0)
    ensures InOrder(doc, bounds)
  {
    hide BoundsOk;
    BoundsInDoc(doc, bounds);
    forall j, k | 0 <= j < k < |bounds| ensures bounds[j].1 <= bounds[k].0 {
      BoundsApart(doc, bounds, 0, j, k);
    }
  }
}
