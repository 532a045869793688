/** Descending a hierarchy of separators until pieces fit, then packing the pieces. */
module RecursiveSplit {
  import opened Wrappers
  import opened Ranges

  const SEPARATORS: seq<string> := ["\n\n", "\n", ". ", "; ", ", ", " "]

  // ---------------------------------------------------------------- pieces at one separator

  predicate Occurs(doc: string, sep: string, q: nat) {
    q + |sep| <= |doc| && doc[q..q + |sep|] == sep
  }

  /** First occurrence at or after `i` that ends by `end`. */
  function Find(doc: string, sep: string, i: nat, end: nat): (r: Option<nat>)
    requires end <= |doc|
    ensures r.Some? ==> i <= r.value && r.value + |sep| <= end && Occurs(doc, sep, r.value)
    ensures forall q :: i <= q && q + |sep| <= end && (r.Some? ==> q < r.value) ==> !Occurs(doc, sep, q)
    decreases end - i
  {
    if i + |sep| > end then None
    else if doc[i..i + |sep|] == sep then Some(i)
    else if i == end then None
    else Find(doc, sep, i + 1, end)
  }

  /** The range cut after each occurrence of the separator. */
  function Pieces(doc: string, sep: string, cursor: nat, end: nat): seq<Range>
    requires end <= |doc| && sep != ""
    decreases end - cursor
  {
    if cursor >= end then []
    else
      match Find(doc, sep, cursor, end)
      case None => [(cursor, end)]
      case Some(q) => [(cursor, q + |sep|)] + Pieces(doc, sep, q + |sep|, end)
  }

  /** Ranges that follow each other without gap from `start` to `end`, none empty. */
  ghost predicate Tiles(ranges: seq<Range>, start: nat, end: nat) {
    && ranges != [] && ranges[0].0 == start && ranges[|ranges| - 1].1 == end
    && (forall k :: 0 <= k < |ranges| ==> ranges[k].0 < ranges[k].1)
    && (forall k :: 0 < k < |ranges| ==> ranges[k - 1].1 == ranges[k].0)
  }

  lemma {:induction false} PiecesTile(doc: string, sep: string, cursor: nat, end: nat)
    requires cursor < end <= |doc| && sep != ""
    ensures Tiles(Pieces(doc, sep, cursor, end), cursor, end)
    decreases end - cursor
  {
    hide Occurs;
    var found := Find(doc, sep, cursor, end);
    if found.Some? && found.value + |sep| < end {
      PiecesTile(doc, sep, found.value + |sep|, end);
    }
  }

  lemma Regroup(a: seq<Range>, b: seq<Range>, c: seq<Range>)
    ensures a + (b + c) == a + b + c
  {
  }

  method CutAt(doc: string, sep: string, start: nat, end: nat) returns (pieces: seq<Range>)
    requires end <= |doc| && sep != ""
    ensures pieces == Pieces(doc, sep, start, end)
  {
    hide Occurs;
    ghost var all := Pieces(doc, sep, start, end);
    pieces := [];
    var cursor := start;
    while cursor < end
      invariant all == pieces + Pieces(doc, sep, cursor, end)
      decreases end - cursor
    {
      var found := Find(doc, sep, cursor, end);
      if found.None? {
        return pieces + [(cursor, end)];
      }
      var stop := found.value + |sep|;
      Regroup(pieces, [(cursor, stop)], Pieces(doc, sep, stop, end));
      pieces := pieces + [(cursor, stop)];
      cursor := stop;
    }
  }

  // ---------------------------------------------------------------- the descent

  predicate Separates(separators: seq<string>) {
    forall k :: 0 <= k < |separators| ==> separators[k] != ""
  }

  function Split(doc: string, start: nat, end: nat, separators: seq<string>, target: int,
                 count: string -> nat): seq<Range>
    requires start <= end <= |doc| && Separates(separators)
    decreases |separators|, 0, 0
  {
    if count(doc[start..end]) <= target || separators == [] then [(start, end)]
    else
      var pieces := Pieces(doc, separators[0], start, end);
      if |pieces| <= 1 then Split(doc, start, end, separators[1..], target, count)
      else
        PiecesTile(doc, separators[0], start, end);
        TilesLieWithin(pieces, start, end);
        SplitEach(doc, pieces, separators[1..], target, count)
  }

  function SplitEach(doc: string, pieces: seq<Range>, separators: seq<string>, target: int,
                     count: string -> nat): seq<Range>
    requires RangesIn(doc, pieces) && Separates(separators)
    decreases |separators|, 1, |pieces|
  {
    if pieces == [] then []
    else
      Split(doc, pieces[0].0, pieces[0].1, separators, target, count)
      + SplitEach(doc, pieces[1..], separators, target, count)
  }

  lemma {:induction false} TilesLieWithin(ranges: seq<Range>, start: nat, end: nat)
    requires Tiles(ranges, start, end)
    ensures forall k :: 0 <= k < |ranges| ==> start <= ranges[k].0 < ranges[k].1 <= end
    decreases |ranges|
  {
    if |ranges| > 1 {
      assert Tiles(ranges[1..], ranges[1].0, end);
      TilesLieWithin(ranges[1..], ranges[1].0, end);
    }
  }

  lemma {:induction false} PiecesLieWithin(doc: string, sep: string, start: nat, end: nat)
    requires end <= |doc| && sep != "" && start <= end
    ensures RangesIn(doc, Pieces(doc, sep, start, end))
  {
    if start < end {
      PiecesTile(doc, sep, start, end);
      TilesLieWithin(Pieces(doc, sep, start, end), start, end);
    }
  }

  method SplitRecursive(doc: string, start: nat, end: nat, separators: seq<string>, target: int, count: string -> nat)
    returns (out: seq<Range>)
    requires start <= end <= |doc| && Separates(separators)
    ensures out == Split(doc, start, end, separators, target, count)
    decreases |separators|, 0
  {
    if count(doc[start..end]) <= target || separators == [] {
      return [(start, end)];
    }
    var sep, rest := separators[0], separators[1..];
    var pieces := CutAt(doc, sep, start, end);
    PiecesLieWithin(doc, sep, start, end);
    if |pieces| <= 1 {
      out := SplitRecursive(doc, start, end, rest, target, count);
      return;
    }
    out := SplitPieces(doc, pieces, rest, target, count);
  }

  method SplitPieces(doc: string, pieces: seq<Range>, separators: seq<string>, target: int, count: string -> nat)
    returns (out: seq<Range>)
    requires RangesIn(doc, pieces) && Separates(separators)
    ensures out == SplitEach(doc, pieces, separators, target, count)
    decreases |separators|, 1
  {
    hide Split;
    out := [];
    var i := 0;
    while i < |pieces|
      invariant i <= |pieces|
      invariant SplitEach(doc, pieces, separators, target, count)
             == out + SplitEach(doc, pieces[i..], separators, target, count)
    {
      var inner := SplitRecursive(doc, pieces[i].0, pieces[i].1, separators, target, count);
      assert pieces[i..][0] == pieces[i] && pieces[i..][1..] == pieces[i + 1..];
      Regroup(out, inner, SplitEach(doc, pieces[i + 1..], separators, target, count));
      out := out + inner;
      i := i + 1;
    }
  }

  // ---------------------------------------------------------------- what the descent keeps

  lemma TilesJoin(a: seq<Range>, b: seq<Range>, start: nat, mid: nat, end: nat)
    requires Tiles(a, start, mid) && Tiles(b, mid, end)
    ensures Tiles(a + b, start, end)
  {
  }

  /** The pieces tile the range exactly. */
  lemma {:induction false} SplitTiles(doc: string, start: nat, end: nat, separators: seq<string>, target: int,
                                      count: string -> nat)
    requires start < end <= |doc| && Separates(separators)
    ensures Tiles(Split(doc, start, end, separators, target, count), start, end)
    decreases |separators|, 0, 0
  {
    if count(doc[start..end]) > target && separators != [] {
      var pieces := Pieces(doc, separators[0], start, end);
      PiecesTile(doc, separators[0], start, end);
      if |pieces| <= 1 {
        SplitTiles(doc, start, end, separators[1..], target, count);
      } else {
        TilesLieWithin(pieces, start, end);
        EachTiles(doc, pieces, start, end, separators[1..], target, count);
      }
    }
  }

  lemma {:induction false} EachTiles(doc: string, pieces: seq<Range>, start: nat, end: nat, separators: seq<string>,
                                     target: int, count: string -> nat)
    requires Tiles(pieces, start, end) && RangesIn(doc, pieces) && Separates(separators)
    ensures Tiles(SplitEach(doc, pieces, separators, target, count), start, end)
    decreases |separators|, 1, |pieces|
  {
    var first, rest := pieces[0], pieces[1..];
    SplitTiles(doc, first.0, first.1, separators, target, count);
    if rest == [] {
      assert SplitEach(doc, pieces, separators, target, count)
         == Split(doc, first.0, first.1, separators, target, count);
    } else {
      assert Tiles(rest, first.1, end);
      EachTiles(doc, rest, first.1, end, separators, target, count);
      TilesJoin(Split(doc, first.0, first.1, separators, target, count),
                SplitEach(doc, rest, separators, target, count),
                start, first.1, end);
    }
  }

  /** No occurrence of `sep` in the range ends before the range does. */
  ghost predicate Uncut(doc: string, sep: string, r: Range) {
    forall q :: r.0 <= q && q + |sep| < r.1 ==> !Occurs(doc, sep, q)
  }

  lemma UncutWithin(doc: string, sep: string, outer: Range, inner: Range)
    requires Uncut(doc, sep, outer) && outer.0 <= inner.0 && inner.1 <= outer.1
    ensures Uncut(doc, sep, inner)
  {
  }

  lemma {:induction false} PiecesAreUncut(doc: string, sep: string, cursor: nat, end: nat)
    requires cursor <= end <= |doc| && sep != ""
    ensures forall k :: 0 <= k < |Pieces(doc, sep, cursor, end)| ==> Uncut(doc, sep, Pieces(doc, sep, cursor, end)[k])
    decreases end - cursor
  {
    hide Occurs;
    if cursor < end {
      var found := Find(doc, sep, cursor, end);
      if found.Some? {
        PiecesAreUncut(doc, sep, found.value + |sep|, end);
        assert Uncut(doc, sep, (cursor, found.value + |sep|));
      }
    }
  }

  /** A piece fits the target, or cannot be cut at any separator. */
  ghost predicate FitsOrUncut(doc: string, r: Range, separators: seq<string>, target: int, count: string -> nat) {
    r.0 <= r.1 <= |doc|
    && (count(doc[r.0..r.1]) <= target || forall k :: 0 <= k < |separators| ==> Uncut(doc, separators[k], r))
  }

  lemma {:induction false} SplitFits(doc: string, start: nat, end: nat, separators: seq<string>, target: int,
                                     count: string -> nat, k: nat)
    requires start < end <= |doc| && Separates(separators)
    requires k < |Split(doc, start, end, separators, target, count)|
    ensures FitsOrUncut(doc, Split(doc, start, end, separators, target, count)[k], separators, target, count)
    decreases |separators|, 0, 0
  {
    hide Uncut, Occurs, FitsOrUncut, Pieces, SplitEach;
    if count(doc[start..end]) <= target || separators == [] {
      WholeFits(doc, (start, end), separators, target, count);
    } else {
      var sep, rest := separators[0], separators[1..];
      var pieces := Pieces(doc, sep, start, end);
      PiecesTile(doc, sep, start, end);
      PiecesAreUncut(doc, sep, start, end);
      if |pieces| <= 1 {
        SplitTiles(doc, start, end, rest, target, count);
        TilesLieWithin(Split(doc, start, end, rest, target, count), start, end);
        SplitFits(doc, start, end, rest, target, count, k);
        var r := Split(doc, start, end, rest, target, count)[k];
        UncutWithin(doc, sep, pieces[0], r);
        OneSeparatorMore(doc, r, sep, rest, target, count);
        assert separators == [sep] + rest;
      } else {
        TilesLieWithin(pieces, start, end);
        EachFits(doc, pieces, sep, rest, target, count, k);
        assert separators == [sep] + rest;
      }
    }
  }

  lemma WholeFits(doc: string, r: Range, separators: seq<string>, target: int, count: string -> nat)
    requires r.0 <= r.1 <= |doc| && (count(doc[r.0..r.1]) <= target || separators == [])
    ensures FitsOrUncut(doc, r, separators, target, count)
  {
  }

  lemma OneSeparatorMore(doc: string, r: Range, sep: string, rest: seq<string>, target: int, count: string -> nat)
    requires FitsOrUncut(doc, r, rest, target, count) && Uncut(doc, sep, r)
    ensures FitsOrUncut(doc, r, [sep] + rest, target, count)
  {
    hide Uncut;
  }

  lemma {:induction false} EachFits(doc: string, pieces: seq<Range>, sep: string, rest: seq<string>, target: int,
                                    count: string -> nat, k: nat)
    requires RangesIn(doc, pieces) && Separates(rest) && k < |SplitEach(doc, pieces, rest, target, count)|
    requires forall i :: 0 <= i < |pieces| ==> pieces[i].0 < pieces[i].1 && Uncut(doc, sep, pieces[i])
    ensures FitsOrUncut(doc, SplitEach(doc, pieces, rest, target, count)[k], [sep] + rest, target, count)
    decreases |rest|, 1, |pieces|
  {
    hide Uncut, Occurs, FitsOrUncut;
    var first := pieces[0];
    var front := Split(doc, first.0, first.1, rest, target, count);
    if k < |front| {
      SplitFits(doc, first.0, first.1, rest, target, count, k);
      SplitTiles(doc, first.0, first.1, rest, target, count);
      TilesLieWithin(front, first.0, first.1);
      UncutWithin(doc, sep, first, front[k]);
      OneSeparatorMore(doc, front[k], sep, rest, target, count);
    } else {
      EachFits(doc, pieces[1..], sep, rest, target, count, k - |front|);
    }
  }
}
