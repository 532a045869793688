/** Which pieces the descent returns, said without the descent: a piece is the first of ever
    smaller stretches around it that fits the target. */
module SplitShape {
  import opened Ranges
  import opened RecursiveSplit

  // ---------------------------------------------------------------- cutting at one separator

  /** Non-empty ranges that make up the outer one; all but the last end with the separator, and
      the separator ends nowhere inside any of them. */
  ghost predicate CutInto(doc: string, sep: string, outer: Range, pieces: seq<Range>) {
    && RangeIn(doc, outer) && Tiles(pieces, outer.0, outer.1) && RangesIn(doc, pieces)
    && (forall k :: 0 <= k < |pieces| - 1 ==> EndsWith(doc, sep, pieces[k]))
    && (forall k :: 0 <= k < |pieces| ==> Uncut(doc, sep, pieces[k]))
  }

  ghost predicate EndsWith(doc: string, sep: string, r: Range) {
    r.0 + |sep| <= r.1 <= |doc| && doc[r.1 - |sep|..r.1] == sep
  }

  lemma {:induction false} PiecesEndWith(doc: string, sep: string, cursor: nat, end: nat)
    requires cursor <= end <= |doc| && sep != ""
    ensures var pieces := Pieces(doc, sep, cursor, end);
      forall k :: 0 <= k < |pieces| - 1 ==> EndsWith(doc, sep, pieces[k])
    decreases end - cursor
  {
    if cursor < end {
      var found := Find(doc, sep, cursor, end);
      if found.Some? {
        var stop := found.value + |sep|;
        assert Occurs(doc, sep, found.value) && EndsWith(doc, sep, (cursor, stop));
        PiecesEndWith(doc, sep, stop, end);
        assert Pieces(doc, sep, cursor, end) == [(cursor, stop)] + Pieces(doc, sep, stop, end);
        hide Pieces, EndsWith, Occurs;
        FirstEndsToo(doc, sep, (cursor, stop), Pieces(doc, sep, stop, end));
      }
    }
  }

  lemma FirstEndsToo(doc: string, sep: string, r: Range, rest: seq<Range>)
    requires EndsWith(doc, sep, r) && forall k :: 0 <= k < |rest| - 1 ==> EndsWith(doc, sep, rest[k])
    ensures forall k :: 0 <= k < |[r] + rest| - 1 ==> EndsWith(doc, sep, ([r] + rest)[k])
  {
    hide EndsWith;
  }

  /** The cursor loop cuts like that, and there is no other way to. */
  lemma {:induction false} PiecesIff(doc: string, sep: string, outer: Range, pieces: seq<Range>)
    requires sep != "" && outer.0 < outer.1 <= |doc|
    ensures CutInto(doc, sep, outer, pieces) <==> pieces == Pieces(doc, sep, outer.0, outer.1)
  {
    PiecesTile(doc, sep, outer.0, outer.1);
    PiecesLieWithin(doc, sep, outer.0, outer.1);
    PiecesEndWith(doc, sep, outer.0, outer.1);
    PiecesAreUncut(doc, sep, outer.0, outer.1);
    hide Uncut, EndsWith, Tiles;
    if CutInto(doc, sep, outer, pieces) {
      OnlyPieces(doc, sep, outer.0, outer.1, pieces);
    }
  }

  lemma {:induction false} OnlyPieces(doc: string, sep: string, cursor: nat, end: nat, pieces: seq<Range>)
    requires sep != "" && cursor < end <= |doc| && CutInto(doc, sep, (cursor, end), pieces)
    ensures pieces == Pieces(doc, sep, cursor, end)
    decreases |pieces|
  {
    hide CutInto, Occurs, Tiles;
    FirstPiece(doc, sep, cursor, end, pieces);
    if |pieces| > 1 {
      OtherPieces(doc, sep, cursor, end, pieces);
      OnlyPieces(doc, sep, pieces[0].1, end, pieces[1..]);
      assert pieces == [pieces[0]] + pieces[1..];
    } else {
      assert pieces == [pieces[0]];
    }
  }

  lemma OtherPieces(doc: string, sep: string, cursor: nat, end: nat, pieces: seq<Range>)
    requires CutInto(doc, sep, (cursor, end), pieces) && |pieces| > 1
    ensures pieces[0].1 < end && CutInto(doc, sep, (pieces[0].1, end), pieces[1..])
  {
    hide Uncut, EndsWith;
    TilesLieWithin(pieces, cursor, end);
    assert pieces[1].0 == pieces[0].1;
  }

  lemma FirstPiece(doc: string, sep: string, cursor: nat, end: nat, pieces: seq<Range>)
    requires sep != "" && cursor < end <= |doc| && CutInto(doc, sep, (cursor, end), pieces)
    ensures |pieces| > 0 && pieces[0].0 == cursor && (|pieces| == 1 ==> pieces[0].1 == end)
    ensures var found := Find(doc, sep, cursor, end);
      if found.Some? then pieces[0].1 == found.value + |sep| else |pieces| == 1
  {
    var found := Find(doc, sep, cursor, end);
    var first := pieces[0];
    assert Uncut(doc, sep, first);
    if |pieces| > 1 {
      TilesLieWithin(pieces, cursor, end);
      assert EndsWith(doc, sep, first) && pieces[1].0 == first.1;
      assert Occurs(doc, sep, first.1 - |sep|);
    }
  }

  // ---------------------------------------------------------------- ever smaller stretches

  /** One stretch in which the separator cuts another. */
  ghost predicate CutAt(doc: string, sep: string, outer: Range, inner: Range) {
    exists pieces :: CutInto(doc, sep, outer, pieces) && inner in pieces
  }

  /** Each stretch is one of those that the next separator cuts from the one before. */
  ghost predicate Nested(doc: string, seps: seq<string>, c: seq<Range>) {
    && 0 < |c| <= |seps| + 1
    && (forall k :: 0 <= k < |c| ==> RangeIn(doc, c[k]))
    && (forall k :: 0 < k < |c| ==> CutAt(doc, seps[k - 1], c[k - 1], c[k]))
  }

  predicate Fits(doc: string, r: Range, target: int, count: string -> nat) {
    RangeIn(doc, r) && count(doc[r.0..r.1]) <= target
  }

  /** The last stretch is the first that fits, or no separator is left to cut it. */
  ghost predicate FirstThatFits(doc: string, seps: seq<string>, c: seq<Range>, target: int, count: string -> nat) {
    && Nested(doc, seps, c)
    && (forall k :: 0 <= k < |c| - 1 ==> !Fits(doc, c[k], target, count))
    && (Fits(doc, c[|c| - 1], target, count) || |c| == |seps| + 1)
  }

  ghost predicate Stands(doc: string, seps: seq<string>, outer: Range, r: Range, target: int, count: string -> nat) {
    exists c :: FirstThatFits(doc, seps, c, target, count) && c[0] == outer && c[|c| - 1] == r
  }

  /** Where the range is cut, the pieces of the pieces are the pieces. */
  lemma {:induction false} SplitOfPieces(doc: string, outer: Range, seps: seq<string>, target: int,
                                         count: string -> nat, r: Range)
    requires outer.0 < outer.1 <= |doc| && Separates(seps) && seps != [] && !Fits(doc, outer, target, count)
    ensures var pieces := Pieces(doc, seps[0], outer.0, outer.1);
      && RangesIn(doc, pieces)
      && (r in Split(doc, outer.0, outer.1, seps, target, count)
          <==> exists k :: 0 <= k < |pieces| && r in Split(doc, pieces[k].0, pieces[k].1, seps[1..], target, count))
  {
    var pieces := Pieces(doc, seps[0], outer.0, outer.1);
    PiecesTile(doc, seps[0], outer.0, outer.1);
    PiecesLieWithin(doc, seps[0], outer.0, outer.1);
    if |pieces| <= 1 {
      assert pieces[0] == outer;
    } else {
      EachIn(doc, pieces, seps[1..], target, count, r);
    }
  }

  lemma {:induction false} EachIn(doc: string, pieces: seq<Range>, seps: seq<string>, target: int,
                                  count: string -> nat, r: Range)
    requires RangesIn(doc, pieces) && Separates(seps)
    ensures r in SplitEach(doc, pieces, seps, target, count)
       <==> exists k :: 0 <= k < |pieces| && r in Split(doc, pieces[k].0, pieces[k].1, seps, target, count)
    decreases |pieces|
  {
    hide Split;
    if pieces != [] {
      EachIn(doc, pieces[1..], seps, target, count, r);
      if k :| 0 <= k < |pieces[1..]| && r in Split(doc, pieces[1..][k].0, pieces[1..][k].1, seps, target, count) {
        assert pieces[k + 1] == pieces[1..][k];
      }
      if k :| 0 < k < |pieces| && r in Split(doc, pieces[k].0, pieces[k].1, seps, target, count) {
        assert pieces[1..][k - 1] == pieces[k];
      }
    }
  }

  /** A range is returned if and only if it is the first to fit among stretches that the
      separators cut one from the other, in their order. */
  lemma {:induction false} SplitIff(doc: string, outer: Range, seps: seq<string>, target: int, count: string -> nat,
                                    r: Range)
    requires outer.0 < outer.1 <= |doc| && Separates(seps)
    ensures r in Split(doc, outer.0, outer.1, seps, target, count) <==> Stands(doc, seps, outer, r, target, count)
    decreases |seps|
  {
    hide Pieces, SplitEach, CutInto;
    if Fits(doc, outer, target, count) || seps == [] {
      StandsAlone(doc, seps, outer, r, target, count);
    } else {
      var pieces := Pieces(doc, seps[0], outer.0, outer.1);
      PiecesIff(doc, seps[0], outer, pieces);
      PiecesTile(doc, seps[0], outer.0, outer.1);
      SplitOfPieces(doc, outer, seps, target, count, r);
      TilesLieWithin(pieces, outer.0, outer.1);
      hide Split, Tiles;
      forall k | 0 <= k < |pieces|
        ensures r in Split(doc, pieces[k].0, pieces[k].1, seps[1..], target, count)
           <==> Stands(doc, seps[1..], pieces[k], r, target, count)
      {
        SplitIff(doc, pieces[k], seps[1..], target, count, r);
      }
      StandsIn(doc, seps, outer, pieces, r, target, count);
    }
  }

  lemma StandsAlone(doc: string, seps: seq<string>, outer: Range, r: Range, target: int, count: string -> nat)
    requires RangeIn(doc, outer) && (Fits(doc, outer, target, count) || seps == [])
    ensures Stands(doc, seps, outer, r, target, count) <==> r == outer
  {
    hide CutAt;
    var c := [outer];
    assert FirstThatFits(doc, seps, c, target, count);
    if Stands(doc, seps, outer, r, target, count) {
      var d :| FirstThatFits(doc, seps, d, target, count) && d[0] == outer && d[|d| - 1] == r;
      assert |d| == 1;
    }
  }

  lemma {:induction false} StandsIn(doc: string, seps: seq<string>, outer: Range, pieces: seq<Range>, r: Range,
                                    target: int, count: string -> nat)
    requires RangeIn(doc, outer) && outer.0 < outer.1 && !Fits(doc, outer, target, count)
    requires seps != [] && Separates(seps)
    requires CutInto(doc, seps[0], outer, pieces)
    ensures Stands(doc, seps, outer, r, target, count)
       <==> exists k :: 0 <= k < |pieces| && Stands(doc, seps[1..], pieces[k], r, target, count)
  {
    hide CutInto, Fits;
    if Stands(doc, seps, outer, r, target, count) {
      var c :| FirstThatFits(doc, seps, c, target, count) && c[0] == outer && c[|c| - 1] == r;
      assert |c| > 1 && CutAt(doc, seps[0], c[0], c[1]);
      var others :| CutInto(doc, seps[0], outer, others) && c[1] in others;
      PiecesIff(doc, seps[0], outer, others);
      PiecesIff(doc, seps[0], outer, pieces);
      var k :| 0 <= k < |pieces| && pieces[k] == c[1];
      ChainRest(doc, seps, c, target, count);
      assert Stands(doc, seps[1..], pieces[k], r, target, count);
    }
    if k :| 0 <= k < |pieces| && Stands(doc, seps[1..], pieces[k], r, target, count) {
      var c :| FirstThatFits(doc, seps[1..], c, target, count) && c[0] == pieces[k] && c[|c| - 1] == r;
      assert CutAt(doc, seps[0], outer, pieces[k]);
      ChainMore(doc, seps, outer, c, target, count);
      var d := [outer] + c;
      assert FirstThatFits(doc, seps, d, target, count) && d[0] == outer && d[|d| - 1] == r;
    }
  }

  lemma ChainRest(doc: string, seps: seq<string>, c: seq<Range>, target: int, count: string -> nat)
    requires FirstThatFits(doc, seps, c, target, count) && |c| > 1
    ensures FirstThatFits(doc, seps[1..], c[1..], target, count)
  {
    hide CutAt, Fits;
  }

  lemma ChainMore(doc: string, seps: seq<string>, outer: Range, c: seq<Range>, target: int, count: string -> nat)
    requires seps != [] && FirstThatFits(doc, seps[1..], c, target, count)
    requires RangeIn(doc, outer) && !Fits(doc, outer, target, count) && CutAt(doc, seps[0], outer, c[0])
    ensures FirstThatFits(doc, seps, [outer] + c, target, count)
  {
    hide CutAt, Fits;
    var d := [outer] + c;
    forall k | 0 < k < |d| ensures CutAt(doc, seps[k - 1], d[k - 1], d[k]) {
      if k > 1 {
        assert seps[1..][k - 2] == seps[k - 1];
        assert CutAt(doc, seps[1..][k - 2], c[k - 2], c[k - 1]);
      }
    }
    forall k | 0 <= k < |d| - 1 ensures !Fits(doc, d[k], target, count) {
      if k > 0 {
        assert !Fits(doc, c[k - 1], target, count);
      }
    }
  }

  // ---------------------------------------------------------------- the descent of the strategy

  /** Paragraphs, lines, sentences, clauses, phrases, words. */
  const BREAKS: seq<string> := ["\n\n", "\n", ". ", "; ", ", ", " "]

  lemma BreaksSeparate()
    ensures SEPARATORS == BREAKS && Separates(SEPARATORS)
  {
  }

  ghost predicate IsPiece(doc: string, r: Range, target: int, count: string -> nat) {
    Separates(SEPARATORS) && r in Split(doc, 0, |doc|, SEPARATORS, target, count)
  }

  /** A piece of the document is the first to fit among stretches cut at paragraphs, then at lines,
      sentences, clauses, phrases and words; and every such stretch is a piece. */
  lemma PieceIff(doc: string, r: Range, target: int, count: string -> nat)
    requires doc != ""
    ensures IsPiece(doc, r, target, count) <==> Stands(doc, BREAKS, (0, |doc|), r, target, count)
  {
    hide Split, Stands;
    BreaksSeparate();
    SplitIff(doc, (0, |doc|), BREAKS, target, count, r);
  }

  ghost predicate InOnePiece(doc: string, r: Range, target: int, count: string -> nat) {
    exists piece: Range :: IsPiece(doc, piece, target, count) && piece.0 <= r.0 && r.1 <= piece.1
  }

  /** A stretch that fits, in stretches that do not, is not cut. */
  lemma StretchStays(doc: string, c: seq<Range>, target: int, count: string -> nat)
    requires doc != "" && Nested(doc, BREAKS, c) && c[0] == (0, |doc|)
    requires forall k :: 0 < k < |c| - 1 ==> !Fits(doc, c[k], target, count)
    requires Fits(doc, c[|c| - 1], target, count)
    ensures InOnePiece(doc, c[|c| - 1], target, count)
  {
    hide CutAt, IsPiece;
    var whole, last := (0, |doc|), c[|c| - 1];
    if Fits(doc, whole, target, count) {
      StandsAlone(doc, BREAKS, whole, whole, target, count);
      PieceIff(doc, whole, target, count);
      assert IsPiece(doc, whole, target, count);
    } else {
      assert FirstThatFits(doc, BREAKS, c, target, count);
      PieceIff(doc, last, target, count);
      assert IsPiece(doc, last, target, count);
    }
  }

  /** A paragraph that fits is not cut. */
  lemma ParagraphStays(doc: string, paragraph: Range, target: int, count: string -> nat)
    requires doc != "" && CutAt(doc, "\n\n", (0, |doc|), paragraph) && Fits(doc, paragraph, target, count)
    ensures InOnePiece(doc, paragraph, target, count)
  {
    hide CutAt, InOnePiece;
    StretchStays(doc, [(0, |doc|), paragraph], target, count);
  }

  /** Nor is a line that fits, in a paragraph that does not. */
  lemma LineStays(doc: string, paragraph: Range, line: Range, target: int, count: string -> nat)
    requires doc != "" && CutAt(doc, "\n\n", (0, |doc|), paragraph) && CutAt(doc, "\n", paragraph, line)
    requires RangeIn(doc, paragraph) && !Fits(doc, paragraph, target, count) && Fits(doc, line, target, count)
    ensures InOnePiece(doc, line, target, count)
  {
    hide CutAt, InOnePiece;
    StretchStays(doc, [(0, |doc|), paragraph, line], target, count);
  }

  /** Nor is a sentence that fits, in a line that does not. */
  lemma SentenceStays(doc: string, paragraph: Range, line: Range, sentence: Range, target: int, count: string -> nat)
    requires doc != "" && CutAt(doc, "\n\n", (0, |doc|), paragraph) && CutAt(doc, "\n", paragraph, line)
    requires CutAt(doc, ". ", line, sentence) && RangeIn(doc, paragraph) && RangeIn(doc, line)
    requires !Fits(doc, paragraph, target, count) && !Fits(doc, line, target, count)
    requires Fits(doc, sentence, target, count)
    ensures InOnePiece(doc, sentence, target, count)
  {
    hide CutAt, InOnePiece;
    StretchStays(doc, [(0, |doc|), paragraph, line, sentence], target, count);
  }
}
