/** Which blocks the tail that leads a chunk in comes from, and when the chunk cites them all. */
module OverlapProvenance {
  import opened Wrappers
  import opened Texts
  import opened Passages
  import opened Ranges
  import opened Chunks
  import opened FixedWindows
  import opened RecursiveSplit
  import opened RecursiveChunks
  import opened RecursiveChunker
  import opened Rounding
  import opened Tokens
  import LargestWindows

  // ---------------------------------------------------------------- the last block of a range

  predicate Meets(s: Span, r: Range) {
    s.start < r.1 && r.0 < s.end
  }

  /** The last span a range overlaps. */
  function LastSpan(spans: seq<Span>, r: Range): Option<Span> {
    if spans == [] then None
    else
      match LastSpan(spans[1..], r)
      case Some(s) => Some(s)
      case None => if Meets(spans[0], r) then Some(spans[0]) else None
  }

  lemma {:induction false} LastSpanIsLast(spans: seq<Span>, r: Range) returns (j: nat)
    requires exists k :: 0 <= k < |spans| && Meets(spans[k], r)
    ensures j < |spans| && LastSpan(spans, r) == Some(spans[j]) && Meets(spans[j], r)
    ensures forall k :: j < k < |spans| ==> !Meets(spans[k], r)
    ensures InRange(spans, r.0, r.1) != []
    ensures var blocks := InRange(spans, r.0, r.1); blocks[|blocks| - 1] == spans[j].block
  {
    if k :| 0 <= k < |spans[1..]| && Meets(spans[1..][k], r) {
      j := LastSpanIsLast(spans[1..], r);
      j := j + 1;
    } else {
      j := 0;
      forall k | 0 < k < |spans| ensures !Meets(spans[k], r) {
        assert spans[k] == spans[1..][k - 1];
      }
      NoSpanMeets(spans[1..], r);
    }
  }

  lemma {:induction false} NoSpanMeets(spans: seq<Span>, r: Range)
    requires forall k :: 0 <= k < |spans| ==> !Meets(spans[k], r)
    ensures LastSpan(spans, r) == None && InRange(spans, r.0, r.1) == []
  {
    if spans != [] {
      assert !Meets(spans[0], r);
      NoSpanMeets(spans[1..], r);
    }
  }

  // ---------------------------------------------------------------- where the tail begins

  /** How many of the words begin at `from` or later. */
  function WordsFrom(words: seq<Range>, from: int): nat {
    if words == [] then 0 else (if words[0].0 >= from then 1 else 0) + WordsFrom(words[1..], from)
  }

  lemma {:induction false} WordsFromAll(words: seq<Range>, from: int)
    ensures WordsFrom(words, from) <= |words|
    ensures (forall k :: 0 <= k < |words| ==> words[k].0 >= from) ==> WordsFrom(words, from) == |words|
  {
    if words != [] {
      WordsFromAll(words[1..], from);
    }
  }

  /** Of ascending words, the last few all begin late enough exactly when the first of them does. */
  lemma {:induction false} LastWordsFrom(words: seq<Range>, from: int, s: nat)
    requires forall j, k :: 0 <= j < k < |words| ==> words[j].0 <= words[k].0
    requires s < |words|
    ensures |words| - s <= WordsFrom(words, from) <==> words[s].0 >= from
  {
    WordsFromAll(words[1..], from);
    if s > 0 {
      LastWordsFrom(words[1..], from, s - 1);
      assert words[0].0 <= words[s].0;
      WordsFromAll(words, from);
    } else {
      WordsFromAll(words, from);
    }
  }

  /** Where in the document the trimmed text of a range begins. */
  function TextStart(doc: string, r: Range): nat
    requires RangeIn(doc, r)
  {
    r.0 + Lead(doc[r.0..r.1])
  }

  /** Where in the document the tail of a range's text begins, if it is not empty. */
  function TailFrom(doc: string, r: Range, overlap: int, count: string -> nat): Option<nat>
    requires RangeIn(doc, r)
  {
    var text := Strip(doc[r.0..r.1]);
    var words, texts := Words(text, 0), WordTexts(text);
    var s := TailStart(texts, |texts|, 0, overlap, count);
    if s < |texts| then Some(TextStart(doc, r) + words[s].0) else None
  }

  /** Some character of the tail comes from this block. */
  ghost predicate DrawsFrom(doc: string, r: Range, overlap: int, count: string -> nat, s: Span)
    requires RangeIn(doc, r)
  {
    var from := TailFrom(doc, r, overlap, count);
    from.Some? && exists p :: from.value <= p < r.1 && !IsSpace(doc[p]) && s.start <= p < s.end
  }

  /** How many words of a range's text lie in the last block it overlaps. */
  function LastBlockWords(doc: string, spans: seq<Span>, r: Range): nat
    requires RangeIn(doc, r)
  {
    match LastSpan(spans, r)
    case None => 0
    case Some(s) => WordsFrom(Words(Strip(doc[r.0..r.1]), 0), s.start - TextStart(doc, r))
  }

  lemma TailBegins(doc: string, r: Range, overlap: int, count: string -> nat, from: int)
    requires RangeIn(doc, r) && HasText(doc, r)
    ensures var text := Strip(doc[r.0..r.1]);
      var start := TailFrom(doc, r, overlap, count);
      && (start.None? <==> Tail(text, overlap, count) == [])
      && (start.Some? ==>
            && r.0 <= start.value < r.1 && !IsSpace(doc[start.value])
            && (|Tail(text, overlap, count)| <= WordsFrom(Words(text, 0), from - TextStart(doc, r))
                <==> start.value >= from))
  {
    hide Words, TailStart, Lead, Trail, IsSpace;
    var part := doc[r.0..r.1];
    var text := Strip(part);
    TextIff(doc, r);
    StripEmptyIffBlank(part);
    StripSlice(part);
    WordsAreOk(text, 0);
    var words, texts := Words(text, 0), WordTexts(text);
    var s := TailStart(texts, |texts|, 0, overlap, count);
    if s < |texts| {
      LastWordsFrom(words, from - TextStart(doc, r), s);
      assert text[words[s].0] == part[Lead(part) + words[s].0] == doc[TextStart(doc, r) + words[s].0];
    }
  }

  // ---------------------------------------------------------------- when the tail's blocks are cited

  ghost predicate DistinctIds(spans: seq<Span>) {
    forall j, k :: 0 <= j < k < |spans| ==> spans[j].block.id != spans[k].block.id
  }

  /** Every block the tail of a range's text draws from is among these. */
  ghost predicate TailCited(doc: string, spans: seq<Span>, r: Range, overlap: int,
                            count: string -> nat, ids: seq<string>)
    requires RangeIn(doc, r)
  {
    forall k :: 0 <= k < |spans| && DrawsFrom(doc, r, overlap, count, spans[k]) ==> spans[k].block.id in ids
  }

  lemma TextMeets(doc: string, spans: seq<Span>, r: Range, p: nat) returns (k: nat)
    requires Flattened(doc, spans) && RangeIn(doc, r) && r.0 <= p < r.1 && !IsSpace(doc[p])
    ensures k < |spans| && spans[k].start <= p < spans[k].end && Meets(spans[k], r)
  {
    hide IsSpace, SpansOk, SpansApart;
    assert InSpan(spans, p);
    k :| 0 <= k < |spans| && spans[k].start <= p < spans[k].end;
  }

  lemma SpansInOrder(doc: string, spans: seq<Span>, j: nat, k: nat, p: nat)
    requires Flattened(doc, spans) && j < |spans| && k < |spans| && spans[k].start <= p < spans[k].end
    ensures if p < spans[j].start then k < j && spans[k].end <= spans[j].start else k >= j
  {
    hide IsSpace, TextInSpans;
    assert SpanOk(doc, spans[j]);
  }

  /** A tail that begins within the last block draws from it alone. */
  lemma LateTailIsCited(doc: string, spans: seq<Span>, r: Range, last: nat, overlap: int, count: string -> nat,
                        ids: seq<string>)
    requires Flattened(doc, spans) && RangeIn(doc, r) && last < |spans|
    requires forall k :: last < k < |spans| ==> !Meets(spans[k], r)
    requires var from := TailFrom(doc, r, overlap, count);
      from.Some? && r.0 <= from.value && from.value >= spans[last].start
    requires spans[last].block.id in ids
    ensures TailCited(doc, spans, r, overlap, count, ids)
  {
    hide IsSpace, SpansOk, TextInSpans, TailFrom;
    forall k | 0 <= k < |spans| && DrawsFrom(doc, r, overlap, count, spans[k]) ensures k == last {
      var p :| TailFrom(doc, r, overlap, count).value <= p < r.1 && spans[k].start <= p < spans[k].end;
      assert Meets(spans[k], r);
      SpansInOrder(doc, spans, last, k, p);
    }
  }

  /** A tail that begins before it draws from a block that is not cited. */
  lemma EarlyTailIsNot(doc: string, spans: seq<Span>, r: Range, last: nat, overlap: int, count: string -> nat,
                       r2: Range, ids: seq<string>)
    requires Flattened(doc, spans) && DistinctIds(spans) && RangeIn(doc, r) && RangeIn(doc, r2) && r.1 <= r2.0
    requires last < |spans| && Meets(spans[last], r)
    requires var from := TailFrom(doc, r, overlap, count);
      from.Some? && r.0 <= from.value < r.1 && !IsSpace(doc[from.value]) && from.value < spans[last].start
    requires forall id :: id in ids ==> id == spans[last].block.id || id in Ids(InRange(spans, r2.0, r2.1))
    ensures !TailCited(doc, spans, r, overlap, count, ids)
  {
    hide IsSpace, SpansOk, TextInSpans, TailFrom;
    var p := TailFrom(doc, r, overlap, count).value;
    var k := TextMeets(doc, spans, r, p);
    assert DrawsFrom(doc, r, overlap, count, spans[k]);
    SpansInOrder(doc, spans, last, k, p);
    if spans[k].block.id in Ids(InRange(spans, r2.0, r2.1)) {
      IdMeets(spans, r2, k);
    }
  }

  lemma IdMeets(spans: seq<Span>, r: Range, k: nat)
    requires DistinctIds(spans) && k < |spans| && spans[k].block.id in Ids(InRange(spans, r.0, r.1))
    ensures Meets(spans[k], r)
  {
    var blocks := InRange(spans, r.0, r.1);
    var i :| 0 <= i < |blocks| && blocks[i].id == spans[k].block.id;
    InRangeMembers(spans, r.0, r.1, blocks[i]);
  }

  /** A chunk led in by a tail cites every block the tail draws from if and only if the tail takes
      no more words than lie in the last block of the range before. */
  lemma LedCitesTailIff(doc: string, spans: seq<Span>, r: Range, r2: Range, prev: Chunk, cur: Chunk, i: nat,
                        overlap: int, count: string -> nat)
    requires Flattened(doc, spans) && DistinctIds(spans) && RangeIn(doc, r) && RangeIn(doc, r2) && r.1 <= r2.0
    requires Cites(doc, spans, r, prev, i, count) && Cites(doc, spans, r2, cur, i + 1, count)
    ensures TailCited(doc, spans, r, overlap, count, Led(prev, cur, overlap, count).blockIds)
       <==> |Tail(prev.text, overlap, count)| <= LastBlockWords(doc, spans, r)
  {
    hide IsSpace, Flattened, DistinctIds, Tail, TailFrom, Words, Lead, Strip, TailCited, Led;
    TextIff(doc, r);
    var p :| r.0 <= p < r.1 && !IsSpace(doc[p]);
    var k := TextMeets(doc, spans, r, p);
    var last := LastSpanIsLast(spans, r);
    TailBegins(doc, r, overlap, count, spans[last].start);
    var ids := Led(prev, cur, overlap, count).blockIds;
    if Tail(prev.text, overlap, count) == [] {
      NoTailIsCited(doc, spans, r, overlap, count, ids);
    } else {
      LedIds(spans, r, r2, prev, cur, last, overlap, count);
      if TailFrom(doc, r, overlap, count).value >= spans[last].start {
        LateTailIsCited(doc, spans, r, last, overlap, count, ids);
      } else {
        EarlyTailIsNot(doc, spans, r, last, overlap, count, r2, ids);
      }
    }
  }

  lemma NoTailIsCited(doc: string, spans: seq<Span>, r: Range, overlap: int, count: string -> nat, ids: seq<string>)
    requires RangeIn(doc, r) && TailFrom(doc, r, overlap, count).None?
    ensures TailCited(doc, spans, r, overlap, count, ids)
  {
  }

  /** A led chunk cites the last block of the chunk before, and its own blocks. */
  lemma LedIds(spans: seq<Span>, r: Range, r2: Range, prev: Chunk, cur: Chunk, last: nat, overlap: int,
               count: string -> nat)
    requires Tail(prev.text, overlap, count) != []
    requires prev.blockIds == Ids(InRange(spans, r.0, r.1)) && cur.blockIds == Ids(InRange(spans, r2.0, r2.1))
    requires last < |spans| && InRange(spans, r.0, r.1) != []
    requires var blocks := InRange(spans, r.0, r.1); blocks[|blocks| - 1] == spans[last].block
    ensures var ids := Led(prev, cur, overlap, count).blockIds;
      && spans[last].block.id in ids
      && forall id :: id in ids ==> id == spans[last].block.id || id in Ids(InRange(spans, r2.0, r2.1))
  {
    hide Tail, Distinct, InRange, Ids, Join;
    assert LastOf(prev.blockIds) == [spans[last].block.id];
    DistinctKeeps(LastOf(prev.blockIds) + cur.blockIds);
  }

  // ---------------------------------------------------------------- in what the strategy returns

  ghost predicate Following(ranges: seq<Range>) {
    forall j, k :: 0 <= j < k < |ranges| ==> ranges[j].1 <= ranges[k].0
  }

  lemma {:induction false} TilesFollow(ranges: seq<Range>, start: nat, end: nat)
    requires Tiles(ranges, start, end)
    ensures Following(ranges) && forall k :: 0 <= k < |ranges| ==> ranges[k].1 <= end
  {
    TilesLieWithin(ranges, start, end);
    if |ranges| > 1 {
      var rest := ranges[1..];
      TilesFollow(rest, rest[0].0, end);
      TilesLieWithin(rest, rest[0].0, end);
      forall j, k | 0 <= j < k < |ranges| ensures ranges[j].1 <= ranges[k].0 {
        assert ranges[k] == rest[k - 1];
        assert j > 0 ==> ranges[j] == rest[j - 1];
      }
    }
  }

  lemma {:induction false} WithTextFollows(doc: string, ranges: seq<Range>)
    requires RangesIn(doc, ranges) && Following(ranges)
    ensures Following(WithText(doc, ranges))
  {
    hide HasText;
    if ranges != [] {
      var n := |ranges| - 1;
      var front := WithText(doc, ranges[..n]);
      WithTextFollows(doc, ranges[..n]);
      forall j | 0 <= j < |front| ensures front[j].1 <= ranges[n].0 {
        var k := UsedIsRange(doc, ranges[..n], j);
      }
    }
  }

  /** A chunk after the first cites every block its tail draws from if and only if the tail takes
      no more words than lie in the last block of the chunk before. */
  lemma RecursiveTailCitedIff(blocks: seq<SourceBlock>, target: int, overlap: int, count: string -> nat, k: nat)
    requires overlap > 0 && 0 < k < |PackedChunks(blocks, target, count)|
    requires DistinctIds(FlatSpans(Prepare(blocks)))
    ensures var doc, spans := FlatText(Prepare(blocks)), FlatSpans(Prepare(blocks));
      && doc != "" && EndInSpace(SEPARATORS) && RangesIn(doc, PackedRanges(doc, SEPARATORS, target, count))
      && var used := WithText(doc, PackedRanges(doc, SEPARATORS, target, count));
        && k < |used|
        && var prev, led := PackedChunks(blocks, target, count)[k - 1], RecursiveOf(blocks, target, overlap, count)[k];
          && Cites(doc, spans, used[k - 1], prev, k - 1, count)
          && (TailCited(doc, spans, used[k - 1], overlap, count, led.blockIds)
              <==> |Tail(prev.text, overlap, count)| <= LastBlockWords(doc, spans, used[k - 1]))
  {
    hide PackedRanges, ChunksOf, Flattened, EndInSpace, FlatText, FlatSpans, WithText, Cites, TailCited, Led, Tail,
         LastBlockWords, DistinctIds, Tiles, Prepare, Strip, IsSpace, HasText;
    SeparatorsEndInSpace();
    hide PackedRanges, ChunksOf, Flattened, EndInSpace, FlatText, FlatSpans, WithText, Cites, TailCited, Led, Tail,
      LastBlockWords, DistinctIds, Tiles;
    var doc, spans := FlatText(Prepare(blocks)), FlatSpans(Prepare(blocks));
    var ranges := PackedRanges(doc, SEPARATORS, target, count);
    FlatIsFlattened(Prepare(blocks));
    PackedRangesTile(doc, SEPARATORS, target, count);
    ChunksCiteRanges(doc, spans, ranges, count);
    TilesFollow(ranges, 0, |doc|);
    WithTextFollows(doc, ranges);
    var used, chunks := WithText(doc, ranges), PackedChunks(blocks, target, count);
    LedCitesTailIff(doc, spans, used[k - 1], used[k], chunks[k - 1], chunks[k], k - 1, overlap, count);
  }

  // ---------------------------------------------------------------- a block that is not cited

  function Line(id: string, order: int, text: string): SourceBlock {
    SourceBlock(id, 1, order, "paragraph", text, true, None, [])
  }

  /** Two blocks of a letter each and a third with text that fills a chunk. */
  function TwoLettersAnd(rest: string): seq<SourceBlock> {
    [Line("1", 1, "a"), Line("2", 2, "b"), Line("3", 3, rest)]
  }

  /** Text on one line, neither beginning nor ending with whitespace. */
  ghost predicate OneLine(s: string) {
    s != "" && !IsSpace(s[0]) && !IsSpace(s[|s| - 1]) && forall i :: 0 <= i < |s| ==> s[i] != '\n'
  }

  lemma LettersStrip()
    ensures Strip("a") == "a" && Strip("b") == "b"
  {
    SolidStrips("a");
    SolidStrips("b");
  }

  lemma LinesPrepared(rest: string)
    requires OneLine(rest)
    ensures Prepare(TwoLettersAnd(rest)) == TwoLettersAnd(rest)
  {
    hide Strip;
    var blocks := TwoLettersAnd(rest);
    LettersStrip();
    SolidStrips(rest);
    assert blocks[1..] == [blocks[1], blocks[2]] && blocks[1..][1..] == [blocks[2]] && blocks[1..][1..][1..] == [];
    assert Kept([blocks[2]]) == [blocks[2]];
    assert Kept([blocks[1], blocks[2]]) == [blocks[1], blocks[2]];
    assert Kept(blocks) == blocks;
    LinesSorted(blocks[0], blocks[1], blocks[2]);
  }

  lemma LinesSorted(a: SourceBlock, b: SourceBlock, c: SourceBlock)
    requires Earlier(a, b) && Earlier(b, c)
    ensures Sorting.Sort([a, b, c], Earlier) == [a, b, c]
  {
    assert [c][1..] == [] && [b, c][1..] == [c] && [a, b, c][1..] == [b, c];
    assert Sorting.Sort([c], Earlier) == [c];
    assert Sorting.Sort([b, c], Earlier) == [b, c];
  }

  function LinesDoc(rest: string): string {
    "a\n\nb\n\n" + rest
  }

  function LinesSpans(rest: string): seq<Span> {
    [Span(0, 1, Line("1", 1, "a")), Span(3, 4, Line("2", 2, "b")), Span(6, 6 + |rest|, Line("3", 3, rest))]
  }

  lemma LinesFlattened(rest: string)
    requires OneLine(rest)
    ensures FlatText(TwoLettersAnd(rest)) == LinesDoc(rest) && FlatSpans(TwoLettersAnd(rest)) == LinesSpans(rest)
  {
    hide Strip;
    var blocks := TwoLettersAnd(rest);
    LettersStrip();
    SolidStrips(rest);
    assert blocks[..2] == [blocks[0], blocks[1]] && blocks[..2][..1] == [blocks[0]] && blocks[..2][..1][..0] == [];
    assert FlatText([blocks[0]]) == "a" && FlatSpans([blocks[0]]) == [Span(0, 1, blocks[0])];
    assert FlatText(blocks[..2]) == "a\n\nb"
      && FlatSpans(blocks[..2]) == [Span(0, 1, blocks[0]), Span(3, 4, blocks[1])];
  }

  /** The two letters and their line breaks go together, the rest is a piece of its own. */
  ghost predicate RestFills(rest: string, target: int, count: string -> nat) {
    && count("a\n\n") + count("b\n\n") <= target < count("a\n\n") + count("b\n\n") + count(rest)
    && count(rest) <= target < count(LinesDoc(rest))
  }

  lemma NoBreakAt(rest: string, q: nat)
    requires OneLine(rest) && 6 <= q && q + 2 <= |LinesDoc(rest)|
    ensures !Occurs(LinesDoc(rest), "\n\n", q)
  {
    assert LinesDoc(rest)[q..q + 2][0] == rest[q - 6];
  }

  lemma LinesPieces(rest: string)
    requires OneLine(rest)
    ensures Pieces(LinesDoc(rest), "\n\n", 0, |LinesDoc(rest)|) == [(0, 3), (3, 6), (6, |LinesDoc(rest)|)]
  {
    var doc, sep := LinesDoc(rest), "\n\n";
    assert doc[0..2] == "a\n" && doc[1..3] == sep && doc[3..5] == "b\n" && doc[4..6] == sep;
    assert Find(doc, sep, 0, |doc|) == Find(doc, sep, 1, |doc|) == Some(1);
    assert Find(doc, sep, 3, |doc|) == Find(doc, sep, 4, |doc|) == Some(4);
    forall q | 6 <= q && q + 2 <= |doc| ensures !Occurs(doc, sep, q) {
      NoBreakAt(rest, q);
    }
    assert Find(doc, sep, 6, |doc|) == None;
    assert Pieces(doc, sep, 6, |doc|) == [(6, |doc|)];
    assert Pieces(doc, sep, 3, |doc|) == [(3, 6)] + Pieces(doc, sep, 6, |doc|);
    assert Pieces(doc, sep, 0, |doc|) == [(0, 3)] + Pieces(doc, sep, 3, |doc|);
  }

  lemma LinesPacked(rest: string, target: int, count: string -> nat)
    requires OneLine(rest) && RestFills(rest, target, count) && Separates(SEPARATORS)
    ensures PackedRanges(LinesDoc(rest), SEPARATORS, target, count) == [(0, 6), (6, |LinesDoc(rest)|)]
  {
    hide Split, Packs, RestFills, OneLine;
    LinesSplit(rest, target, count);
    LinesGroups(rest, target, count);
    var n := |LinesDoc(rest)|;
    assert Hulls([[(6, n)]]) == [(6, n)];
    assert [[(0, 3), (3, 6)], [(6, n)]][1..] == [[(6, n)]];
  }

  lemma LinesGroups(rest: string, target: int, count: string -> nat)
    requires OneLine(rest) && RestFills(rest, target, count)
    ensures var n := |LinesDoc(rest)|;
      RangesIn(LinesDoc(rest), [(0, 3), (3, 6), (6, n)])
      && Packs(LinesDoc(rest), [(0, 3), (3, 6), (6, n)], [], target, count) == [[(0, 3), (3, 6)], [(6, n)]]
  {
    hide Spent, IsSpace;
    var doc := LinesDoc(rest);
    var n := |doc|;
    var none: seq<Range> := [];
    var pieces: seq<Range> := [(0, 3), (3, 6), (6, n)];
    var held, last: seq<Range> := [(0, 3), (3, 6)], [(6, n)];
    assert doc[0..3] == "a\n\n" && doc[3..6] == "b\n\n" && doc[6..n] == rest;
    assert pieces[1..] == [(3, 6), (6, n)] && pieces[1..][1..] == last && last[1..] == none;
    HeldSpent(doc, count);
    assert Packs(doc, none, last, target, count) == [last];
    assert Packs(doc, last, held, target, count) == [held] + [last];
    assert [(0, 3)] + [(3, 6)] == held && none + [(0, 3)] == [(0, 3)];
    assert Packs(doc, pieces[1..], [(0, 3)], target, count) == [held] + [last];
  }

  lemma HeldSpent(doc: string, count: string -> nat)
    requires |doc| >= 6
    ensures Spent(doc, [(0, 3)], count) == count(doc[0..3])
    ensures Spent(doc, [(0, 3), (3, 6)], count) == count(doc[0..3]) + count(doc[3..6])
  {
    var none: seq<Range> := [];
    SpentOneMore(doc, none, (0, 3), count);
    SpentOneMore(doc, [(0, 3)], (3, 6), count);
    assert none + [(0, 3)] == [(0, 3)] && [(0, 3)] + [(3, 6)] == [(0, 3), (3, 6)];
  }

  lemma LinesSplit(rest: string, target: int, count: string -> nat)
    requires OneLine(rest) && RestFills(rest, target, count) && Separates(SEPARATORS)
    ensures Split(LinesDoc(rest), 0, |LinesDoc(rest)|, SEPARATORS, target, count)
         == [(0, 3), (3, 6), (6, |LinesDoc(rest)|)]
  {
    var doc := LinesDoc(rest);
    var n := |doc|;
    assert doc[0..3] == "a\n\n" && doc[3..6] == "b\n\n" && doc[6..n] == rest && doc[0..n] == doc;
    LinesPieces(rest);
    var seps := SEPARATORS[1..];
    assert SEPARATORS[0] == "\n\n";
    var pieces: seq<Range> := [(0, 3), (3, 6), (6, n)];
    assert pieces[1..] == [(3, 6), (6, n)] && pieces[1..][1..] == [(6, n)] && pieces[1..][1..][1..] == [];
    assert SplitEach(doc, [(6, n)], seps, target, count) == [(6, n)];
    assert SplitEach(doc, [(3, 6), (6, n)], seps, target, count) == [(3, 6), (6, n)];
    assert SplitEach(doc, pieces, seps, target, count) == pieces;
  }

  /** The two chunks before overlap. */
  function LettersChunk(count: string -> nat): Chunk {
    Chunk(0, "a\n\nb", ["1", "2"], count("a\n\nb"), Some((1, 1)), None, [], false)
  }

  function RestChunk(rest: string, count: string -> nat): Chunk {
    Chunk(1, rest, ["3"], count(rest), Some((1, 1)), None, [], false)
  }

  lemma {:induction false} LinesRanges(blocks: seq<SourceBlock>)
    requires blocks != []
    requires forall b :: b in blocks ==> b.paged && b.pageNo == 1 && b.chars.None? && b.sectionPath == []
    ensures PageRange(blocks) == Some((1, 1)) && CharRange(blocks) == None && DeepestPath(blocks) == []
  {
    if |blocks| > 1 {
      LinesRanges(blocks[..|blocks| - 1]);
    }
  }

  /** The blocks that the two packed ranges meet. */
  lemma LinesMet(rest: string)
    requires rest != ""
    ensures var spans := LinesSpans(rest);
      && InRange(spans, 0, 6) == [spans[0].block, spans[1].block]
      && InRange(spans, 6, |LinesDoc(rest)|) == [spans[2].block]
  {
    var spans, n := LinesSpans(rest), |LinesDoc(rest)|;
    assert spans[1..] == [spans[1], spans[2]] && spans[1..][1..] == [spans[2]] && spans[1..][1..][1..] == [];
    assert InRange([spans[2]], 0, 6) == [] && InRange([spans[2]], 6, n) == [spans[2].block];
  }

  lemma LettersAssembled(rest: string, count: string -> nat)
    requires OneLine(rest)
    ensures Assemble(0, LinesDoc(rest)[0..6], InRange(LinesSpans(rest), 0, 6), count) == Some(LettersChunk(count))
  {
    hide IsSpace, Strip, InRange;
    LinesMet(rest);
    var spans := LinesSpans(rest);
    var blocks := [spans[0].block, spans[1].block];
    assert Ids(blocks) == ["1", "2"];
    LinesRanges(blocks);
    assert LinesDoc(rest)[0..6] == "a\n\nb\n\n";
    LettersTrimmed();
  }

  lemma LettersTrimmed()
    ensures Strip("a\n\nb\n\n") == "a\n\nb"
  {
    var s := "a\n\nb\n\n";
    assert !IsSpace(s[0]) && !IsSpace(s[3]) && IsSpace(s[4]) && IsSpace(s[5]);
    assert LStrip(s) == s;
    TrailUnique(s, 2);
  }

  lemma RestAssembled(rest: string, count: string -> nat)
    requires OneLine(rest)
    ensures var n := |LinesDoc(rest)|;
      Assemble(1, LinesDoc(rest)[6..n], InRange(LinesSpans(rest), 6, n), count) == Some(RestChunk(rest, count))
  {
    hide Strip;
    SolidStrips(rest);
    hide IsSpace, InRange;
    LinesMet(rest);
    var blocks := [LinesSpans(rest)[2].block];
    assert Ids(blocks) == ["3"];
    LinesRanges(blocks);
    assert LinesDoc(rest)[6..|LinesDoc(rest)|] == rest;
  }

  lemma LinesChunked(rest: string, target: int, count: string -> nat)
    requires OneLine(rest) && RestFills(rest, target, count)
    ensures PackedChunks(TwoLettersAnd(rest), target, count) == [LettersChunk(count), RestChunk(rest, count)]
  {
    hide Assemble, InRange, LettersChunk, RestChunk, PackedRanges, OneLine, RestFills, FlatText, FlatSpans,
         Prepare, Strip, IsSpace, Tiles, EndInSpace;
    SeparatorsEndInSpace();
    hide Assemble, InRange, LettersChunk, RestChunk, PackedRanges, OneLine, RestFills;
    LinesPrepared(rest);
    LinesFlattened(rest);
    LinesPacked(rest, target, count);
    LettersAssembled(rest, count);
    RestAssembled(rest, count);
    var doc, spans, n := LinesDoc(rest), LinesSpans(rest), |LinesDoc(rest)|;
    var none: seq<Range> := [];
    ChunksOfOneMore(doc, spans, none, (0, 6), count);
    ChunksOfOneMore(doc, spans, [(0, 6)], (6, n), count);
    assert none + [(0, 6)] == [(0, 6)] && [(0, 6)] + [(6, n)] == [(0, 6), (6, n)];
  }

  lemma LettersAreWords()
    ensures WordTexts("a\n\nb") == ["a", "b"]
  {
    var s := "a\n\nb";
    assert !IsSpace(s[0]) && IsSpace(s[1]) && IsSpace(s[2]) && !IsSpace(s[3]);
    assert SkipSpace(s, 0) == 0 && SkipWord(s, 0) == 1 && SkipSpace(s, 1) == 3 && SkipWord(s, 3) == 4;
    assert Words(s, 4) == [] && Words(s, 1) == [(3, 4)] && Words(s, 0) == [(0, 1), (3, 4)];
    assert s[0..1] == "a" && s[3..4] == "b";
  }

  lemma LettersAreTail(overlap: int, count: string -> nat)
    requires count("a") + count("b") <= overlap
    ensures Tail("a\n\nb", overlap, count) == ["a", "b"]
  {
    hide Words, IsSpace;
    LettersAreWords();
    var words := ["a", "b"];
    assert TailStart(words, 0, count("b") + count("a"), overlap, count) == 0;
    assert TailStart(words, 1, count("b"), overlap, count) == 0;
    assert TailStart(words, 2, 0, overlap, count) == 0;
    assert words[0..] == words;
  }

  /** The second chunk is led in by the words of two blocks and cites one of them. */
  lemma FirstBlockDropped(rest: string, target: int, overlap: int, count: string -> nat)
    requires OneLine(rest) && RestFills(rest, target, count)
    requires 0 < overlap && count("a") + count("b") <= overlap
    ensures var chunks := RecursiveOf(TwoLettersAnd(rest), target, overlap, count);
      && |chunks| == 2 && chunks[1].text == "a b " + rest && chunks[1].blockIds == ["2", "3"]
  {
    hide PackedChunks, OneLine, RestFills, Tail, TwoLettersAnd;
    LinesChunked(rest, target, count);
    LettersAreTail(overlap, count);
    var tail := ["a", "b"];
    assert tail[..1] == ["a"];
    assert Join(tail, " ") == "a" + " " + "b";
    var ids := ["2"] + ["3"];
    assert ids[..1] == ["2"] && ids[..1][..0] == [];
    assert Distinct(ids[..1]) == ["2"];
    assert Distinct(ids) == ["2", "3"];
  }

  // ---------------------------------------------------------------- and with the defaults

  lemma BreakCounts(count: string -> nat, isWord: char -> bool)
    requires Approximates(count, isWord)
    ensures count("a") == 1 == count("b") && count("a\n\n") == 1 == count("b\n\n")
    ensures TokenCount("a\n\nb\n\n", isWord) == 2
  {
    hide IsSpace, TokenCount, Strip;
    OneLetterCounts("a", count, isWord);
    OneLetterCounts("b", count, isWord);
    assert "a" + "\n\n" == "a\n\n" && "b" + "\n\n" == "b\n\n";
    assert "a\n\nb\n\n" == "a\n\n" + "b\n\n";
    LineBreaksAreSpace();
    TokensAdd("a\n\n", "b\n\n", isWord);
  }

  lemma LineBreaksAreSpace()
    ensures Blank("\n\n") && "\n\n"[1] == '\n' && IsSpace('\n') && !IsSpace('a') && !IsSpace('b')
  {
  }

  lemma OneLetterCounts(letter: string, count: string -> nat, isWord: char -> bool)
    requires Approximates(count, isWord) && (letter == "a" || letter == "b")
    ensures count(letter) == 1 == count(letter + "\n\n") && TokenCount(letter + "\n\n", isWord) == 1
  {
    LineBreaksAreSpace();
    hide IsSpace, Strip;
    assert TokenCount(letter, isWord) == 1;
    TokensAdd(letter, "\n\n", isWord);
    SpacesHaveNone("\n\n", isWord);
    StripEmptyIffBlank(letter);
    StripEmptyIffBlank(letter + "\n\n");
    assert (letter + "\n\n")[0] == letter[0];
  }

  lemma LettersCount(n: nat, count: string -> nat, isWord: char -> bool)
    requires Approximates(count, isWord) && n > 0
    ensures var rest := LargestWindows.Letters(n);
      && OneLine(rest) && TokenCount(rest, isWord) == n && count(rest) == Tenths(13 * n)
  {
    hide IsSpace, TokenCount, Words, ApproxTokens;
    var rest := LargestWindows.Letters(n);
    LargestWindows.LettersAreOnes(n, count, isWord);
    LargestWindows.LetterWords(n, 0);
    LargestWindows.WindowTokens(rest, 0, n, isWord);
    LargestWindows.WindowCounts(Cut(rest, count), 0, n, count, isWord);
    assert rest[0..|rest|] == rest;
    LettersAreLine(n);
  }

  lemma LettersAreLine(n: nat)
    requires n > 0
    ensures OneLine(LargestWindows.Letters(n))
  {
  }

  lemma WholeCounts(n: nat, count: string -> nat, isWord: char -> bool)
    requires Approximates(count, isWord) && n > 0
    ensures count(LinesDoc(LargestWindows.Letters(n))) == Tenths(13 * (n + 2))
  {
    hide IsSpace, TokenCount, Strip, LargestWindows.Letters;
    var rest := LargestWindows.Letters(n);
    var head := "a\n\nb\n\n";
    LettersCount(n, count, isWord);
    BreakCounts(count, isWord);
    LineBreaksAreSpace();
    assert head[|head| - 1] == '\n';
    TokensAdd(head, rest, isWord);
    StripEmptyIffBlank(head + rest);
    assert !IsSpace((head + rest)[0]);
    LargestWindows.TenthsAtMost(13 * (n + 2), 0);
  }

  const DEFAULT_OVERLAP: int := 64

  /** It happens with the default counter, target and overlap. */
  lemma DefaultDropsBlock(count: string -> nat, isWord: char -> bool)
    requires Approximates(count, isWord)
    ensures var rest := LargestWindows.Letters(394);
      var chunks := RecursiveOf(TwoLettersAnd(rest), LargestWindows.DEFAULT_TARGET, DEFAULT_OVERLAP, count);
      && |chunks| == 2 && chunks[1].text == "a b " + rest && chunks[1].blockIds == ["2", "3"]
  {
    hide IsSpace, TokenCount, Approximates, OneLine, LinesDoc, RecursiveOf, TwoLettersAnd, LargestWindows.Letters;
    LettersCount(394, count, isWord);
    WholeCounts(394, count, isWord);
    BreakCounts(count, isWord);
    FirstBlockDropped(LargestWindows.Letters(394), LargestWindows.DEFAULT_TARGET, DEFAULT_OVERLAP, count);
  }
}
