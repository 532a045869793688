/** Words, and what leads a chunk in, said outright. */
module OverlapShape {
  import opened Wrappers
  import opened Texts
  import opened Passages
  import opened Ranges
  import opened Sums
  import opened Chunks
  import opened ChunkShape
  import opened FixedWindows
  import opened RecursiveSplit
  import opened SplitShape
  import opened RecursiveChunks
  import opened RecursiveChunker

  // ---------------------------------------------------------------- words

  ghost predicate Solid(doc: string, w: Range) {
    w.0 < w.1 <= |doc| && forall p :: w.0 <= p < w.1 ==> !IsSpace(doc[p])
  }

  ghost predicate StartsFresh(doc: string, i: nat) {
    i == 0 || (i <= |doc| && IsSpace(doc[i - 1]))
  }

  ghost predicate EndsClean(doc: string, i: nat) {
    i < |doc| ==> IsSpace(doc[i])
  }

  /** A run without whitespace that cannot be made longer. */
  ghost predicate IsWord(doc: string, w: Range) {
    Solid(doc, w) && StartsFresh(doc, w.0) && EndsClean(doc, w.1)
  }

  ghost predicate AreWords(doc: string, words: seq<Range>) {
    && (forall j, k :: 0 <= j < k < |words| ==> words[j].0 < words[k].0)
    && (forall w: Range :: w in words <==> IsWord(doc, w))
  }

  lemma {:induction false} WordsFrom(doc: string, i: nat)
    requires i <= |doc| && (i == 0 || i == |doc| || IsSpace(doc[i]))
    ensures var words := Words(doc, i);
      && (forall j, k :: 0 <= j < k < |words| ==> words[j].0 < words[k].0)
      && (forall k :: 0 <= k < |words| ==> i <= words[k].0)
      && (forall w: Range :: w in words <==> IsWord(doc, w) && w.0 >= i)
    decreases |doc| - i
  {
    hide IsSpace;
    var start := SkipSpace(doc, i);
    if start < |doc| {
      var end := SkipWord(doc, start);
      WordsFrom(doc, end);
      var rest := Words(doc, end);
      assert IsWord(doc, (start, end));
      forall w: Range ensures w in [(start, end)] + rest <==> IsWord(doc, w) && w.0 >= i {
        if IsWord(doc, w) {
          OnlyWordHere(doc, i, start, end, w);
        }
      }
    } else {
      forall w: Range ensures IsWord(doc, w) ==> w.0 < i {
        assert IsWord(doc, w) ==> !IsSpace(doc[w.0]);
      }
    }
  }

  lemma InsideSolid(doc: string, v: Range, p: nat)
    requires Solid(doc, v)
    ensures v.0 < p <= v.1 ==> !StartsFresh(doc, p)
    ensures v.0 <= p < v.1 ==> !EndsClean(doc, p)
  {
  }

  lemma OnlyWordHere(doc: string, i: nat, start: nat, end: nat, w: Range)
    requires i <= start < end <= |doc| && (forall p :: i <= p < start ==> IsSpace(doc[p]))
    requires IsWord(doc, (start, end)) && IsWord(doc, w)
    ensures i <= w.0 < end ==> w == (start, end)
  {
    assert !IsSpace(doc[w.0]);
    hide Solid, StartsFresh, EndsClean;
    InsideSolid(doc, (start, end), w.0);
    InsideSolid(doc, w, end);
    InsideSolid(doc, (start, end), w.1);
  }

  lemma {:induction false} SameAscending(a: seq<Range>, b: seq<Range>)
    requires forall j, k :: 0 <= j < k < |a| ==> a[j].0 < a[k].0
    requires forall j, k :: 0 <= j < k < |b| ==> b[j].0 < b[k].0
    requires forall w: Range :: w in a <==> w in b
    ensures a == b
  {
    if a != [] {
      assert a[0] in b;
      assert b[0] in a;
      assert a[0] == b[0];
      forall w: Range ensures w in a[1..] <==> w in b[1..] {
        assert w in a[1..] <==> w in a && w != a[0];
        assert w in b[1..] <==> w in b && w != b[0];
      }
      SameAscending(a[1..], b[1..]);
    } else {
      FirstIsIn(b);
    }
  }

  lemma FirstIsIn(s: seq<Range>)
    ensures s != [] ==> s[0] in s
  {
  }

  /** The words of a document are all its longest runs without whitespace, in order. */
  lemma {:induction false} WordsIff(doc: string, words: seq<Range>)
    ensures AreWords(doc, words) <==> words == Words(doc, 0)
  {
    hide IsWord, Words;
    WordsFrom(doc, 0);
    if AreWords(doc, words) {
      SameAscending(words, Words(doc, 0));
    }
  }

  // ---------------------------------------------------------------- the tail of the chunk before

  function TextsOf(doc: string, words: seq<Range>): (r: seq<string>)
    requires forall k :: 0 <= k < |words| ==> words[k].0 <= words[k].1 <= |doc|
    ensures |r| == |words| && forall k :: 0 <= k < |r| ==> r[k] == doc[words[k].0..words[k].1]
  {
    seq(|words|, k requires 0 <= k < |words| => doc[words[k].0..words[k].1])
  }

  /** The last words of a text, as many as cost at most the overlap together. */
  ghost predicate IsTail(text: string, overlap: int, count: string -> nat, words: seq<Range>, n: nat,
                         tail: seq<string>)
  {
    && AreWords(text, words) && n <= |words| && (forall k :: 0 <= k < |words| ==> words[k].0 <= words[k].1 <= |text|)
    && var texts := TextsOf(text, words);
      && tail == texts[n..]
      && (n == |words| || Sum(CostsOf(texts, count), n, |words|) <= overlap)
      && (n == 0 || Sum(CostsOf(texts, count), n - 1, |words|) > overlap)
  }

  ghost predicate TailOf(text: string, overlap: int, count: string -> nat, tail: seq<string>) {
    exists words, n :: IsTail(text, overlap, count, words, n, tail)
  }

  lemma {:induction false} TailIs(text: string, overlap: int, count: string -> nat)
    ensures TailOf(text, overlap, count, Tail(text, overlap, count))
  {
    hide Words, IsWord, Sum, TailStart;
    var words := Words(text, 0);
    WordsIff(text, words);
    WordsAreOk(text, 0);
    var texts := WordTexts(text);
    assert texts == TextsOf(text, words);
    assert Sum(CostsOf(texts, count), |texts|, |texts|) == 0 by { NoCost(CostsOf(texts, count)); }
    TailIsLongest(texts, |texts|, overlap, count);
    var n := TailStart(texts, |texts|, 0, overlap, count);
    assert IsTail(text, overlap, count, words, n, Tail(text, overlap, count));
  }

  lemma NoCost(costs: seq<nat>)
    ensures Sum(costs, |costs|, |costs|) == 0
  {
  }

  // ---------------------------------------------------------------- the chunk led in

  /** Each word followed by a space. */
  function Spaced(tail: seq<string>): string {
    if tail == [] then "" else tail[0] + " " + Spaced(tail[1..])
  }

  ghost predicate FirstAt(ids: seq<string>, i: nat) {
    i < |ids| && ids[i] !in ids[..i]
  }

  /** `r` are the ids that `at` picks: the places where an id occurs first, in order. */
  ghost predicate FirstOnes(ids: seq<string>, r: seq<string>, at: seq<nat>) {
    && |at| == |r| && (forall j, k :: 0 <= j < k < |at| ==> at[j] < at[k])
    && (forall i: nat :: FirstAt(ids, i) <==> i in at)
    && (forall k :: 0 <= k < |at| ==> at[k] < |ids| && r[k] == ids[at[k]])
  }

  ghost predicate Firsts(ids: seq<string>, r: seq<string>) {
    exists at :: FirstOnes(ids, r, at)
  }

  /** The least of two, the second if the first is not known. */
  ghost predicate NotPast(known: Option<int>, other: int, r: int) {
    && r <= other && (known.Some? ==> r <= known.value)
    && (r == other || (known.Some? && r == known.value))
  }

  ghost predicate IsLed(prev: Chunk, cur: Chunk, tail: seq<string>, count: string -> nat, led: Chunk) {
    && led.seqNo == cur.seqNo && led.sectionPath == cur.sectionPath && !led.atomic
    && led.text == Spaced(tail) + cur.text && led.tokenCount == count(led.text)
    && Firsts((if prev.blockIds == [] then [] else [prev.blockIds[|prev.blockIds| - 1]]) + cur.blockIds, led.blockIds)
    && (led.pages.Some? <==> cur.pages.Some?) && (led.chars.Some? <==> cur.chars.Some?)
    && (cur.pages.Some? ==>
          && led.pages.value.1 == cur.pages.value.1
          && NotPast(if prev.pages.Some? then Some(prev.pages.value.1) else None, cur.pages.value.0, led.pages.value.0))
    && (cur.chars.Some? ==>
          && led.chars.value.1 == cur.chars.value.1
          && NotPast(Some(if prev.chars.Some? then prev.chars.value.1 else 0), cur.chars.value.0, led.chars.value.0))
  }

  ghost predicate LedBy(prev: Chunk, cur: Chunk, overlap: int, count: string -> nat, tail: seq<string>, led: Chunk) {
    TailOf(prev.text, overlap, count, tail) && if tail == [] then led == cur else IsLed(prev, cur, tail, count, led)
  }

  ghost predicate LedIn(prev: Chunk, cur: Chunk, overlap: int, count: string -> nat, led: Chunk) {
    exists tail :: LedBy(prev, cur, overlap, count, tail, led)
  }

  lemma {:induction false} JoinIsSpaced(tail: seq<string>)
    requires tail != []
    ensures Join(tail, " ") + " " == Spaced(tail)
  {
    var front, last := tail[..|tail| - 1], tail[|tail| - 1];
    assert tail == front + [last];
    SpacedOneMore(front, last);
    if front != [] {
      JoinIsSpaced(front);
    } else {
      assert "" + last + " " == last + " ";
    }
  }

  lemma {:induction false} SpacedOneMore(front: seq<string>, last: string)
    ensures Spaced(front + [last]) == Spaced(front) + last + " "
  {
    if front != [] {
      assert (front + [last])[1..] == front[1..] + [last];
      SpacedOneMore(front[1..], last);
      assert front[0] + " " + (Spaced(front[1..]) + last + " ") == front[0] + " " + Spaced(front[1..]) + last + " ";
    }
  }

  lemma {:induction false} DistinctAreFirst(ids: seq<string>) returns (at: seq<nat>)
    ensures FirstOnes(ids, Distinct(ids), at)
  {
    if ids == [] {
      at := [];
    } else {
      var front, last := ids[..|ids| - 1], ids[|ids| - 1];
      at := DistinctAreFirst(front);
      DistinctKeeps(front);
      forall i: nat ensures FirstAt(ids, i) <==> FirstAt(front, i) || (i == |front| && last !in front) {
        assert i <= |front| ==> ids[..i] == front[..i];
      }
      if last !in Distinct(front) {
        at := at + [|front|];
      }
    }
  }

  /** What an overlap makes of a chunk: without room for a word of the text before, nothing;
      otherwise the tail goes in front, the last block before joins the blocks, the pages and
      characters start no later than those before end, and the text is counted again. */
  lemma {:induction false} LedIs(prev: Chunk, cur: Chunk, overlap: int, count: string -> nat)
    ensures LedIn(prev, cur, overlap, count, Led(prev, cur, overlap, count))
  {
    hide Tail, TailOf, Join, Spaced, Distinct, FirstOnes, Firsts;
    TailIs(prev.text, overlap, count);
    var tail, led := Tail(prev.text, overlap, count), Led(prev, cur, overlap, count);
    if tail != [] {
      JoinIsSpaced(tail);
      DistinctIsFirsts(LastOf(prev.blockIds) + cur.blockIds);
      assert IsLed(prev, cur, tail, count, led);
    }
    assert LedBy(prev, cur, overlap, count, tail, led);
  }

  // ---------------------------------------------------------------- the packed chunks

  /** The stretch of text of each group, from its first piece to its last. */
  ghost predicate AreStretches(groups: seq<seq<Range>>, ranges: seq<Range>) {
    |ranges| == |groups| && forall k :: 0 <= k < |ranges| ==> IsStretch(groups[k], ranges[k])
  }

  ghost predicate IsStretch(group: seq<Range>, r: Range) {
    group != [] && r == (group[0].0, group[|group| - 1].1)
  }

  /** The pieces of the document, one after the other, are the stretches where the descent ends;
      groups of them are as large as fit; and each makes a chunk. */
  ghost predicate PackedOf(doc: string, spans: seq<Span>, target: int, count: string -> nat, chunks: seq<Chunk>,
                           pieces: seq<Range>, groups: seq<seq<Range>>, ranges: seq<Range>)
  {
    && Tiles(pieces, 0, |doc|) && (forall r :: r in pieces <==> Stands(doc, BREAKS, (0, |doc|), r, target, count))
    && Pooled(groups) == pieces && AllPacked(doc, groups, target, count) && AreStretches(groups, ranges)
    && RangesIn(doc, ranges) && AreChunks(doc, spans, ranges, count, chunks)
  }

  lemma PiecesAre(doc: string, target: int, count: string -> nat)
    requires doc != ""
    ensures EndInSpace(SEPARATORS)
    ensures var pieces := Split(doc, 0, |doc|, SEPARATORS, target, count);
      Tiles(pieces, 0, |doc|) && forall r :: r in pieces <==> Stands(doc, BREAKS, (0, |doc|), r, target, count)
  {
    SeparatorsEndInSpace();
    SplitTiles(doc, 0, |doc|, SEPARATORS, target, count);
    hide Split, Stands, Tiles;
    forall r: Range
      ensures r in Split(doc, 0, |doc|, SEPARATORS, target, count)
         <==> Stands(doc, BREAKS, (0, |doc|), r, target, count)
    {
      PieceIff(doc, r, target, count);
    }
  }

  /** What is packed, before any overlap: nothing for no text, otherwise such chunks. */
  lemma PackedReturns(blocks: seq<SourceBlock>, target: int, count: string -> nat)
    ensures var doc, spans := FlatText(Prepare(blocks)), FlatSpans(Prepare(blocks));
      var chunks := PackedChunks(blocks, target, count);
      if doc == "" then chunks == []
      else exists pieces, groups, ranges :: PackedOf(doc, spans, target, count, chunks, pieces, groups, ranges)
  {
    var prepared := Prepare(blocks);
    var doc, spans := FlatText(prepared), FlatSpans(prepared);
    FlatIsFlattened(prepared);
    hide Flattened, AreChunks, ChunksOf, Prepare, FlatText, FlatSpans, Split, Packs, Stands, Tiles, AllPacked, Pooled,
         GroupsRow, EndInSpace;
    if doc != "" {
      PiecesAre(doc, target, count);
      PackedRangesTile(doc, SEPARATORS, target, count);
      var pieces := Split(doc, 0, |doc|, SEPARATORS, target, count);
      var groups := Packs(doc, pieces, [], target, count);
      var ranges := PackedRanges(doc, SEPARATORS, target, count);
      PacksIff(doc, pieces, groups, target, count);
      GroupsAreSome(doc, groups, target, count);
      ChunksAre(doc, spans, ranges, count);
      assert PackedOf(doc, spans, target, count, PackedChunks(blocks, target, count), pieces, groups, ranges);
    }
  }

  lemma GroupsAreSome(doc: string, groups: seq<seq<Range>>, target: int, count: string -> nat)
    requires AllPacked(doc, groups, target, count)
    ensures forall k :: 0 <= k < |groups| ==> groups[k] != []
  {
  }

  /** What the recursive strategy returns: with no overlap asked for the packed chunks, otherwise
      the first of them and every other led in by the one before it. */
  lemma {:induction false} RecursiveResult(blocks: seq<SourceBlock>, target: int, overlap: int,
                                           count: string -> nat, k: nat)
    requires k < |PackedChunks(blocks, target, count)|
    ensures var packed, chunks := PackedChunks(blocks, target, count), RecursiveOf(blocks, target, overlap, count);
      && |chunks| == |packed|
      && (overlap <= 0 || k == 0 ==> chunks[k] == packed[k])
      && (overlap > 0 && k > 0 ==>
            LedIn(packed[k - 1], packed[k], overlap, count, chunks[k]))
  {
    hide PackedChunks, Led, LedIn;
    var packed := PackedChunks(blocks, target, count);
    if k > 0 {
      LedIs(packed[k - 1], packed[k], overlap, count);
    }
  }

  lemma DistinctIsFirsts(ids: seq<string>)
    ensures Firsts(ids, Distinct(ids))
  {
    var _ := DistinctAreFirst(ids);
  }
}
