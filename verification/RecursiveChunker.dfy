/** The recursive strategy: descend, pack, and lead each chunk in with the tail of the one before. */
module RecursiveChunker {
  import opened Wrappers
  import opened Texts
  import opened Tokens
  import opened Rounding
  import opened Passages
  import opened Ranges
  import opened Sums
  import opened Chunks
  import opened FixedWindows
  import opened RecursiveSplit
  import opened RecursiveChunks

  // ---------------------------------------------------------------- overlap of text

  function WordTexts(text: string): (r: seq<string>) {
    var words := Words(text, 0);
    WordsAreOk(text, 0);
    seq(|words|, k requires 0 <= k < |words| => text[words[k].0..words[k].1])
  }

  /** Where the tail begins: as many last words as fit the overlap by their own costs. */
  function TailStart(words: seq<string>, k: nat, budget: nat, overlap: int, count: string -> nat): (r: nat)
    requires k <= |words|
    ensures r <= k
  {
    if k > 0 && budget + count(words[k - 1]) <= overlap then
      TailStart(words, k - 1, budget + count(words[k - 1]), overlap, count)
    else k
  }

  function Tail(text: string, overlap: int, count: string -> nat): seq<string> {
    var words := WordTexts(text);
    words[TailStart(words, |words|, 0, overlap, count)..]
  }

  /** First occurrences only, in order. */
  function Distinct(ids: seq<string>): seq<string> {
    if ids == [] then []
    else
      var front, last := Distinct(ids[..|ids| - 1]), ids[|ids| - 1];
      if last in front then front else front + [last]
  }

  function LastOf(ids: seq<string>): seq<string> {
    if ids == [] then [] else [ids[|ids| - 1]]
  }

  function Least(a: int, b: int): int { if b < a then b else a }

  /** A chunk led in by the tail of the one before it. */
  function Led(prev: Chunk, cur: Chunk, overlap: int, count: string -> nat): Chunk {
    var tail := Tail(prev.text, overlap, count);
    if tail == [] then cur
    else
      var text := Join(tail, " ") + " " + cur.text;
      Chunk(cur.seqNo, text, Distinct(LastOf(prev.blockIds) + cur.blockIds), count(text),
            match cur.pages
            case None => None
            case Some(p) => Some((if prev.pages.Some? then Least(prev.pages.value.1, p.0) else p.0, p.1)),
            match cur.chars
            case None => None
            case Some(c) => Some((Least(if prev.chars.Some? then prev.chars.value.1 else 0, c.0), c.1)),
            cur.sectionPath, false)
  }

  function WithTextOverlap(chunks: seq<Chunk>, overlap: int, count: string -> nat): (r: seq<Chunk>)
    ensures |r| == |chunks|
    ensures chunks != [] ==> r[0] == chunks[0]
    ensures forall k :: 0 < k < |r| ==> r[k] == Led(chunks[k - 1], chunks[k], overlap, count)
  {
    seq(|chunks|, k requires 0 <= k < |chunks| =>
      if k == 0 then chunks[0] else Led(chunks[k - 1], chunks[k], overlap, count))
  }

  method TakeTail(text: string, overlap: int, count: string -> nat) returns (tail: seq<string>)
    ensures tail == Tail(text, overlap, count)
  {
    hide WordTexts;
    var words := WordTexts(text);
    tail := [];
    var budget: nat := 0;
    var k: nat := |words|;
    while k > 0
      invariant k <= |words| && tail == words[k..]
      invariant TailStart(words, k, budget, overlap, count) == TailStart(words, |words|, 0, overlap, count)
    {
      var cost := count(words[k - 1]);
      if budget + cost > overlap {
        break;
      }
      k := k - 1;
      tail, budget := [words[k]] + tail, budget + cost;
    }
  }

  method LeadIn(prev: Chunk, cur: Chunk, overlap: int, count: string -> nat) returns (led: Chunk)
    ensures led == Led(prev, cur, overlap, count)
  {
    hide Tail, Distinct, Join, LastOf, Least;
    var tail := TakeTail(prev.text, overlap, count);
    if tail == [] {
      return cur;
    }
    var text := Join(tail, " ") + " " + cur.text;
    var pages := match cur.pages
      case None => None
      case Some(p) => Some((if prev.pages.Some? then Least(prev.pages.value.1, p.0) else p.0, p.1));
    var chars := match cur.chars
      case None => None
      case Some(c) => Some((Least(if prev.chars.Some? then prev.chars.value.1 else 0, c.0), c.1));
    led := Chunk(cur.seqNo, text, Distinct(LastOf(prev.blockIds) + cur.blockIds), count(text), pages, chars,
                 cur.sectionPath, false);
  }

  method ApplyTextOverlap(chunks: seq<Chunk>, overlap: int, count: string -> nat) returns (out: seq<Chunk>)
    ensures out == WithTextOverlap(chunks, overlap, count)
  {
    hide Led;
    if |chunks| < 2 {
      return chunks;
    }
    out := [chunks[0]];
    for k := 1 to |chunks|
      invariant out == WithTextOverlap(chunks, overlap, count)[..k]
    {
      var led := LeadIn(chunks[k - 1], chunks[k], overlap, count);
      out := out + [led];
    }
  }

  // ---------------------------------------------------------------- what the overlap changes

  lemma {:induction false} DistinctKeeps(ids: seq<string>)
    ensures forall x :: x in Distinct(ids) <==> x in ids
    ensures forall i, j :: 0 <= i < j < |Distinct(ids)| ==> Distinct(ids)[i] != Distinct(ids)[j]
  {
    if ids != [] {
      DistinctKeeps(ids[..|ids| - 1]);
      assert ids == ids[..|ids| - 1] + [ids[|ids| - 1]];
    }
  }

  /** The tail fits the overlap, and one word more would not. */
  lemma {:induction false} TailIsLongest(words: seq<string>, k: nat, overlap: int, count: string -> nat)
    requires k <= |words| && (k == |words| || Sum(CostsOf(words, count), k, |words|) <= overlap)
    ensures var costs := CostsOf(words, count);
      var s := TailStart(words, k, Sum(costs, k, |words|), overlap, count);
      && (s == |words| || Sum(costs, s, |words|) <= overlap)
      && (s == 0 || Sum(costs, s - 1, |words|) > overlap)
  {
    if k > 0 && Sum(CostsOf(words, count), k, |words|) + count(words[k - 1]) <= overlap {
      TailIsLongest(words, k - 1, overlap, count);
    }
  }

  /** Overlap keeps a chunk's number, its text as the end, its section and its blocks; it adds
      at most the last block of the chunk before. */
  lemma OverlapAddsOneBlock(chunks: seq<Chunk>, overlap: int, count: string -> nat, k: nat)
    requires 0 < k < |chunks|
    ensures var led, prev, cur := WithTextOverlap(chunks, overlap, count)[k], chunks[k - 1], chunks[k];
      && led.seqNo == cur.seqNo && led.sectionPath == cur.sectionPath
      && EndsIn(led.text, cur.text)
      && (forall id :: id in cur.blockIds ==> id in led.blockIds)
      && (forall id :: id in led.blockIds ==>
            id in cur.blockIds || (prev.blockIds != [] && id == prev.blockIds[|prev.blockIds| - 1]))
  {
    hide Tail, Distinct, Join, Least;
    var prev, cur := chunks[k - 1], chunks[k];
    DistinctKeeps(LastOf(prev.blockIds) + cur.blockIds);
    var tail := Tail(prev.text, overlap, count);
    if tail == [] {
      assert "" + cur.text == cur.text;
    } else {
      EndsInSuffix(Join(tail, " ") + " ", cur.text);
    }
  }

  predicate EndsIn(s: string, suffix: string) {
    |s| >= |suffix| && s[|s| - |suffix|..] == suffix
  }

  lemma EndsInSuffix(a: string, b: string)
    ensures EndsIn(a + b, b)
  {
  }

  // ---------------------------------------------------------------- the chunker

  function PackedChunks(blocks: seq<SourceBlock>, target: int, count: string -> nat): seq<Chunk> {
    var prepared := Prepare(blocks);
    var doc := FlatText(prepared);
    if doc == "" then []
    else
      SeparatorsEndInSpace();
      PackedRangesTile(doc, SEPARATORS, target, count);
      ChunksOf(doc, FlatSpans(prepared), PackedRanges(doc, SEPARATORS, target, count), count)
  }

  /** What the strategy returns. */
  function RecursiveOf(blocks: seq<SourceBlock>, target: int, overlap: int, count: string -> nat): seq<Chunk> {
    if overlap > 0 then WithTextOverlap(PackedChunks(blocks, target, count), overlap, count)
    else PackedChunks(blocks, target, count)
  }

  method ChunkRecursive(blocks: seq<SourceBlock>, target: int, overlap: int, count: string -> nat)
    returns (chunks: seq<Chunk>)
    ensures chunks == RecursiveOf(blocks, target, overlap, count)
  {
    hide Packs, ChunksOf, FlatText, FlatSpans, Led;
    var doc, spans := Flatten(Prepare(blocks));
    if doc == "" {
      return [];
    }
    SeparatorsEndInSpace();
    hide EndInSpace;
    var pieces := SplitRecursive(doc, 0, |doc|, SEPARATORS, target, count);
    SplitTiles(doc, 0, |doc|, SEPARATORS, target, count);
    TilesInOrder(doc, pieces, 0, |doc|);
    chunks := PackPieces(doc, spans, pieces, target, count);
    if overlap > 0 {
      chunks := ApplyTextOverlap(chunks, overlap, count);
    }
  }

  // ---------------------------------------------------------------- what the chunks promise

  lemma TilesCoverText(doc: string, ranges: seq<Range>)
    requires Tiles(ranges, 0, |doc|)
    ensures CoversText(doc, ranges)
  {
    hide IsSpace;
    forall p | 0 <= p < |doc| && !IsSpace(doc[p]) ensures InSome(ranges, p) {
      var k := TileAt(ranges, 0, |doc|, p);
    }
  }

  lemma {:induction false} TileAt(ranges: seq<Range>, start: nat, end: nat, p: nat) returns (k: nat)
    requires Tiles(ranges, start, end) && start <= p < end
    ensures k < |ranges| && ranges[k].0 <= p < ranges[k].1
    decreases |ranges|
  {
    if p < ranges[0].1 {
      k := 0;
    } else {
      assert Tiles(ranges[1..], ranges[1].0, end);
      k := TileAt(ranges[1..], ranges[1].0, end, p);
      k := k + 1;
    }
  }

  /** Every prepared block is named by some chunk. */
  lemma RecursiveCitesEveryBlock(blocks: seq<SourceBlock>, target: int, count: string -> nat, b: SourceBlock)
    returns (k: nat)
    requires b in Prepare(blocks)
    ensures k < |PackedChunks(blocks, target, count)| && b.id in PackedChunks(blocks, target, count)[k].blockIds
  {
    hide PackedRanges, ChunksOf, Flattened;
    var prepared := Prepare(blocks);
    var doc, spans := FlatText(prepared), FlatSpans(prepared);
    FlatIsFlattened(prepared);
    PreparedIsTexted(blocks);
    SpansOfTexted(prepared);
    var i :| 0 <= i < |prepared| && prepared[i] == b;
    assert BlocksOf(spans)[i] == b;
    SeparatorsEndInSpace();
    PackedRangesTile(doc, SEPARATORS, target, count);
    TilesCoverText(doc, PackedRanges(doc, SEPARATORS, target, count));
    k := EveryBlockIsCited(doc, spans, PackedRanges(doc, SEPARATORS, target, count), count, i);
  }

  /** And so in what the strategy returns, overlap included. */
  lemma ResultCitesEveryBlock(blocks: seq<SourceBlock>, target: int, overlap: int, count: string -> nat, b: SourceBlock)
    returns (k: nat)
    requires b in Prepare(blocks)
    ensures var chunks := RecursiveOf(blocks, target, overlap, count);
      k < |chunks| && b.id in chunks[k].blockIds
  {
    hide PackedChunks, Led;
    k := RecursiveCitesEveryBlock(blocks, target, count, b);
    if k > 0 {
      OverlapAddsOneBlock(PackedChunks(blocks, target, count), overlap, count, k);
    }
  }

  /** The group of pieces that range `g` packs. */
  ghost function GroupAt(doc: string, target: int, count: string -> nat, g: nat): seq<Range>
    requires doc != "" && EndInSpace(SEPARATORS)
    requires g < |PackedRanges(doc, SEPARATORS, target, count)|
  {
    PackedRangesTile(doc, SEPARATORS, target, count);
    Packs(doc, Split(doc, 0, |doc|, SEPARATORS, target, count), [], target, count)[g]
  }

  /** Ranges pack adjacent pieces: a single one, or several whose costs fit the target together;
      several count, by the approximate counter, at most thirty per cent more than the target. */
  lemma PackedRangeFits(doc: string, target: int, count: string -> nat, g: nat, isWord: char -> bool)
    requires doc != "" && EndInSpace(SEPARATORS)
    requires g < |PackedRanges(doc, SEPARATORS, target, count)|
    ensures var group, r := GroupAt(doc, target, count, g), PackedRanges(doc, SEPARATORS, target, count)[g];
      && GroupFits(doc, group, target, count) && InOneRow(group) && r == Hull(group)
      && r.0 < r.1 <= |doc|
      && (|group| > 1 && Approximates(count, isWord) ==>
            target >= 0 && count(Strip(doc[r.0..r.1])) <= Tenths(13 * target))
  {
    hide Split, Packs, Spent, CutsClean, InOneRow, Tiles, EndInSpace, Approximates;
    var pieces := Split(doc, 0, |doc|, SEPARATORS, target, count);
    PackedRangesTile(doc, SEPARATORS, target, count);
    PacksFit(doc, pieces, [], target, count, g);
    var group := GroupAt(doc, target, count, g);
    RowIsWithin(doc, group);
    if |group| > 1 && Approximates(count, isWord) {
      GroupOvershoot(doc, group, target, count, isWord);
    }
  }

  lemma RowIsWithin(doc: string, group: seq<Range>)
    requires InOneRow(group) && RangesIn(doc, group)
    ensures Hull(group).0 < Hull(group).1 <= |doc|
  {
    RowAscends(group);
  }

  /** Chunk `k` cites the range of one group of pieces: a single piece, or several that fit the
      target by their costs and count at most thirty per cent more, rounded, once joined. */
  lemma RecursiveChunkFits(blocks: seq<SourceBlock>, target: int, count: string -> nat, isWord: char -> bool, k: nat)
    returns (g: nat)
    requires k < |PackedChunks(blocks, target, count)|
    ensures var doc, spans := FlatText(Prepare(blocks)), FlatSpans(Prepare(blocks));
      && doc != "" && EndInSpace(SEPARATORS)
      && var ranges := PackedRanges(doc, SEPARATORS, target, count);
        && g < |ranges| && RangeIn(doc, ranges[g])
        && var chunk, group := PackedChunks(blocks, target, count)[k], GroupAt(doc, target, count, g);
          && Cites(doc, spans, ranges[g], chunk, k, count) && GroupFits(doc, group, target, count)
          && (|group| > 1 && Approximates(count, isWord) ==> target >= 0 && chunk.tokenCount <= Tenths(13 * target))
  {
    SeparatorsEndInSpace();
    hide PackedRanges, ChunksOf, Flattened, EndInSpace, GroupFits, InOneRow,
         GroupAt, FlatText, FlatSpans, WithText, HasText;
    var doc, spans := FlatText(Prepare(blocks)), FlatSpans(Prepare(blocks));
    var ranges := PackedRanges(doc, SEPARATORS, target, count);
    FlatIsFlattened(Prepare(blocks));
    PackedRangesTile(doc, SEPARATORS, target, count);
    ChunksCiteRanges(doc, spans, ranges, count);
    g := UsedIsRange(doc, ranges, k);
    PackedRangeFits(doc, target, count, g, isWord);
  }
}
