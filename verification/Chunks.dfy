/** Chunks assembled from ranges of a flattened document, and the blocks they cite. */
module Chunks {
  import opened Wrappers
  import opened Texts
  import opened Passages
  import opened Ranges

  // ---------------------------------------------------------------- assembling

  function Widened(range: Option<(int, int)>, lo: int, hi: int): Option<(int, int)> {
    match range
    case None => Some((lo, hi))
    case Some(r) => Some((if lo < r.0 then lo else r.0, if hi > r.1 then hi else r.1))
  }

  /** First and last page among the paged blocks. */
  function PageRange(blocks: seq<SourceBlock>): Option<(int, int)> {
    if blocks == [] then None
    else
      var front, b := PageRange(blocks[..|blocks| - 1]), blocks[|blocks| - 1];
      if b.paged then Widened(front, b.pageNo, b.pageNo) else front
  }

  /** Least start and greatest end among the blocks that know their characters. */
  function CharRange(blocks: seq<SourceBlock>): Option<(int, int)> {
    if blocks == [] then None
    else
      var front, b := CharRange(blocks[..|blocks| - 1]), blocks[|blocks| - 1];
      if b.chars.Some? then Widened(front, b.chars.value.0, b.chars.value.1) else front
  }

  /** The longest heading trail, the first of several. */
  function DeepestPath(blocks: seq<SourceBlock>): seq<string> {
    if blocks == [] then []
    else
      var front, path := DeepestPath(blocks[..|blocks| - 1]), blocks[|blocks| - 1].sectionPath;
      if |path| > |front| then path else front
  }

  function Ids(blocks: seq<SourceBlock>): (r: seq<string>)
    ensures |r| == |blocks| && forall k :: 0 <= k < |r| ==> r[k] == blocks[k].id
  {
    seq(|blocks|, k requires 0 <= k < |blocks| => blocks[k].id)
  }

  function Assemble(seqNo: nat, text: string, blocks: seq<SourceBlock>, count: string -> nat): Option<Chunk> {
    var trimmed := Strip(text);
    if trimmed == "" || blocks == [] then None
    else Some(Chunk(seqNo, trimmed, Ids(blocks), count(trimmed), PageRange(blocks), CharRange(blocks),
                    DeepestPath(blocks), false))
  }

  /** Pages and characters of a chunk are the least ranges around those of its blocks. */
  lemma {:induction false} RangesAreLeast(blocks: seq<SourceBlock>, lo: int, hi: int)
    ensures PageRange(blocks).None? <==> forall b :: b in blocks ==> !b.paged
    ensures CharRange(blocks).None? <==> forall b :: b in blocks ==> b.chars.None?
    ensures PageRange(blocks).Some? ==>
      (lo <= PageRange(blocks).value.0 && PageRange(blocks).value.1 <= hi
       <==> forall b :: b in blocks && b.paged ==> lo <= b.pageNo <= hi)
    ensures CharRange(blocks).Some? ==>
      (lo <= CharRange(blocks).value.0 && CharRange(blocks).value.1 <= hi
       <==> forall b :: b in blocks && b.chars.Some? ==> lo <= b.chars.value.0 && b.chars.value.1 <= hi)
  {
    if blocks != [] {
      var front, last := blocks[..|blocks| - 1], blocks[|blocks| - 1];
      RangesAreLeast(front, lo, hi);
      assert forall b :: b in blocks <==> b in front || b == last;
    }
  }

  /** The heading trail is that of some block, and no block has a longer one. */
  lemma {:induction false} PathIsDeepest(blocks: seq<SourceBlock>)
    ensures forall b :: b in blocks ==> |b.sectionPath| <= |DeepestPath(blocks)|
    ensures DeepestPath(blocks) == [] || exists b :: b in blocks && b.sectionPath == DeepestPath(blocks)
  {
    if blocks != [] {
      var front, last := blocks[..|blocks| - 1], blocks[|blocks| - 1];
      PathIsDeepest(front);
      assert forall b :: b in blocks <==> b in front || b == last;
    }
  }

  // ---------------------------------------------------------------- ranges into chunks

  function Parts(doc: string, pieces: seq<Range>): (r: seq<string>)
    requires RangesIn(doc, pieces)
    ensures |r| == |pieces| && forall k :: 0 <= k < |r| ==> r[k] == doc[pieces[k].0..pieces[k].1]
  {
    seq(|pieces|, k requires 0 <= k < |pieces| => doc[pieces[k].0..pieces[k].1])
  }

  /** A chunk per range that has text, numbered as they come. */
  function ChunksOf(doc: string, spans: seq<Span>, ranges: seq<Range>, count: string -> nat): seq<Chunk>
    requires RangesIn(doc, ranges)
  {
    if ranges == [] then []
    else
      var front, r := ChunksOf(doc, spans, ranges[..|ranges| - 1], count), ranges[|ranges| - 1];
      match Assemble(|front|, doc[r.0..r.1], InRange(spans, r.0, r.1), count)
      case Some(chunk) => front + [chunk]
      case None => front
  }

  lemma {:induction false} ChunksOfOneMore(doc: string, spans: seq<Span>, ranges: seq<Range>, r: Range,
                                           count: string -> nat)
    requires RangesIn(doc, ranges) && RangeIn(doc, r)
    ensures RangesIn(doc, ranges + [r])
    ensures var front := ChunksOf(doc, spans, ranges, count);
      ChunksOf(doc, spans, ranges + [r], count)
      == match Assemble(|front|, doc[r.0..r.1], InRange(spans, r.0, r.1), count)
         case Some(chunk) => front + [chunk]
         case None => front
  {
    assert (ranges + [r])[..|ranges|] == ranges;
  }

  /** Emits the chunk of one range, if it has one. */
  method Append(doc: string, spans: seq<Span>, ghost ranges: seq<Range>, r: Range, count: string -> nat,
                chunks0: seq<Chunk>)
    returns (chunks: seq<Chunk>)
    requires RangesIn(doc, ranges) && RangeIn(doc, r) && chunks0 == ChunksOf(doc, spans, ranges, count)
    ensures RangesIn(doc, ranges + [r]) && chunks == ChunksOf(doc, spans, ranges + [r], count)
  {
    ChunksOfOneMore(doc, spans, ranges, r, count);
    chunks := chunks0;
    var chunk := Assemble(|chunks|, doc[r.0..r.1], InRange(spans, r.0, r.1), count);
    if chunk.Some? {
      chunks := chunks + [chunk.value];
    }
  }

  ghost predicate HasText(doc: string, r: Range)
    requires RangeIn(doc, r)
  {
    exists p :: r.0 <= p < r.1 && !IsSpace(doc[p])
  }

  /** The ranges that have text. */
  ghost function WithText(doc: string, ranges: seq<Range>): (r: seq<Range>)
    requires RangesIn(doc, ranges)
    ensures RangesIn(doc, r)
  {
    if ranges == [] then []
    else
      WithText(doc, ranges[..|ranges| - 1])
      + if HasText(doc, ranges[|ranges| - 1]) then [ranges[|ranges| - 1]] else []
  }

  lemma TextIff(doc: string, r: Range)
    requires RangeIn(doc, r)
    ensures Strip(doc[r.0..r.1]) != "" <==> HasText(doc, r)
  {
    var part := doc[r.0..r.1];
    StripEmptyIffBlank(part);
    if HasText(doc, r) {
      var p :| r.0 <= p < r.1 && !IsSpace(doc[p]);
      assert part[p - r.0] == doc[p];
    } else {
      assert forall k :: 0 <= k < |part| ==> part[k] == doc[r.0 + k];
    }
  }

  /** Text in a range belongs to a block that the range overlaps. */
  lemma {:induction false} TextHasBlock(doc: string, spans: seq<Span>, r: Range, p: nat)
    requires Flattened(doc, spans) && RangeIn(doc, r) && r.0 <= p < r.1 && !IsSpace(doc[p])
    ensures InRange(spans, r.0, r.1) != []
  {
    hide SpansOk, SpansApart, IsSpace;
    assert InSpan(spans, p);
    var k :| 0 <= k < |spans| && spans[k].start <= p < spans[k].end;
    InRangeMembers(spans, r.0, r.1, spans[k].block);
  }

  /** What the chunk of a range is. */
  ghost predicate Cites(doc: string, spans: seq<Span>, r: Range, c: Chunk, seqNo: nat, count: string -> nat)
    requires RangeIn(doc, r)
  {
    Some(c) == Assemble(seqNo, doc[r.0..r.1], InRange(spans, r.0, r.1), count)
  }

  lemma {:induction false} RangeYieldsIff(doc: string, spans: seq<Span>, r: Range, seqNo: nat, count: string -> nat)
    requires Flattened(doc, spans) && RangeIn(doc, r)
    ensures Assemble(seqNo, doc[r.0..r.1], InRange(spans, r.0, r.1), count).Some? <==> HasText(doc, r)
  {
    TextIff(doc, r);
    if HasText(doc, r) {
      var p :| r.0 <= p < r.1 && !IsSpace(doc[p]);
      TextHasBlock(doc, spans, r, p);
    }
  }

  ghost predicate AllCite(doc: string, spans: seq<Span>, used: seq<Range>, chunks: seq<Chunk>, count: string -> nat)
    requires RangesIn(doc, used)
  {
    |chunks| == |used| && forall k :: 0 <= k < |chunks| ==> Cites(doc, spans, used[k], chunks[k], k, count)
  }

  lemma OneMoreCites(doc: string, spans: seq<Span>, used: seq<Range>, chunks: seq<Chunk>, r: Range, c: Chunk,
                     count: string -> nat)
    requires RangesIn(doc, used) && AllCite(doc, spans, used, chunks, count)
    requires RangeIn(doc, r) && Cites(doc, spans, r, c, |chunks|, count)
    ensures AllCite(doc, spans, used + [r], chunks + [c], count)
  {
    hide Cites;
  }

  /** Exactly the ranges with text become chunks, in order and numbered without gaps; each
      holds its range's text, trimmed, and names exactly the blocks its range overlaps. */
  lemma {:induction false} ChunksCiteRanges(doc: string, spans: seq<Span>, ranges: seq<Range>, count: string -> nat)
    requires Flattened(doc, spans) && RangesIn(doc, ranges)
    ensures AllCite(doc, spans, WithText(doc, ranges), ChunksOf(doc, spans, ranges, count), count)
  {
    if ranges != [] {
      hide Flattened, Assemble, HasText, AllCite;
      var front, r := ranges[..|ranges| - 1], ranges[|ranges| - 1];
      var chunks := ChunksOf(doc, spans, front, count);
      ChunksCiteRanges(doc, spans, front, count);
      RangeYieldsIff(doc, spans, r, |chunks|, count);
      if HasText(doc, r) {
        var c := Assemble(|chunks|, doc[r.0..r.1], InRange(spans, r.0, r.1), count).value;
        OneMoreCites(doc, spans, WithText(doc, front), chunks, r, c, count);
      } else {
        assert WithText(doc, ranges) == WithText(doc, front);
      }
    } else {
      assert AllCite(doc, spans, [], [], count);
    }
  }

  lemma {:induction false} UsedIsRange(doc: string, ranges: seq<Range>, j: nat) returns (k: nat)
    requires RangesIn(doc, ranges) && j < |WithText(doc, ranges)|
    ensures k < |ranges| && WithText(doc, ranges)[j] == ranges[k]
  {
    var n := |ranges| - 1;
    if j < |WithText(doc, ranges[..n])| {
      k := UsedIsRange(doc, ranges[..n], j);
    } else {
      k := n;
    }
  }

  ghost predicate CoversText(doc: string, ranges: seq<Range>) {
    forall p :: 0 <= p < |doc| && !IsSpace(doc[p]) ==> InSome(ranges, p)
  }

  ghost predicate InSome(ranges: seq<Range>, p: nat) {
    exists k :: 0 <= k < |ranges| && ranges[k].0 <= p < ranges[k].1
  }

  lemma {:induction false} UsedRange(doc: string, ranges: seq<Range>, k: nat) returns (j: nat)
    requires RangesIn(doc, ranges) && k < |ranges| && HasText(doc, ranges[k])
    ensures j < |WithText(doc, ranges)| && WithText(doc, ranges)[j] == ranges[k]
  {
    if k == |ranges| - 1 {
      j := |WithText(doc, ranges[..k])|;
    } else {
      j := UsedRange(doc, ranges[..|ranges| - 1], k);
    }
  }

  /** If the ranges leave no text out, every block is named by some chunk. */
  lemma EveryBlockIsCited(doc: string, spans: seq<Span>, ranges: seq<Range>, count: string -> nat, s: nat)
    returns (k: nat)
    requires Flattened(doc, spans) && RangesIn(doc, ranges) && CoversText(doc, ranges) && s < |spans|
    ensures k < |ChunksOf(doc, spans, ranges, count)|
    ensures spans[s].block.id in ChunksOf(doc, spans, ranges, count)[k].blockIds
  {
    var p := SpanStart(doc, spans, s);
    assert InSome(ranges, p);
    var i :| 0 <= i < |ranges| && ranges[i].0 <= p < ranges[i].1;
    k := UsedRange(doc, ranges, i);
    ChunksCiteRanges(doc, spans, ranges, count);
    NamesBlock(doc, spans, ranges[i], ChunksOf(doc, spans, ranges, count)[k], k, count, s);
  }

  lemma SpanStart(doc: string, spans: seq<Span>, s: nat) returns (p: nat)
    requires Flattened(doc, spans) && s < |spans|
    ensures p == spans[s].start < spans[s].end && p < |doc| && !IsSpace(doc[p])
  {
    p := spans[s].start;
    assert SpanOk(doc, spans[s]);
  }

  lemma NamesBlock(doc: string, spans: seq<Span>, r: Range, c: Chunk, seqNo: nat, count: string -> nat, s: nat)
    requires RangeIn(doc, r) && Cites(doc, spans, r, c, seqNo, count)
    requires s < |spans| && spans[s].start < r.1 && r.0 < spans[s].end
    ensures spans[s].block.id in c.blockIds
  {
    var blocks := InRange(spans, r.0, r.1);
    InRangeMembers(spans, r.0, r.1, spans[s].block);
    var i :| 0 <= i < |blocks| && blocks[i] == spans[s].block;
    assert Ids(blocks)[i] == spans[s].block.id;
  }
}
