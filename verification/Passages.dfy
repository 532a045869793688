/** Blocks of a document, the text they flatten to, and chunks that keep track of their blocks. */
module Passages {
  import opened Wrappers
  import opened Texts
  import opened Sorting

  /** A block locates itself by page or by character range, or not at all. */
  datatype SourceBlock = SourceBlock(
    id: string,
    pageNo: int,
    readingOrder: int,
    kind: string,
    text: string,
    paged: bool,
    chars: Option<(int, int)>,
    sectionPath: seq<string>)
  {
    predicate IsAtomic() { kind == "table" || kind == "figure" }

    predicate IsBoundary() { kind == "title" || kind == "heading" }

    predicate IsFurniture() { kind == "header" || kind == "footer" || kind == "page_number" }
  }

  datatype Chunk = Chunk(
    seqNo: nat,
    text: string,
    blockIds: seq<string>,
    tokenCount: nat,
    pages: Option<(int, int)>,
    chars: Option<(int, int)>,
    sectionPath: seq<string>,
    atomic: bool)

  // ---------------------------------------------------------------- preparing

  function Kept(blocks: seq<SourceBlock>): seq<SourceBlock> {
    if blocks == [] then []
    else (if Strip(blocks[0].text) != "" && !blocks[0].IsFurniture() then [blocks[0]] else []) + Kept(blocks[1..])
  }

  predicate Earlier(a: SourceBlock, b: SourceBlock) {
    a.pageNo < b.pageNo || (a.pageNo == b.pageNo && a.readingOrder < b.readingOrder)
  }

  /** Page furniture and empty blocks go, the rest is put in reading order. */
  function Prepare(blocks: seq<SourceBlock>): seq<SourceBlock> {
    Sort(Kept(blocks), Earlier)
  }

  lemma {:induction false} KeptMembers(blocks: seq<SourceBlock>, b: SourceBlock)
    ensures multiset(Kept(blocks))[b] == if Strip(b.text) != "" && !b.IsFurniture() then multiset(blocks)[b] else 0
  {
    if blocks != [] {
      KeptMembers(blocks[1..], b);
      assert blocks == [blocks[0]] + blocks[1..];
    }
  }

  /** Preparing keeps a block with text that is not furniture, as often as it occurs, and no other. */
  lemma PrepareKeeps(blocks: seq<SourceBlock>, b: SourceBlock)
    ensures multiset(Prepare(blocks))[b] == if Strip(b.text) != "" && !b.IsFurniture() then multiset(blocks)[b] else 0
  {
    SortPermutes(Kept(blocks), Earlier);
    KeptMembers(blocks, b);
  }

  /** The result is in reading order; blocks of equal place stay as they were given. */
  lemma {:induction false} PrepareOrders(blocks: seq<SourceBlock>, b: SourceBlock)
    ensures Sorted(Prepare(blocks), Earlier)
    ensures Class(Prepare(blocks), b, Earlier) == Class(Kept(blocks), b, Earlier)
  {
    assert WeakOrder(Earlier);
    SortSorts(Kept(blocks), Earlier);
    SortIsStable(Kept(blocks), b, Earlier);
  }

  ghost predicate Texted(blocks: seq<SourceBlock>) {
    forall b :: b in blocks ==> Strip(b.text) != ""
  }

  lemma PreparedIsTexted(blocks: seq<SourceBlock>)
    ensures Texted(Prepare(blocks))
  {
    forall b | b in Prepare(blocks) ensures Strip(b.text) != "" {
      PrepareKeeps(blocks, b);
      assert b in multiset(Prepare(blocks));
    }
  }

  // ---------------------------------------------------------------- flattening

  /** A stretch of the flattened document that holds the trimmed text of one block. */
  datatype Span = Span(start: nat, end: nat, block: SourceBlock)

  const BLOCK_JOIN: string := "\n\n"

  function FlatText(blocks: seq<SourceBlock>): string {
    if blocks == [] then ""
    else
      var front, text := FlatText(blocks[..|blocks| - 1]), Strip(blocks[|blocks| - 1].text);
      if text == "" then front else if front == "" then text else front + BLOCK_JOIN + text
  }

  function FlatSpans(blocks: seq<SourceBlock>): seq<Span> {
    if blocks == [] then []
    else
      var front, block := blocks[..|blocks| - 1], blocks[|blocks| - 1];
      var text, before := Strip(block.text), |FlatText(front)|;
      var start := if before == 0 then 0 else before + |BLOCK_JOIN|;
      if text == "" then FlatSpans(front) else FlatSpans(front) + [Span(start, start + |text|, block)]
  }

  function Join(parts: seq<string>, separator: string): string {
    if parts == [] then ""
    else if |parts| == 1 then parts[0]
    else Join(parts[..|parts| - 1], separator) + separator + parts[|parts| - 1]
  }

  lemma FlatOneMore(blocks: seq<SourceBlock>, i: nat)
    requires i < |blocks|
    ensures var text, front := Strip(blocks[i].text), FlatText(blocks[..i]);
      var start := if |front| == 0 then 0 else |front| + |BLOCK_JOIN|;
      && FlatText(blocks[..i + 1]) ==
          (if text == "" then front else if front == "" then text else front + BLOCK_JOIN + text)
      && FlatSpans(blocks[..i + 1]) == FlatSpans(blocks[..i])
         + if text == "" then [] else [Span(start, start + |text|, blocks[i])]
  {
    hide Strip;
    assert blocks[..i + 1][..i] == blocks[..i];
  }

  lemma {:induction false} JoinOneMore(parts: seq<string>, text: string)
    ensures Join(parts + [text], BLOCK_JOIN)
         == if parts == [] then text else Join(parts, BLOCK_JOIN) + BLOCK_JOIN + text
  {
    assert (parts + [text])[..|parts|] == parts;
  }

  method Flatten(blocks: seq<SourceBlock>) returns (doc: string, spans: seq<Span>)
    ensures doc == FlatText(blocks) && spans == FlatSpans(blocks)
  {
    hide Strip, FlatText, FlatSpans, Join;
    var parts: seq<string> := [];
    spans := [];
    NothingToFlatten(blocks);
    var cursor, i := 0, 0;
    while i < |blocks|
      invariant i <= |blocks| && spans == FlatSpans(blocks[..i]) && Join(parts, BLOCK_JOIN) == FlatText(blocks[..i])
      invariant cursor == |FlatText(blocks[..i])| && (parts == [] <==> cursor == 0)
    {
      var text := Strip(blocks[i].text);
      FlatOneMore(blocks, i);
      i := i + 1;
      if text == "" {
        continue;
      }
      if parts != [] {
        cursor := cursor + |BLOCK_JOIN|;
      }
      spans := spans + [Span(cursor, cursor + |text|, blocks[i - 1])];
      JoinOneMore(parts, text);
      parts := parts + [text];
      cursor := cursor + |text|;
    }
    assert blocks[..i] == blocks;
    doc := Join(parts, BLOCK_JOIN);
  }

  lemma NothingToFlatten(blocks: seq<SourceBlock>)
    ensures FlatText(blocks[..0]) == "" && FlatSpans(blocks[..0]) == [] && Join([], BLOCK_JOIN) == ""
  {
  }

  ghost predicate SpanOk(doc: string, s: Span) {
    && s.start < s.end <= |doc|
    && doc[s.start..s.end] == Strip(s.block.text)
    && !IsSpace(doc[s.start]) && !IsSpace(doc[s.end - 1])
  }

  ghost predicate SpansOk(doc: string, spans: seq<Span>) {
    forall k :: 0 <= k < |spans| ==> SpanOk(doc, spans[k])
  }

  ghost predicate SpansApart(spans: seq<Span>) {
    forall j, k :: 0 <= j < k < |spans| ==> spans[j].end + |BLOCK_JOIN| <= spans[k].start
  }

  ghost predicate InSpan(spans: seq<Span>, p: nat) {
    exists k :: 0 <= k < |spans| && spans[k].start <= p < spans[k].end
  }

  ghost predicate TextInSpans(doc: string, spans: seq<Span>) {
    forall p :: 0 <= p < |doc| && !IsSpace(doc[p]) ==> InSpan(spans, p)
  }

  /** What flattening promises: spans follow each other two line breaks apart, each holds its
      block's trimmed text, and nothing but whitespace lies outside them. */
  ghost predicate Flattened(doc: string, spans: seq<Span>) {
    SpansOk(doc, spans) && SpansApart(spans) && TextInSpans(doc, spans)
  }

  lemma StripIsSolid(s: string)
    requires Strip(s) != ""
    ensures !IsSpace(Strip(s)[0]) && !IsSpace(Strip(s)[|Strip(s)| - 1])
  {
    StripEmptyIffBlank(s);
    StripSlice(s);
  }

  lemma SpanOkExtends(doc: string, more: string, s: Span)
    requires SpanOk(doc, s)
    ensures SpanOk(doc + more, s)
  {
    hide Strip, IsSpace;
    assert (doc + more)[s.start..s.end] == doc[s.start..s.end];
  }

  lemma NewSpanOk(doc: string, text: string, block: SourceBlock)
    requires text == Strip(block.text) != ""
    ensures SpanOk(doc + text, Span(|doc|, |doc| + |text|, block))
  {
    StripIsSolid(block.text);
    hide Strip, IsSpace;
    assert (doc + text)[|doc|..|doc| + |text|] == text;
  }

  lemma SpansOkExtend(doc: string, more: string, spans: seq<Span>, s: Span)
    requires SpansOk(doc, spans) && SpanOk(doc + more, s)
    ensures SpansOk(doc + more, spans + [s])
  {
    hide SpanOk;
    forall k | 0 <= k < |spans| ensures SpanOk(doc + more, spans[k]) {
      SpanOkExtends(doc, more, spans[k]);
    }
  }

  lemma GapIsSpace(doc: string, gap: string, text: string, p: nat)
    requires p < |doc + gap + text| && forall k :: 0 <= k < |gap| ==> IsSpace(gap[k])
    ensures !IsSpace((doc + gap + text)[p]) ==> p < |doc| || |doc + gap| <= p
  {
    hide IsSpace;
    if |doc| <= p < |doc + gap| {
      assert (doc + gap + text)[p] == gap[p - |doc|];
    }
  }

  lemma TextExtends(doc: string, gap: string, text: string, spans: seq<Span>, s: Span)
    requires TextInSpans(doc, spans) && s.start == |doc + gap| && s.end == |doc + gap + text|
    requires forall k :: 0 <= k < |gap| ==> IsSpace(gap[k])
    ensures TextInSpans(doc + gap + text, spans + [s])
  {
    hide IsSpace;
    var doc', spans' := doc + gap + text, spans + [s];
    forall p | 0 <= p < |doc'| && !IsSpace(doc'[p]) ensures InSpan(spans', p) {
      GapIsSpace(doc, gap, text, p);
      if p < |doc| {
        assert doc[p] == doc'[p];
        var k :| 0 <= k < |spans| && spans[k].start <= p < spans[k].end;
        assert spans'[k] == spans[k];
      } else {
        assert spans'[|spans|] == s;
      }
    }
  }

  /** Appending one block's text to a flattened document. */
  lemma AppendKeepsFlattened(doc: string, spans: seq<Span>, gap: string, text: string, block: SourceBlock)
    requires Flattened(doc, spans) && text == Strip(block.text) != ""
    requires (spans == [] && gap == "") || gap == BLOCK_JOIN
    ensures Flattened(doc + gap + text, spans + [Span(|doc + gap|, |doc + gap| + |text|, block)])
  {
    hide Strip, IsSpace, TextInSpans, SpansOk, SpansApart;
    var s := Span(|doc + gap|, |doc + gap| + |text|, block);
    NewSpanOk(doc + gap, text, block);
    JoinIsSpace();
    assert doc + gap + text == doc + (gap + text);
    SpansOkExtend(doc, gap + text, spans, s);
    ApartExtend(doc, spans, s);
    TextExtends(doc, gap, text, spans, s);
  }

  lemma JoinIsSpace()
    ensures forall k :: 0 <= k < |BLOCK_JOIN| ==> IsSpace(BLOCK_JOIN[k])
  {
  }

  lemma ApartExtend(doc: string, spans: seq<Span>, s: Span)
    requires SpansOk(doc, spans) && SpansApart(spans) && (spans == [] || s.start >= |doc| + |BLOCK_JOIN|)
    ensures SpansApart(spans + [s])
  {
    hide IsSpace, Strip;
    assert forall j :: 0 <= j < |spans| ==> SpanOk(doc, spans[j]);
  }

  lemma {:induction false} FlatIsFlattened(blocks: seq<SourceBlock>)
    ensures Flattened(FlatText(blocks), FlatSpans(blocks))
    ensures FlatText(blocks) == "" <==> FlatSpans(blocks) == []
  {
    hide Flattened, Strip;
    if blocks == [] {
      NothingIsFlattened();
    } else {
      var front, block := blocks[..|blocks| - 1], blocks[|blocks| - 1];
      FlatIsFlattened(front);
      if Strip(block.text) != "" {
        AppendKeepsFlattened(FlatText(front), FlatSpans(front), if FlatText(front) == "" then "" else BLOCK_JOIN,
                             Strip(block.text), block);
        assert FlatText(front) == "" ==> FlatText(front) + "" + Strip(block.text) == Strip(block.text);
      }
    }
  }

  lemma NothingIsFlattened()
    ensures Flattened("", [])
  {
  }

  function BlocksOf(spans: seq<Span>): (r: seq<SourceBlock>)
    ensures |r| == |spans| && forall k :: 0 <= k < |r| ==> r[k] == spans[k].block
  {
    seq(|spans|, k requires 0 <= k < |spans| => spans[k].block)
  }

  /** Every block with text has its span, in order. */
  lemma {:induction false} SpansOfTexted(blocks: seq<SourceBlock>)
    requires Texted(blocks)
    ensures BlocksOf(FlatSpans(blocks)) == blocks
  {
    if blocks != [] {
      SpansOfTexted(blocks[..|blocks| - 1]);
      assert blocks[|blocks| - 1] in blocks;
    }
  }

  // ---------------------------------------------------------------- blocks in a range

  function InRange(spans: seq<Span>, start: int, end: int): seq<SourceBlock> {
    if spans == [] then []
    else
      (if spans[0].start < end && spans[0].end > start then [spans[0].block] else [])
      + InRange(spans[1..], start, end)
  }

  lemma {:induction false} InRangeMembers(spans: seq<Span>, start: int, end: int, b: SourceBlock)
    ensures b in InRange(spans, start, end) <==>
      exists k :: 0 <= k < |spans| && spans[k].block == b && spans[k].start < end && start < spans[k].end
  {
    if spans != [] {
      InRangeMembers(spans[1..], start, end, b);
      if b in InRange(spans[1..], start, end) {
        var k :| 0 <= k < |spans| - 1 && spans[1..][k].block == b
          && spans[1..][k].start < end && start < spans[1..][k].end;
        assert spans[k + 1].block == b;
      }
      forall k | 0 <= k < |spans| && spans[k].block == b && spans[k].start < end && start < spans[k].end
        ensures b in InRange(spans, start, end) {
        if k > 0 {
          assert spans[1..][k - 1].block == b;
        }
      }
    }
  }
}
