/** The semantic strategy said outright: where segments end, and what comes back for every input. */
module SemanticShape {
  import opened Wrappers
  import opened Passages
  import opened Ranges
  import opened Sums
  import opened Chunks
  import opened ChunkShape
  import opened Percentile
  import opened SemanticChunks

  // ---------------------------------------------------------------- the segments

  /** Neighbours alike enough, and costs that fit unless it is a single sentence; and unless the
      text ends there, the next sentence is not alike or would not fit. */
  ghost predicate IsSegment<V>(vectors: seq<V>, similarity: (V, V) -> real, costs: seq<nat>, cut: real, target: int,
                               s: (nat, nat))
  {
    && s.0 < s.1 <= |costs| == |vectors|
    && (forall j :: s.0 < j < s.1 ==> similarity(vectors[j - 1], vectors[j]) >= cut)
    && (s.1 == s.0 + 1 || Sum(costs, s.0, s.1) <= target)
    && (s.1 < |vectors| ==>
          similarity(vectors[s.1 - 1], vectors[s.1]) < cut || Sum(costs, s.0, s.1 + 1) > target)
  }

  /** Sentences from `start` on, each in one segment, in order. */
  ghost predicate AreSegments<V>(vectors: seq<V>, similarity: (V, V) -> real, costs: seq<nat>, cut: real, target: int,
                                 start: nat, segments: seq<(nat, nat)>)
  {
    && InRow(segments, start, |vectors|)
    && forall k :: 0 <= k < |segments| ==> IsSegment(vectors, similarity, costs, cut, target, segments[k])
  }

  lemma IsSegmentIff<V>(vectors: seq<V>, similarity: (V, V) -> real, costs: seq<nat>, cut: real, target: int,
                        s: (nat, nat))
    requires |vectors| == |costs| > 0
    ensures var gaps := Gaps(vectors, similarity);
      IsSegment(vectors, similarity, costs, cut, target, s)
      <==> SegmentOk(gaps, costs, cut, target, s) && EndsForReason(gaps, costs, cut, target, s)
  {
    hide Sum, Gaps;
    var gaps := Gaps(vectors, similarity);
    assert |gaps| == |vectors| - 1;
    forall j | 0 < j < |vectors| ensures gaps[j - 1] == similarity(vectors[j - 1], vectors[j]) {
      GapOf(vectors, similarity, j);
    }
    if s.0 < s.1 < |vectors| {
      SumLast(costs, s.0, s.1 + 1);
    }
    if SegmentOk(gaps, costs, cut, target, s) {
      forall j | s.0 < j < s.1 ensures similarity(vectors[j - 1], vectors[j]) >= cut {
        assert gaps[j - 1] >= cut;
      }
    }
    if IsSegment(vectors, similarity, costs, cut, target, s) {
      forall j | s.0 <= j < s.1 - 1 ensures gaps[j] >= cut {
        assert similarity(vectors[j + 1 - 1], vectors[j + 1]) >= cut;
      }
    }
  }

  lemma {:induction false} LongerCostsMore(costs: seq<nat>, i: nat, j: nat, k: nat)
    requires i <= j <= k <= |costs|
    ensures Sum(costs, i, j) <= Sum(costs, i, k)
    decreases k
  {
    if j < k {
      SumLast(costs, i, k);
      LongerCostsMore(costs, i, j, k - 1);
    }
  }

  /** A segment cannot end before another with the same first sentence. */
  lemma NotShorter<V>(vectors: seq<V>, similarity: (V, V) -> real, costs: seq<nat>, cut: real, target: int,
                      s: (nat, nat), t: (nat, nat))
    requires IsSegment(vectors, similarity, costs, cut, target, s)
    requires IsSegment(vectors, similarity, costs, cut, target, t) && s.0 == t.0
    ensures s.1 >= t.1
  {
    hide Sum;
    if s.1 < t.1 {
      LongerCostsMore(costs, s.0, s.1 + 1, t.1);
    }
  }

  lemma OneOrMore(segments: seq<(nat, nat)>, start: nat, n: nat)
    requires InRow(segments, start, n)
    ensures |segments| == 1 <==> segments[0].1 == n
    ensures |segments| > 1 ==> InRow(segments[1..], segments[0].1, n)
  {
    if |segments| > 1 {
      assert segments[1 - 1].1 == segments[1].0;
    }
  }

  lemma {:induction false} OnlySegments<V>(vectors: seq<V>, similarity: (V, V) -> real, costs: seq<nat>, cut: real,
                                           target: int, start: nat, a: seq<(nat, nat)>, b: seq<(nat, nat)>)
    requires AreSegments(vectors, similarity, costs, cut, target, start, a)
    requires AreSegments(vectors, similarity, costs, cut, target, start, b)
    ensures a == b
    decreases |a|
  {
    hide IsSegment;
    NotShorter(vectors, similarity, costs, cut, target, a[0], b[0]);
    NotShorter(vectors, similarity, costs, cut, target, b[0], a[0]);
    assert a[0] == b[0];
    OneOrMore(a, start, |vectors|);
    OneOrMore(b, start, |vectors|);
    assert a == [a[0]] + a[1..] && b == [b[0]] + b[1..];
    if |a| > 1 {
      OnlySegments(vectors, similarity, costs, cut, target, a[0].1, a[1..], b[1..]);
    }
  }

  /** This says what the segments are. */
  lemma SegmentsIff<V>(vectors: seq<V>, similarity: (V, V) -> real, costs: seq<nat>, cut: real, target: int,
                       segments: seq<(nat, nat)>)
    requires |vectors| == |costs| > 0
    ensures AreSegments(vectors, similarity, costs, cut, target, 0, segments)
       <==> segments == SegmentsOf(Gaps(vectors, similarity), costs, cut, target)
  {
    hide IsSegment, SegmentOk, EndsForReason, SegmentsOf, Gaps;
    var gaps := Gaps(vectors, similarity);
    var all := SegmentsOf(gaps, costs, cut, target);
    forall k | 0 <= k < |all| ensures IsSegment(vectors, similarity, costs, cut, target, all[k]) {
      SemanticSegments(gaps, costs, cut, target, k);
      IsSegmentIff(vectors, similarity, costs, cut, target, all[k]);
    }
    SegmentsAreInRow(gaps, costs, cut, target);
    if AreSegments(vectors, similarity, costs, cut, target, 0, segments) {
      OnlySegments(vectors, similarity, costs, cut, target, 0, segments, all);
    }
  }

  lemma SegmentsAreInRow(gaps: seq<real>, costs: seq<nat>, cut: real, target: int)
    requires |costs| == |gaps| + 1
    ensures InRow(SegmentsOf(gaps, costs, cut, target), 0, |costs|)
  {
    SegmentsInRow(gaps, costs, cut, target, 0, 0, costs[0]);
  }

  // ---------------------------------------------------------------- what comes back

  /** The stretches of text that the segments cover, each from its first sentence to its last. */
  ghost predicate AreStretches(bounds: seq<Range>, segments: seq<(nat, nat)>, ranges: seq<Range>) {
    && |ranges| == |segments|
    && forall k :: 0 <= k < |ranges| ==> IsStretch(bounds, segments[k], ranges[k])
  }

  ghost predicate IsStretch(bounds: seq<Range>, s: (nat, nat), r: Range) {
    s.0 < s.1 <= |bounds| && r == (bounds[s.0].0, bounds[s.1 - 1].1)
  }

  /** The chunks of the segments: their stretches cut from the document. */
  ghost predicate SegmentChunks<V>(doc: string, spans: seq<Span>, bounds: seq<Range>, vectors: seq<V>,
                                   similarity: (V, V) -> real, cut: real, target: int, count: string -> nat,
                                   chunks: seq<Chunk>, segments: seq<(nat, nat)>, ranges: seq<Range>)
    requires RangesIn(doc, bounds)
  {
    && AreSegments(vectors, similarity, CostsOf(Parts(doc, bounds), count), cut, target, 0, segments)
    && AreStretches(bounds, segments, ranges)
    && RangesIn(doc, ranges) && AreChunks(doc, spans, ranges, count, chunks)
  }

  ghost predicate OfSegments<V>(doc: string, spans: seq<Span>, bounds: seq<Range>, vectors: seq<V>,
                                similarity: (V, V) -> real, cut: real, target: int, count: string -> nat,
                                chunks: seq<Chunk>)
    requires RangesIn(doc, bounds)
  {
    exists segments, ranges ::
      SegmentChunks(doc, spans, bounds, vectors, similarity, cut, target, count, chunks, segments, ranges)
  }

  ghost predicate Returns<V>(doc: string, prepared: seq<SourceBlock>, spans: seq<Span>, bounds: seq<Range>,
                             vectors: seq<V>, similarity: (V, V) -> real, target: int, q: real, count: string -> nat,
                             r: Result<seq<Chunk>, SemanticError>)
    requires RangesIn(doc, bounds)
  {
    if prepared == [] then r == Success([])
    else if |bounds| < 2 then
      r.Success? && |r.value| == 1 && IsChunk(doc, (0, |doc|), prepared, 0, count, r.value[0])
    else if |vectors| != |bounds| then r == Failure(WrongNumberOfVectors(|vectors|, |bounds|))
    else
      match AnyPercentile(Gaps(vectors, similarity), q)
      case None => r == Failure(PercentileMissed)
      case Some(cut) =>
        r.Success? && OfSegments(doc, spans, bounds, vectors, similarity, cut, target, count, r.value)
  }

  lemma WholeIsChunk(doc: string, spans: seq<Span>, prepared: seq<SourceBlock>, count: string -> nat)
    requires Flattened(doc, spans) && BlocksOf(spans) == prepared != []
    ensures var chunks := WholeChunk(doc, prepared, count);
      |chunks| == 1 && IsChunk(doc, (0, |doc|), prepared, 0, count, chunks[0])
  {
    hide Flattened, Assemble, IsChunk;
    WholeCites(doc, spans, prepared, count, 0);
    assert doc[0..|doc|] == doc;
    AssembledIff(doc, (0, |doc|), prepared, 0, count, WholeChunk(doc, prepared, count)[0]);
  }

  lemma SegmentsReturn<V>(doc: string, spans: seq<Span>, bounds: seq<Range>, vectors: seq<V>,
                          similarity: (V, V) -> real, cut: real, target: int, count: string -> nat)
    requires Flattened(doc, spans) && BoundsOk(doc, bounds, 0) && RangesIn(doc, bounds) && |bounds| == |vectors| > 0
    ensures OfSegments(doc, spans, bounds, vectors, similarity, cut, target, count,
                       ChunksOf(doc, spans,
                                CutRanges(doc, bounds, Gaps(vectors, similarity), cut, target, count), count))
  {
    var ranges := CutRanges(doc, bounds, Gaps(vectors, similarity), cut, target, count);
    var segments := SegmentsOf(Gaps(vectors, similarity), CostsOf(Parts(doc, bounds), count), cut, target);
    assert |ranges| == |segments| && AreStretches(bounds, segments, ranges);
    hide Flattened, BoundsOk, CutRanges, ChunksOf, AreSegments, AreStretches, AreChunks, SegmentsOf, Gaps;
    SegmentsIff(vectors, similarity, CostsOf(Parts(doc, bounds), count), cut, target, segments);
    ChunksAre(doc, spans, ranges, count);
    assert SegmentChunks(doc, spans, bounds, vectors, similarity, cut, target, count,
                         ChunksOf(doc, spans, ranges, count), segments, ranges);
  }

  /** What the strategy returns, for every input: nothing for no blocks, one chunk for a single
      sentence, a refusal where vectors or percentile are missing, and otherwise its segments. */
  lemma SemanticReturns<V>(blocks: seq<SourceBlock>, findBreaks: string -> seq<Range>, embed: seq<string> -> seq<V>,
                           similarity: (V, V) -> real, target: int, q: real, count: string -> nat)
    requires FindsBreaks(findBreaks)
    ensures var prepared := Prepare(blocks);
      var doc := FlatText(prepared);
      var bounds := Sentences(doc, findBreaks);
      Returns(doc, prepared, FlatSpans(prepared), bounds, embed(Parts(doc, bounds)), similarity, target, q, count,
              SemanticOf(blocks, findBreaks, embed, similarity, target, q, count))
  {
    var prepared := Prepare(blocks);
    var doc, spans := FlatText(prepared), FlatSpans(prepared);
    var bounds := Sentences(doc, findBreaks);
    PreparedStands(blocks);
    hide *;
    SemanticSteps(blocks, findBreaks, embed, similarity, target, q, count);
    EveryReturn(doc, prepared, spans, bounds, embed(Parts(doc, bounds)), similarity, target, q, count,
                SemanticOf(blocks, findBreaks, embed, similarity, target, q, count));
  }

  lemma PreparedStands(blocks: seq<SourceBlock>)
    ensures var prepared := Prepare(blocks);
      && Flattened(FlatText(prepared), FlatSpans(prepared)) && BlocksOf(FlatSpans(prepared)) == prepared
      && (FlatText(prepared) == "" <==> prepared == [])
  {
    var prepared := Prepare(blocks);
    PreparedIsTexted(blocks);
    FlatIsFlattened(prepared);
    SpansOfTexted(prepared);
    NoBlocks(FlatSpans(prepared), prepared);
  }

  /** The branches of the strategy. */
  ghost predicate Steps<V>(doc: string, prepared: seq<SourceBlock>, spans: seq<Span>, bounds: seq<Range>,
                           vectors: seq<V>, similarity: (V, V) -> real, target: int, q: real, count: string -> nat,
                           r: Result<seq<Chunk>, SemanticError>)
    requires BoundsOk(doc, bounds, 0) && RangesIn(doc, bounds)
  {
    if doc == "" then r == Success([])
    else if |bounds| < 2 then r == Success(WholeChunk(doc, prepared, count))
    else if |vectors| != |bounds| then r == Failure(WrongNumberOfVectors(|vectors|, |bounds|))
    else
      var gaps := Gaps(vectors, similarity);
      match AnyPercentile(gaps, q)
      case None => r == Failure(PercentileMissed)
      case Some(cut) =>
        r == Success(ChunksOf(doc, spans, CutRanges(doc, bounds, gaps, cut, target, count), count))
  }

  lemma {:induction false} SemanticSteps<V>(blocks: seq<SourceBlock>, findBreaks: string -> seq<Range>,
                                            embed: seq<string> -> seq<V>, similarity: (V, V) -> real, target: int,
                                            q: real, count: string -> nat)
    requires FindsBreaks(findBreaks)
    ensures var prepared := Prepare(blocks);
      var doc := FlatText(prepared);
      var bounds := Sentences(doc, findBreaks);
      Steps(doc, prepared, FlatSpans(prepared), bounds, embed(Parts(doc, bounds)), similarity, target, q, count,
            SemanticOf(blocks, findBreaks, embed, similarity, target, q, count))
  {
    hide Prepare, FlatText, FlatSpans, Sentences, FindsBreaks, ChunksOf, CutRanges, AnyPercentile, Gaps, WholeChunk,
         BoundsOk, RangesIn, Parts;
  }

  lemma EveryReturn<V>(doc: string, prepared: seq<SourceBlock>, spans: seq<Span>, bounds: seq<Range>,
                       vectors: seq<V>, similarity: (V, V) -> real, target: int, q: real, count: string -> nat,
                       r: Result<seq<Chunk>, SemanticError>)
    requires Flattened(doc, spans) && BlocksOf(spans) == prepared && (doc == "" <==> prepared == [])
    requires BoundsOk(doc, bounds, 0) && RangesIn(doc, bounds)
    requires Steps(doc, prepared, spans, bounds, vectors, similarity, target, q, count, r)
    ensures Returns(doc, prepared, spans, bounds, vectors, similarity, target, q, count, r)
  {
    hide Flattened, BlocksOf, IsChunk, ChunksOf, CutRanges, AnyPercentile, Gaps, OfSegments, WholeChunk, BoundsOk,
         RangesIn;
    if prepared != [] && |bounds| < 2 {
      WholeIsChunk(doc, spans, prepared, count);
    } else if prepared != [] {
      var p := AnyPercentile(Gaps(vectors, similarity), q);
      if |vectors| == |bounds| && p.Some? {
        SegmentsReturn(doc, spans, bounds, vectors, similarity, p.value, target, count);
      }
    }
  }

  lemma NoBlocks(spans: seq<Span>, prepared: seq<SourceBlock>)
    requires BlocksOf(spans) == prepared
    ensures spans == [] <==> prepared == []
  {
  }
}
