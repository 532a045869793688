/** The semantic strategy: cut between sentences where the topic shifts. */
module SemanticChunks {
  import opened Wrappers
  import opened Texts
  import opened Tokens
  import opened Rounding
  import opened Passages
  import opened Ranges
  import opened Sums
  import opened Chunks
  import opened Percentile

  // ---------------------------------------------------------------- cutting

  /** Cuts after sentence `i` where the next one is too different or would not fit. */
  function Segments(gaps: seq<real>, costs: seq<nat>, cut: real, target: int, i: nat, start: nat,
                    running: nat): seq<(nat, nat)>
    requires |costs| == |gaps| + 1 && start <= i <= |gaps|
    decreases |gaps| - i
  {
    if i == |gaps| then [(start, |costs|)]
    else if gaps[i] < cut || running + costs[i + 1] > target then
      [(start, i + 1)] + Segments(gaps, costs, cut, target, i + 1, i + 1, costs[i + 1])
    else Segments(gaps, costs, cut, target, i + 1, start, running + costs[i + 1])
  }

  /** Segments tile the sentences from `start` to the last. */
  ghost predicate InRow(segments: seq<(nat, nat)>, start: nat, n: nat) {
    && segments != [] && segments[0].0 == start && segments[|segments| - 1].1 == n
    && (forall k :: 0 <= k < |segments| ==> segments[k].0 < segments[k].1 <= n)
    && (forall k :: 0 < k < |segments| ==> segments[k - 1].1 == segments[k].0)
  }

  /** Every sentence is in exactly one segment, in order. */
  lemma {:induction false} SegmentsInRow(gaps: seq<real>, costs: seq<nat>, cut: real, target: int, i: nat,
                                         start: nat, running: nat)
    requires |costs| == |gaps| + 1 && start <= i <= |gaps|
    ensures InRow(Segments(gaps, costs, cut, target, i, start, running), start, |costs|)
    decreases |gaps| - i
  {
    if i < |gaps| {
      if gaps[i] < cut || running + costs[i + 1] > target {
        SegmentsInRow(gaps, costs, cut, target, i + 1, i + 1, costs[i + 1]);
      } else {
        SegmentsInRow(gaps, costs, cut, target, i + 1, start, running + costs[i + 1]);
      }
    }
  }

  /** A segment holds no topic shift, and fits the target by its sentences' costs unless it is
      a single sentence. */
  ghost predicate SegmentOk(gaps: seq<real>, costs: seq<nat>, cut: real, target: int, s: (nat, nat)) {
    && s.0 < s.1 <= |costs| == |gaps| + 1
    && (forall j :: s.0 <= j < s.1 - 1 ==> gaps[j] >= cut)
    && (s.1 == s.0 + 1 || Sum(costs, s.0, s.1) <= target)
  }

  /** A segment ends before the last sentence only at a topic shift or where the next sentence
      would exceed the target. */
  ghost predicate EndsForReason(gaps: seq<real>, costs: seq<nat>, cut: real, target: int, s: (nat, nat)) {
    s.0 < s.1 <= |costs| == |gaps| + 1
    && (s.1 < |costs| ==> gaps[s.1 - 1] < cut || Sum(costs, s.0, s.1) + costs[s.1] > target)
  }

  lemma {:induction false} SegmentsAreOk(gaps: seq<real>, costs: seq<nat>, cut: real, target: int, i: nat, start: nat,
                                         running: nat, k: nat)
    requires |costs| == |gaps| + 1 && start <= i <= |gaps| && running == Sum(costs, start, i + 1)
    requires SegmentOk(gaps, costs, cut, target, (start, i + 1))
    requires k < |Segments(gaps, costs, cut, target, i, start, running)|
    ensures SegmentOk(gaps, costs, cut, target, Segments(gaps, costs, cut, target, i, start, running)[k])
    ensures EndsForReason(gaps, costs, cut, target, Segments(gaps, costs, cut, target, i, start, running)[k])
    decreases |gaps| - i
  {
    if i < |gaps| {
      SumLast(costs, start, i + 2);
      if gaps[i] < cut || running + costs[i + 1] > target {
        if k > 0 {
          assert Sum(costs, i + 1, i + 2) == costs[i + 1];
          SegmentsAreOk(gaps, costs, cut, target, i + 1, i + 1, costs[i + 1], k - 1);
        }
      } else {
        SegmentsAreOk(gaps, costs, cut, target, i + 1, start, running + costs[i + 1], k);
      }
    }
  }

  /** Cuts made because the topic shifts. */
  function TopicCuts(gaps: seq<real>, cut: real, segments: seq<(nat, nat)>): nat {
    if |segments| <= 1 then 0
    else
      var last := segments[0].1;
      (if 0 < last <= |gaps| && gaps[last - 1] < cut then 1 else 0) + TopicCuts(gaps, cut, segments[1..])
  }

  /** Topic cuts are made exactly at the gaps below the cut value. */
  lemma CutsCountFirst(gaps: seq<real>, cut: real, i: nat, start: nat, rest: seq<(nat, nat)>)
    requires i < |gaps| && rest != []
    ensures TopicCuts(gaps, cut, [(start, i + 1)] + rest)
      == (if gaps[i] < cut then 1 else 0) + TopicCuts(gaps, cut, rest)
    ensures Below(gaps[i..], cut) == (if gaps[i] < cut then 1 else 0) + Below(gaps[i + 1..], cut)
  {
    assert ([(start, i + 1)] + rest)[1..] == rest;
    assert gaps[i..][0] == gaps[i] && gaps[i..][1..] == gaps[i + 1..];
  }

  lemma SegmentsStep(gaps: seq<real>, costs: seq<nat>, cut: real, target: int, i: nat, start: nat, running: nat)
    requires |costs| == |gaps| + 1 && start <= i < |gaps|
    ensures var cuts, next := gaps[i] < cut || running + costs[i + 1] > target,
        Segments(gaps, costs, cut, target, i + 1, i + 1, costs[i + 1]);
      && next != []
      && Segments(gaps, costs, cut, target, i, start, running)
         == if cuts then [(start, i + 1)] + next
            else Segments(gaps, costs, cut, target, i + 1, start, running + costs[i + 1])
  {
    SegmentsInRow(gaps, costs, cut, target, i + 1, i + 1, costs[i + 1]);
  }

  lemma NothingLeft(gaps: seq<real>, costs: seq<nat>, cut: real, target: int, start: nat, running: nat)
    requires |costs| == |gaps| + 1 && start <= |gaps|
    ensures TopicCuts(gaps, cut, Segments(gaps, costs, cut, target, |gaps|, start, running)) == 0
    ensures Below(gaps[|gaps|..], cut) == 0
  {
  }

  lemma {:induction false} TopicCutsCount(gaps: seq<real>, costs: seq<nat>, cut: real, target: int, i: nat, start: nat,
                                          running: nat)
    requires |costs| == |gaps| + 1 && start <= i <= |gaps|
    ensures TopicCuts(gaps, cut, Segments(gaps, costs, cut, target, i, start, running)) == Below(gaps[i..], cut)
    decreases |gaps| - i
  {
    hide *;
    if i == |gaps| {
      NothingLeft(gaps, costs, cut, target, start, running);
    } else {
      SegmentsStep(gaps, costs, cut, target, i, start, running);
      CutsCountFirst(gaps, cut, i, start, Segments(gaps, costs, cut, target, i + 1, i + 1, costs[i + 1]));
      if gaps[i] < cut || running + costs[i + 1] > target {
        TopicCutsCount(gaps, costs, cut, target, i + 1, i + 1, costs[i + 1]);
      } else {
        TopicCutsCount(gaps, costs, cut, target, i + 1, start, running + costs[i + 1]);
      }
    }
  }

  // ---------------------------------------------------------------- segments in the document

  function Hull(bounds: seq<Range>, s: (nat, nat)): Range
    requires s.0 < s.1 <= |bounds|
  {
    (bounds[s.0].0, bounds[s.1 - 1].1)
  }

  lemma {:induction false} HullIsIn(doc: string, bounds: seq<Range>, s: (nat, nat))
    requires BoundsOk(doc, bounds, 0) && s.0 < s.1 <= |bounds|
    ensures Hull(bounds, s).0 < Hull(bounds, s).1 <= |doc|
  {
    hide IsSpace;
    BoundsAscend(doc, bounds, 0, s.0);
    BoundsAscend(doc, bounds, 0, s.1 - 1);
    if s.0 < s.1 - 1 {
      BoundsApart(doc, bounds, 0, s.0, s.1 - 1);
    }
  }

  function Hulls(bounds: seq<Range>, segments: seq<(nat, nat)>): (r: seq<Range>)
    requires forall k :: 0 <= k < |segments| ==> segments[k].0 < segments[k].1 <= |bounds|
    ensures |r| == |segments| && forall k :: 0 <= k < |r| ==> r[k] == Hull(bounds, segments[k])
  {
    seq(|segments|, k requires 0 <= k < |segments| => Hull(bounds, segments[k]))
  }

  lemma {:induction false} HullsAreIn(doc: string, bounds: seq<Range>, segments: seq<(nat, nat)>)
    requires BoundsOk(doc, bounds, 0)
    requires forall k :: 0 <= k < |segments| ==> segments[k].0 < segments[k].1 <= |bounds|
    ensures RangesIn(doc, Hulls(bounds, segments))
  {
    hide BoundsOk;
    forall k | 0 <= k < |segments| ensures RangeIn(doc, Hull(bounds, segments[k])) {
      HullIsIn(doc, bounds, segments[k]);
    }
  }

  // ---------------------------------------------------------------- the chunker

  datatype SemanticError = WrongNumberOfVectors(got: nat, expected: nat) | PercentileMissed

  function Gaps<V>(vectors: seq<V>, similarity: (V, V) -> real): (r: seq<real>)
    ensures |r| == if vectors == [] then 0 else |vectors| - 1
  {
    if vectors == [] then []
    else seq(|vectors| - 1, k requires 0 <= k < |vectors| - 1 => similarity(vectors[k], vectors[k + 1]))
  }

  ghost predicate FindsBreaks(findBreaks: string -> seq<Range>) {
    forall doc :: BreaksOk(doc, findBreaks(doc))
  }

  /** The sentences of a document, as ranges. */
  function Sentences(doc: string, findBreaks: string -> seq<Range>): (bounds: seq<Range>)
    requires FindsBreaks(findBreaks)
    ensures BoundsOk(doc, bounds, 0) && RangesIn(doc, bounds)
  {
    assert BreaksOk(doc, findBreaks(doc));
    BoundsAreOk(doc, findBreaks(doc), 0);
    BoundsInDoc(doc, Bounds(doc, findBreaks(doc), 0));
    Bounds(doc, findBreaks(doc), 0)
  }

  /** The segments of at least two sentences. */
  function SegmentsOf(gaps: seq<real>, costs: seq<nat>, cut: real, target: int): (r: seq<(nat, nat)>)
    requires |costs| == |gaps| + 1
    ensures InRow(r, 0, |costs|)
  {
    SegmentsInRow(gaps, costs, cut, target, 0, 0, costs[0]);
    Segments(gaps, costs, cut, target, 0, 0, costs[0])
  }

  function CutRanges(doc: string, bounds: seq<Range>, gaps: seq<real>, cut: real, target: int,
                     count: string -> nat): (r: seq<Range>)
    requires BoundsOk(doc, bounds, 0) && RangesIn(doc, bounds) && |bounds| == |gaps| + 1
    ensures RangesIn(doc, r)
  {
    var segments := SegmentsOf(gaps, CostsOf(Parts(doc, bounds), count), cut, target);
    HullsAreIn(doc, bounds, segments);
    Hulls(bounds, segments)
  }

  /** A document of a single sentence, or none. */
  function WholeChunk(doc: string, prepared: seq<SourceBlock>, count: string -> nat): seq<Chunk> {
    match Assemble(0, doc, prepared, count)
    case Some(chunk) => [chunk]
    case None => []
  }

  function SemanticOf<V>(blocks: seq<SourceBlock>, findBreaks: string -> seq<Range>, embed: seq<string> -> seq<V>,
                         similarity: (V, V) -> real, target: int, q: real,
                         count: string -> nat): Result<seq<Chunk>, SemanticError>
    requires FindsBreaks(findBreaks)
  {
    var prepared := Prepare(blocks);
    var doc := FlatText(prepared);
    var bounds := Sentences(doc, findBreaks);
    if doc == "" then Success([])
    else if |bounds| < 2 then Success(WholeChunk(doc, prepared, count))
    else
      var vectors := embed(Parts(doc, bounds));
      if |vectors| != |bounds| then Failure(WrongNumberOfVectors(|vectors|, |bounds|))
      else
        var gaps := Gaps(vectors, similarity);
        match AnyPercentile(gaps, q)
        case None => Failure(PercentileMissed)
        case Some(cut) => Success(ChunksOf(doc, FlatSpans(prepared),
                                  CutRanges(doc, bounds, gaps, cut, target, count), count))
  }

  /** The chunks of the segments cut so far. */
  ghost predicate Emitted(doc: string, spans: seq<Span>, bounds: seq<Range>, done: seq<(nat, nat)>,
                          count: string -> nat,
                          chunks: seq<Chunk>)
  {
    && Within(done, |bounds|) && RangesIn(doc, Hulls(bounds, done))
    && chunks == ChunksOf(doc, spans, Hulls(bounds, done), count)
  }

  method EmitSegment(doc: string, spans: seq<Span>, bounds: seq<Range>, ghost done: seq<(nat, nat)>, s: (nat, nat),
                     count: string -> nat, chunks0: seq<Chunk>)
    returns (chunks: seq<Chunk>)
    requires BoundsOk(doc, bounds, 0) && s.0 < s.1 <= |bounds| && Emitted(doc, spans, bounds, done, count, chunks0)
    ensures Emitted(doc, spans, bounds, done + [s], count, chunks)
  {
    hide ChunksOf, BoundsOk;
    CutOneMore(doc, bounds, done, s);
    chunks := Append(doc, spans, Hulls(bounds, done), Hull(bounds, s), count, chunks0);
  }

  method CutChunks(doc: string, spans: seq<Span>, bounds: seq<Range>, gaps: seq<real>, cut: real, target: int,
                   count: string -> nat)
    returns (chunks: seq<Chunk>)
    requires BoundsOk(doc, bounds, 0) && RangesIn(doc, bounds) && |bounds| == |gaps| + 1
    ensures chunks == ChunksOf(doc, spans, CutRanges(doc, bounds, gaps, cut, target, count), count)
  {
    hide ChunksOf, BoundsOk, Emitted, Within;
    var costs := CostsOf(Parts(doc, bounds), count);
    chunks := [];
    var start: nat, running: nat := 0, costs[0];
    ghost var all, done: seq<(nat, nat)> := Segments(gaps, costs, cut, target, 0, 0, running), [];
    NoChunks(doc, spans, bounds, count);
    var i := 0;
    while i < |gaps|
      invariant start <= i <= |gaps| && all == done + Segments(gaps, costs, cut, target, i, start, running)
      invariant Emitted(doc, spans, bounds, done, count, chunks)
    {
      if gaps[i] < cut || running + costs[i + 1] > target {
        Regroup(done, (start, i + 1), Segments(gaps, costs, cut, target, i + 1, i + 1, costs[i + 1]));
        chunks := EmitSegment(doc, spans, bounds, done, (start, i + 1), count, chunks);
        done := done + [(start, i + 1)];
        start, running := i + 1, costs[i + 1];
      } else {
        running := running + costs[i + 1];
      }
      i := i + 1;
    }
    chunks := EmitSegment(doc, spans, bounds, done, (start, |bounds|), count, chunks);
    AllEmitted(doc, spans, bounds, gaps, cut, target, count, chunks);
  }

  lemma {:induction false} AllEmitted(doc: string, spans: seq<Span>, bounds: seq<Range>, gaps: seq<real>, cut: real,
                                      target: int,
                                      count: string -> nat, chunks: seq<Chunk>)
    requires BoundsOk(doc, bounds, 0) && RangesIn(doc, bounds) && |bounds| == |gaps| + 1
    requires Emitted(doc, spans, bounds, SegmentsOf(gaps, CostsOf(Parts(doc, bounds), count), cut, target),
                     count, chunks)
    ensures chunks == ChunksOf(doc, spans, CutRanges(doc, bounds, gaps, cut, target, count), count)
  {
    hide ChunksOf, BoundsOk, SegmentsOf;
  }

  ghost predicate Within(segments: seq<(nat, nat)>, n: nat) {
    forall k :: 0 <= k < |segments| ==> segments[k].0 < segments[k].1 <= n
  }

  lemma NoChunks(doc: string, spans: seq<Span>, bounds: seq<Range>, count: string -> nat)
    ensures Emitted(doc, spans, bounds, [], count, [])
  {
  }

  lemma Regroup(a: seq<(nat, nat)>, s: (nat, nat), b: seq<(nat, nat)>)
    ensures a + ([s] + b) == a + [s] + b
  {
  }

  lemma {:induction false} CutOneMore(doc: string, bounds: seq<Range>, done: seq<(nat, nat)>, s: (nat, nat))
    requires BoundsOk(doc, bounds, 0) && Within(done, |bounds|) && s.0 < s.1 <= |bounds|
    ensures Within(done + [s], |bounds|) && Hulls(bounds, done + [s]) == Hulls(bounds, done) + [Hull(bounds, s)]
    ensures RangeIn(doc, Hull(bounds, s))
  {
    hide BoundsOk;
    HullIsIn(doc, bounds, s);
  }

  method ChunkSemantic<V>(blocks: seq<SourceBlock>, findBreaks: string -> seq<Range>, embed: seq<string> -> seq<V>,
                          similarity: (V, V) -> real, target: int, q: real, count: string -> nat)
    returns (r: Result<seq<Chunk>, SemanticError>)
    requires FindsBreaks(findBreaks)
    ensures r == SemanticOf(blocks, findBreaks, embed, similarity, target, q, count)
  {
    hide ChunksOf, BoundsOk, Bounds, CutRanges, Assemble, FlatText, FlatSpans, AnyPercentile;
    var prepared := Prepare(blocks);
    var doc, spans := Flatten(prepared);
    if doc == "" {
      return Success([]);
    }
    var bounds := FindBounds(doc, findBreaks(doc));
    assert bounds == Sentences(doc, findBreaks);
    if |bounds| < 2 {
      var chunk := Assemble(0, doc, prepared, count);
      return Success(if chunk.Some? then [chunk.value] else []);
    }
    var vectors := embed(Parts(doc, bounds));
    if |vectors| != |bounds| {
      return Failure(WrongNumberOfVectors(|vectors|, |bounds|));
    }
    var gaps := Gaps(vectors, similarity);
    var cut := AnyPercentile(gaps, q);
    if cut.None? {
      return Failure(PercentileMissed);
    }
    var chunks := CutChunks(doc, spans, bounds, gaps, cut.value, target, count);
    return Success(chunks);
  }

  // ---------------------------------------------------------------- what the cuts promise

  /** Sentences go to segments one after the other; a segment holds no topic shift and fits the
      target unless it is a single sentence; and it ends only for one of those two reasons. */
  lemma SemanticSegments(gaps: seq<real>, costs: seq<nat>, cut: real, target: int, k: nat)
    requires |costs| == |gaps| + 1 && k < |SegmentsOf(gaps, costs, cut, target)|
    ensures InRow(SegmentsOf(gaps, costs, cut, target), 0, |costs|)
    ensures SegmentOk(gaps, costs, cut, target, SegmentsOf(gaps, costs, cut, target)[k])
    ensures EndsForReason(gaps, costs, cut, target, SegmentsOf(gaps, costs, cut, target)[k])
  {
    assert Sum(costs, 0, 1) == costs[0];
    SegmentsAreOk(gaps, costs, cut, target, 0, 0, costs[0], k);
  }

  /** At most one cut more than the whole part of `(n - 1) q` is made for the topic, with `n`
      gaps; none when all gaps are equal. */
  lemma {:induction false} TopicCutsAreFew(gaps: seq<real>, costs: seq<nat>, q: real, target: int)
    requires gaps != [] && |costs| == |gaps| + 1 && 0.0 <= q <= 1.0
    ensures var cuts := TopicCuts(gaps, PercentileOf(gaps, q), SegmentsOf(gaps, costs, PercentileOf(gaps, q), target));
      && cuts <= Position(|gaps|, q).Floor + 1
      && ((forall i :: 0 <= i < |gaps| ==> gaps[i] == gaps[0]) ==> cuts == 0)
  {
    hide PercentileOf;
    TopicCutsCount(gaps, costs, PercentileOf(gaps, q), target, 0, 0, costs[0]);
    assert gaps[0..] == gaps;
    FewLieBelow(gaps, q);
    if forall i :: 0 <= i < |gaps| ==> gaps[i] == gaps[0] {
      NoneBelowEqual(gaps, q, gaps[0]);
    }
  }

  /** Where the position of the percentile falls between two different gaps, the lower one and all
      before it are cut at: the whole part of the position and one more. */
  lemma {:induction false} TopicCutsExactly(gaps: seq<real>, costs: seq<nat>, q: real, target: int)
    requires 0.0 <= q <= 1.0 && |gaps| > 1 && |costs| == |gaps| + 1
    requires var pos := (|gaps| - 1) as real * q;
      && pos != pos.Floor as real && 0 <= pos.Floor && pos.Floor + 1 < |gaps|
      && Ordered(gaps)[pos.Floor] < Ordered(gaps)[pos.Floor + 1]
    ensures AnyPercentile(gaps, q).Some?
    ensures var cut := AnyPercentile(gaps, q).value;
      TopicCuts(gaps, cut, SegmentsOf(gaps, costs, cut, target)) == ((|gaps| - 1) as real * q).Floor + 1
  {
    hide PercentileOf, AnyPercentile, Ordered;
    FractionHits(gaps, q);
    TopicCutsCount(gaps, costs, PercentileOf(gaps, q), target, 0, 0, costs[0]);
    assert gaps[0..] == gaps;
    ExactlyBelow(gaps, q);
  }

  lemma GapOf<V>(vectors: seq<V>, similarity: (V, V) -> real, j: nat)
    requires 0 < j < |vectors|
    ensures Gaps(vectors, similarity)[j - 1] == similarity(vectors[j - 1], vectors[j])
  {
  }

  lemma {:induction false} SegmentWith(segments: seq<(nat, nat)>, start: nat, n: nat, i: nat) returns (k: nat)
    requires InRow(segments, start, n) && start <= i < n
    ensures k < |segments| && segments[k].0 <= i < segments[k].1
    decreases |segments|
  {
    if i < segments[0].1 {
      k := 0;
    } else {
      assert InRow(segments[1..], segments[0].1, n);
      k := SegmentWith(segments[1..], segments[0].1, n, i);
      k := k + 1;
    }
  }

  lemma {:induction false} BoundInHull(doc: string, bounds: seq<Range>, s: (nat, nat), i: nat)
    requires BoundsOk(doc, bounds, 0) && s.0 <= i < s.1 <= |bounds|
    ensures Hull(bounds, s).0 <= bounds[i].0 && bounds[i].1 <= Hull(bounds, s).1
  {
    hide IsSpace;
    BoundsAscend(doc, bounds, 0, i);
    BoundsAscend(doc, bounds, 0, s.0);
    BoundsAscend(doc, bounds, 0, s.1 - 1);
    if s.0 < i {
      BoundsApart(doc, bounds, 0, s.0, i);
    }
    if i < s.1 - 1 {
      BoundsApart(doc, bounds, 0, i, s.1 - 1);
    }
  }

  /** The ranges that become chunks leave no text out and do not overlap. */
  lemma {:induction false} CutRangesCover(doc: string, bounds: seq<Range>, gaps: seq<real>, cut: real, target: int,
                                          count: string -> nat)
    requires BoundsOk(doc, bounds, 0) && RangesIn(doc, bounds) && |bounds| == |gaps| + 1
    ensures var ranges := CutRanges(doc, bounds, gaps, cut, target, count);
      CoversText(doc, ranges) && forall k :: 0 < k < |ranges| ==> ranges[k - 1].1 <= ranges[k].0
  {
    hide IsSpace, BoundsOk, SegmentsOf;
    var segments := SegmentsOf(gaps, CostsOf(Parts(doc, bounds), count), cut, target);
    var ranges := CutRanges(doc, bounds, gaps, cut, target, count);
    forall p | 0 <= p < |doc| && !IsSpace(doc[p]) ensures InSome(ranges, p) {
      var i := TextInBounds(doc, bounds, 0, p);
      var k := SegmentWith(segments, 0, |bounds|, i);
      BoundInHull(doc, bounds, segments[k], i);
      assert ranges[k].0 <= p < ranges[k].1;
    }
    forall k | 0 < k < |ranges| ensures ranges[k - 1].1 <= ranges[k].0 {
      assert segments[k - 1].1 == segments[k].0;
      BoundsApart(doc, bounds, 0, segments[k - 1].1 - 1, segments[k].0);
    }
  }

  /** Every prepared block is named by some chunk. */
  lemma SemanticCitesEveryBlock<V>(blocks: seq<SourceBlock>, findBreaks: string -> seq<Range>,
                                   embed: seq<string> -> seq<V>,
                                   similarity: (V, V) -> real, target: int, q: real,
                                   count: string -> nat, b: SourceBlock)
    returns (k: nat)
    requires FindsBreaks(findBreaks) && b in Prepare(blocks)
    requires SemanticOf(blocks, findBreaks, embed, similarity, target, q, count).Success?
    ensures var chunks := SemanticOf(blocks, findBreaks, embed, similarity, target, q, count).value;
      k < |chunks| && b.id in chunks[k].blockIds
  {
    hide ChunksOf, BoundsOk, CutRanges, Sentences, Flattened, AnyPercentile, FindsBreaks;
    var prepared := Prepare(blocks);
    var doc, spans := FlatText(prepared), FlatSpans(prepared);
    FlatIsFlattened(prepared);
    PreparedIsTexted(blocks);
    SpansOfTexted(prepared);
    var i :| 0 <= i < |prepared| && prepared[i] == b;
    assert BlocksOf(spans)[i] == b;
    var bounds := Sentences(doc, findBreaks);
    if |bounds| < 2 {
      k := 0;
      WholeCites(doc, spans, prepared, count, i);
    } else {
      var gaps := Gaps(embed(Parts(doc, bounds)), similarity);
      var cut := AnyPercentile(gaps, q).value;
      CutRangesCover(doc, bounds, gaps, cut, target, count);
      k := EveryBlockIsCited(doc, spans, CutRanges(doc, bounds, gaps, cut, target, count), count, i);
    }
  }

  lemma WholeCites(doc: string, spans: seq<Span>, prepared: seq<SourceBlock>, count: string -> nat, i: nat)
    requires Flattened(doc, spans) && BlocksOf(spans) == prepared && i < |prepared|
    ensures |WholeChunk(doc, prepared, count)| == 1 && prepared[i].id in WholeChunk(doc, prepared, count)[0].blockIds
  {
    hide Flattened, Strip, IsSpace, PageRange, CharRange, DeepestPath;
    var p := SpanStart(doc, spans, i);
    TextTrims(doc, p);
    assert Ids(prepared)[i] == prepared[i].id;
  }

  lemma TextTrims(doc: string, p: nat)
    requires p < |doc| && !IsSpace(doc[p])
    ensures Strip(doc) != ""
  {
    hide Strip, IsSpace;
    StripEmptyIffBlank(doc);
  }

  // ---------------------------------------------------------------- the overshoot

  /** A sentence after the first is preceded by whitespace. */
  ghost predicate StartsClean(doc: string, bounds: seq<Range>) {
    forall k :: 0 <= k < |bounds| ==> bounds[k].0 == 0 || (bounds[k].0 <= |doc| && IsSpace(doc[bounds[k].0 - 1]))
  }

  lemma {:induction false} BoundsStartClean(doc: string, breaks: seq<Range>, cursor: nat)
    requires BreaksOk(doc, breaks) && cursor <= |doc| && (cursor == 0 || IsSpace(doc[cursor - 1]))
    ensures StartsClean(doc, Bounds(doc, breaks, cursor))
    decreases |breaks|
  {
    hide IsSpace;
    if breaks != [] {
      assert SpaceBetween(doc, breaks[0].0, breaks[0].1);
      BoundsStartClean(doc, breaks[1..], breaks[0].1);
    }
  }

  lemma PartsOneMore(doc: string, bounds: seq<Range>, from: nat, past: nat)
    requires RangesIn(doc, bounds) && from < past <= |bounds|
    ensures Parts(doc, bounds[from..past])[..past - 1 - from] == Parts(doc, bounds[from..past - 1])
    ensures Parts(doc, bounds[from..past])[past - 1 - from] == doc[bounds[past - 1].0..bounds[past - 1].1]
  {
  }

  lemma {:induction false} GapBefore(doc: string, bounds: seq<Range>, k: nat)
    requires BoundsOk(doc, bounds, 0) && StartsClean(doc, bounds) && 0 < k < |bounds|
    ensures 0 < bounds[k - 1].1 <= bounds[k].0 < bounds[k].1 <= |doc| && IsSpace(doc[bounds[k].0 - 1])
    ensures SpaceBetween(doc, bounds[k - 1].1, bounds[k].0)
  {
    hide IsSpace, BoundsOk;
    BoundsAscend(doc, bounds, 0, k);
    BoundsAscend(doc, bounds, 0, k - 1);
    BoundsApart(doc, bounds, 0, k - 1, k);
  }

  /** The tokens of a segment are those of its sentences. */
  lemma {:induction false} SegmentTokens(doc: string, bounds: seq<Range>, from: nat, past: nat, isWord: char -> bool)
    requires Sane(isWord) && BoundsOk(doc, bounds, 0) && RangesIn(doc, bounds) && StartsClean(doc, bounds)
    requires from < past <= |bounds|
    ensures bounds[from].0 < bounds[past - 1].1 <= |doc|
    ensures TokenCount(doc[bounds[from].0..bounds[past - 1].1], isWord)
       == TotalTokens(Parts(doc, bounds[from..past]), isWord)
    decreases past
  {
    hide IsSpace, TokenCount, BoundsOk, Parts, SpaceBetween, StartsClean;
    HullIsIn(doc, bounds, (from, past));
    PartsOneMore(doc, bounds, from, past);
    var last := bounds[past - 1];
    if past == from + 1 {
      assert Parts(doc, bounds[from..past - 1]) == [];
    } else {
      SegmentTokens(doc, bounds, from, past - 1, isWord);
      GapBefore(doc, bounds, past - 1);
      TokensOverGap(doc, bounds[from].0, bounds[past - 2].1, last.0, last.1, isWord);
    }
  }

  lemma TokensOverGap(doc: string, a: nat, b: nat, c: nat, d: nat, isWord: char -> bool)
    requires Sane(isWord) && a < b <= c < d <= |doc| && SpaceBetween(doc, b, c) && IsSpace(doc[c - 1])
    ensures TokenCount(doc[a..d], isWord) == TokenCount(doc[a..b], isWord) + TokenCount(doc[c..d], isWord)
  {
    SpacesHaveNone(doc[b..c], isWord);
    hide IsSpace, TokenCount;
    assert doc[a..c] == doc[a..b] + doc[b..c] && doc[a..d] == doc[a..c] + doc[c..d];
    assert b < c ==> doc[b..c][0] == doc[b];
    TokensAdd(doc[a..b], doc[b..c], isWord);
    assert doc[a..c][c - a - 1] == doc[c - 1];
    TokensAdd(doc[a..c], doc[c..d], isWord);
  }

  lemma {:induction false} TotalIsEstimate(doc: string, bounds: seq<Range>, from: nat, past: nat, count: string -> nat)
    requires RangesIn(doc, bounds) && from <= past <= |bounds|
    ensures Sum(CostsOf(Parts(doc, bounds), count), from, past) == TotalEstimate(Parts(doc, bounds[from..past]), count)
    decreases past
  {
    hide Parts;
    if from < past {
      SumLast(CostsOf(Parts(doc, bounds), count), from, past);
      PartsOneMore(doc, bounds, from, past);
      TotalIsEstimate(doc, bounds, from, past - 1, count);
    }
  }

  /** A chunk of two or more sentences counts, by the approximate counter, at most thirty per
      cent more than the target, rounded. */
  lemma SemanticOvershoot(doc: string, findBreaks: string -> seq<Range>, gaps: seq<real>, cut: real, target: int,
                          count: string -> nat, isWord: char -> bool, k: nat)
    requires FindsBreaks(findBreaks) && Approximates(count, isWord)
    requires |Sentences(doc, findBreaks)| == |gaps| + 1
    requires k < |CutRanges(doc, Sentences(doc, findBreaks), gaps, cut, target, count)|
    ensures var bounds := Sentences(doc, findBreaks);
      var s := SegmentsOf(gaps, CostsOf(Parts(doc, bounds), count), cut, target)[k];
      var r := CutRanges(doc, bounds, gaps, cut, target, count)[k];
      && s.0 < s.1 && r.0 <= r.1 <= |doc|
      && (s.1 - s.0 > 1 ==> target >= 0 && count(Strip(doc[r.0..r.1])) <= Tenths(13 * target))
  {
    hide BoundsOk, IsSpace, Approximates, Bounds;
    var bounds := Sentences(doc, findBreaks);
    var costs := CostsOf(Parts(doc, bounds), count);
    var s := SegmentsOf(gaps, costs, cut, target)[k];
    SemanticSegments(gaps, costs, cut, target, k);
    if s.1 - s.0 > 1 {
      assert BreaksOk(doc, findBreaks(doc));
      BoundsStartClean(doc, findBreaks(doc), 0);
      TotalIsEstimate(doc, bounds, s.0, s.1, count);
      SegmentCounts(doc, bounds, s, target, count, isWord);
    }
  }

  lemma {:induction false} SegmentCounts(doc: string, bounds: seq<Range>, s: (nat, nat), target: nat,
                                         count: string -> nat, isWord: char -> bool)
    requires Approximates(count, isWord) && BoundsOk(doc, bounds, 0)
      && RangesIn(doc, bounds) && StartsClean(doc, bounds)
    requires s.0 < s.1 <= |bounds| && TotalEstimate(Parts(doc, bounds[s.0..s.1]), count) <= target
    ensures Hull(bounds, s).0 < Hull(bounds, s).1 <= |doc|
    ensures count(Strip(doc[Hull(bounds, s).0..Hull(bounds, s).1])) <= Tenths(13 * target)
  {
    hide IsSpace, TokenCount, BoundsOk;
    SegmentTokens(doc, bounds, s.0, s.1, isWord);
    var text := doc[Hull(bounds, s).0..Hull(bounds, s).1];
    TrimmingKeepsTokens(text, isWord);
    PackedOvershoot(Parts(doc, bounds[s.0..s.1]), Strip(text), target, count, isWord);
  }

  /** Chunk `k` cites the range of one segment of sentences, and of two or more sentences it
      counts at most thirty per cent more than the target, rounded. */
  lemma SemanticChunkFits(blocks: seq<SourceBlock>, findBreaks: string -> seq<Range>, gaps: seq<real>, cut: real,
                          target: int, count: string -> nat, isWord: char -> bool, k: nat)
    returns (g: nat)
    requires FindsBreaks(findBreaks) && Approximates(count, isWord)
    requires |Sentences(FlatText(Prepare(blocks)), findBreaks)| == |gaps| + 1
    requires var doc, spans := FlatText(Prepare(blocks)), FlatSpans(Prepare(blocks));
      k < |ChunksOf(doc, spans, CutRanges(doc, Sentences(doc, findBreaks), gaps, cut, target, count), count)|
    ensures var doc, spans := FlatText(Prepare(blocks)), FlatSpans(Prepare(blocks));
      var bounds := Sentences(doc, findBreaks);
      var ranges := CutRanges(doc, bounds, gaps, cut, target, count);
      && g < |ranges| && RangeIn(doc, ranges[g])
      && var chunk := ChunksOf(doc, spans, ranges, count)[k];
         var s := SegmentsOf(gaps, CostsOf(Parts(doc, bounds), count), cut, target)[g];
        && Cites(doc, spans, ranges[g], chunk, k, count)
        && (s.1 - s.0 > 1 ==> target >= 0 && chunk.tokenCount <= Tenths(13 * target))
  {
    hide CutRanges, ChunksOf, Flattened, FlatText, FlatSpans, WithText, HasText, BoundsOk, IsSpace,
      Approximates, SegmentsOf, CostsOf, Parts, Sentences, FindsBreaks;
    var doc, spans := FlatText(Prepare(blocks)), FlatSpans(Prepare(blocks));
    var ranges := CutRanges(doc, Sentences(doc, findBreaks), gaps, cut, target, count);
    FlatIsFlattened(Prepare(blocks));
    ChunksCiteRanges(doc, spans, ranges, count);
    g := UsedIsRange(doc, ranges, k);
    SemanticOvershoot(doc, findBreaks, gaps, cut, target, count, isWord, g);
  }
}
