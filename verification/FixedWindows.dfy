/** Sliding token windows over the words of a document. */
module FixedWindows {
  import opened Texts
  import opened Passages
  import opened Ranges
  import opened Sums
  import opened Chunks

  // ---------------------------------------------------------------- words

  function SkipSpace(doc: string, i: nat): (r: nat)
    requires i <= |doc|
    ensures i <= r <= |doc| && (forall p :: i <= p < r ==> IsSpace(doc[p])) && (r < |doc| ==> !IsSpace(doc[r]))
    decreases |doc| - i
  {
    if i == |doc| || !IsSpace(doc[i]) then i else SkipSpace(doc, i + 1)
  }

  function SkipWord(doc: string, i: nat): (r: nat)
    requires i <= |doc|
    ensures i <= r <= |doc| && (forall p :: i <= p < r ==> !IsSpace(doc[p])) && (r < |doc| ==> IsSpace(doc[r]))
    decreases |doc| - i
  {
    if i == |doc| || IsSpace(doc[i]) then i else SkipWord(doc, i + 1)
  }

  /** The maximal runs without whitespace. */
  function Words(doc: string, i: nat): seq<Range>
    requires i <= |doc|
    decreases |doc| - i
  {
    var start := SkipSpace(doc, i);
    if start == |doc| then []
    else
      var end := SkipWord(doc, start);
      [(start, end)] + Words(doc, end)
  }

  /** Words are solid, in order, and leave nothing but whitespace out. */
  ghost predicate WordsOk(doc: string, words: seq<Range>) {
    && (forall k :: 0 <= k < |words| ==> words[k].0 < words[k].1 <= |doc|
                                         && !IsSpace(doc[words[k].0]) && !IsSpace(doc[words[k].1 - 1]))
    && (forall j, k :: 0 <= j < k < |words| ==> words[j].1 <= words[k].0)
  }

  lemma {:induction false} WordsAreOk(doc: string, i: nat)
    requires i <= |doc|
    ensures WordsOk(doc, Words(doc, i)) && forall k :: 0 <= k < |Words(doc, i)| ==> i <= Words(doc, i)[k].0
    decreases |doc| - i
  {
    hide IsSpace;
    var start := SkipSpace(doc, i);
    if start < |doc| {
      var end := SkipWord(doc, start);
      WordsAreOk(doc, end);
      WordBefore(doc, start, end, Words(doc, end));
    }
  }

  lemma WordBefore(doc: string, start: nat, end: nat, words: seq<Range>)
    requires start < end <= |doc| && !IsSpace(doc[start]) && !IsSpace(doc[end - 1])
    requires WordsOk(doc, words) && forall k :: 0 <= k < |words| ==> end <= words[k].0
    ensures WordsOk(doc, [(start, end)] + words)
  {
    hide IsSpace;
  }

  lemma {:induction false} WordAt(doc: string, i: nat, p: nat) returns (k: nat)
    requires i <= p < |doc| && !IsSpace(doc[p])
    ensures k < |Words(doc, i)| && Words(doc, i)[k].0 <= p < Words(doc, i)[k].1
    decreases |doc| - i
  {
    hide IsSpace;
    var start := SkipSpace(doc, i);
    var end := SkipWord(doc, start);
    if p < end {
      k := 0;
    } else {
      k := WordAt(doc, end, p);
      k := k + 1;
    }
  }

  function Costs(doc: string, words: seq<Range>, count: string -> nat): (r: seq<nat>)
    requires RangesIn(doc, words)
    ensures |r| == |words|
  {
    seq(|words|, k requires 0 <= k < |words| => count(doc[words[k].0..words[k].1]))
  }

  // ---------------------------------------------------------------- one window

  /** A document cut into words, with what each word costs alone. */
  datatype Text = Text(doc: string, words: seq<Range>, costs: seq<nat>, count: string -> nat) {
    ghost predicate Valid() {
      |costs| == |words| && WordsOk(doc, words)
    }

    /** Words `i` to `j - 1`, as they stand in the document. */
    function Reach(i: nat, j: nat): Range
      requires i < j <= |words|
    {
      (words[i].0, words[j - 1].1)
    }

    function Actual(i: nat, j: nat): nat
      requires Valid() && i < j <= |words|
    {
      count(doc[words[i].0..words[j - 1].1])
    }
  }

  /** How far words fit by the sum of their own costs. */
  function Estimated(costs: seq<nat>, j: nat, spent: nat, target: int): (r: nat)
    requires j <= |costs|
    ensures j <= r <= |costs|
    decreases |costs| - j
  {
    if j < |costs| && spent + costs[j] <= target then Estimated(costs, j + 1, spent + costs[j], target) else j
  }

  /** A span scaled back in proportion, at least to one word and by at least one. */
  function ScaledBack(span: nat, target: nat, actual: nat): (r: nat)
    requires span > 1 && actual > 0
    ensures 0 < r < span
  {
    var scaled := if span * target / actual > 1 then span * target / actual else 1;
    if scaled < span then scaled else span - 1
  }

  /** Scales a window back until it fits by the real count, or is one word. */
  function Shrunk(t: Text, i: nat, j: nat, target: nat): (r: nat)
    requires t.Valid() && i < j <= |t.words|
    ensures i < r <= j
    decreases j - i
  {
    if j == i + 1 || t.Actual(i, j) <= target then j
    else Shrunk(t, i, i + ScaledBack(j - i, target, t.Actual(i, j)), target)
  }

  function WindowEnd(t: Text, i: nat, target: int): (j: nat)
    requires t.Valid() && i < |t.words|
    ensures i < j <= |t.words|
  {
    var j := Estimated(t.costs, i, 0, target);
    if j == i then i + 1
    else
      EstimateNeedsBudget(t.costs, i, target);
      Shrunk(t, i, j, target)
  }

  lemma {:induction false} EstimateNeedsBudget(costs: seq<nat>, i: nat, target: int)
    requires i < |costs|
    ensures Estimated(costs, i, 0, target) > i ==> target >= 0
  {
  }

  method FitWindow(t: Text, i: nat, target: int) returns (j: nat)
    requires t.Valid() && i < |t.words|
    ensures j == WindowEnd(t, i, target)
  {
    var spent: nat := 0;
    j := i;
    while j < |t.words| && spent + t.costs[j] <= target
      invariant i <= j <= |t.words| && Estimated(t.costs, i, 0, target) == Estimated(t.costs, j, spent, target)
    {
      spent := spent + t.costs[j];
      j := j + 1;
    }
    if j == i {
      return i + 1;
    }
    EstimateNeedsBudget(t.costs, i, target);
    j := ScaleBack(t, i, j, target);
  }

  method ScaleBack(t: Text, i: nat, from: nat, target: nat) returns (j: nat)
    requires t.Valid() && i < from <= |t.words|
    ensures j == Shrunk(t, i, from, target)
  {
    hide WordsOk;
    j := from;
    while j > i + 1
      invariant i < j <= from && Shrunk(t, i, j, target) == Shrunk(t, i, from, target)
      decreases j
    {
      var actual := t.Actual(i, j);
      if actual <= target {
        break;
      }
      j := i + ScaledBack(j - i, target, actual);
    }
  }

  /** Every window fits by the real count, or is a single word. */
  lemma {:induction false} ShrunkFits(t: Text, i: nat, j: nat, target: nat)
    requires t.Valid() && i < j <= |t.words|
    ensures Shrunk(t, i, j, target) == i + 1 || t.Actual(i, Shrunk(t, i, j, target)) <= target
    decreases j - i
  {
    hide WordsOk;
    if j > i + 1 && t.Actual(i, j) > target {
      ShrunkFits(t, i, i + ScaledBack(j - i, target, t.Actual(i, j)), target);
    }
  }

  lemma WindowFits(t: Text, i: nat, target: int)
    requires t.Valid() && i < |t.words|
    ensures WindowEnd(t, i, target) == i + 1 || t.Actual(i, WindowEnd(t, i, target)) <= target
  {
    EstimateNeedsBudget(t.costs, i, target);
    if Estimated(t.costs, i, 0, target) > i {
      ShrunkFits(t, i, Estimated(t.costs, i, 0, target), target);
    }
  }

  // ---------------------------------------------------------------- the sliding

  /** Steps back over words that fit the overlap together, but not to the window's first. */
  function StepBack(costs: seq<nat>, i: nat, k: nat, back: nat, overlap: int): (r: nat)
    requires i < k <= |costs|
    ensures i < r <= k
    decreases k
  {
    if k > i + 1 && back + costs[k - 1] <= overlap then StepBack(costs, i, k - 1, back + costs[k - 1], overlap) else k
  }

  /** The windows from word `i` on, as pairs of first word and the word past the last. */
  function Windows(t: Text, i: nat, target: int, overlap: int): seq<(nat, nat)>
    requires t.Valid() && i < |t.words|
    decreases |t.words| - i
  {
    var j := WindowEnd(t, i, target);
    [(i, j)] + if j == |t.words| then [] else Windows(t, StepBack(t.costs, i, j, 0, overlap), target, overlap)
  }

  function Reaches(t: Text, windows: seq<(nat, nat)>): (r: seq<Range>)
    requires forall k :: 0 <= k < |windows| ==> windows[k].0 < windows[k].1 <= |t.words|
    ensures |r| == |windows| && forall k :: 0 <= k < |r| ==> r[k] == t.Reach(windows[k].0, windows[k].1)
  {
    seq(|windows|, k requires 0 <= k < |windows| => t.Reach(windows[k].0, windows[k].1))
  }

  /** What the windows of a text promise: they start further and further on, leave no word
      between them uncovered, begin with the first word and end with the last. */
  ghost predicate Slides(t: Text, from: nat, windows: seq<(nat, nat)>) {
    && windows != [] && windows[0].0 == from && windows[|windows| - 1].1 == |t.words|
    && (forall k :: 0 <= k < |windows| ==> windows[k].0 < windows[k].1 <= |t.words|)
    && (forall k :: 0 < k < |windows| ==> windows[k - 1].0 < windows[k].0 <= windows[k - 1].1)
  }

  lemma {:induction false} WindowsSlide(t: Text, i: nat, target: int, overlap: int)
    requires t.Valid() && i < |t.words|
    ensures Slides(t, i, Windows(t, i, target, overlap))
    decreases |t.words| - i
  {
    var j := WindowEnd(t, i, target);
    if j < |t.words| {
      WindowsSlide(t, StepBack(t.costs, i, j, 0, overlap), target, overlap);
    }
  }

  /** Each window fits the target by the real counter, or is a single word. */
  lemma {:induction false} WindowsFit(t: Text, i: nat, target: int, overlap: int, k: nat)
    requires t.Valid() && i < |t.words| && k < |Windows(t, i, target, overlap)|
    ensures var w := Windows(t, i, target, overlap)[k];
      w.0 < w.1 <= |t.words| && (w.1 == w.0 + 1 || t.Actual(w.0, w.1) <= target)
    decreases k
  {
    WindowFits(t, i, target);
    if k > 0 {
      WindowsFit(t, StepBack(t.costs, i, WindowEnd(t, i, target), 0, overlap), target, overlap, k - 1);
    }
  }

  lemma {:induction false} StepBackSums(costs: seq<nat>, i: nat, k: nat, end: nat, overlap: int)
    requires i < k <= end <= |costs| && (k == end || Sum(costs, k, end) <= overlap)
    ensures var s := StepBack(costs, i, k, Sum(costs, k, end), overlap);
      && (s == end || Sum(costs, s, end) <= overlap)
      && (s == i + 1 || Sum(costs, s - 1, end) > overlap)
    decreases k
  {
    if k > i + 1 && Sum(costs, k, end) + costs[k - 1] <= overlap {
      StepBackSums(costs, i, k - 1, end, overlap);
    }
  }

  /** Words shared by two windows cost at most the overlap, and one word more would not. */
  ghost predicate OverlapOk(costs: seq<nat>, w: (nat, nat), next: (nat, nat), overlap: int) {
    && w.0 < next.0 <= w.1 <= |costs|
    && (next.0 == w.1 || Sum(costs, next.0, w.1) <= overlap)
    && (next.0 == w.0 + 1 || Sum(costs, next.0 - 1, w.1) > overlap)
  }

  lemma {:induction false} OverlapIsBounded(t: Text, i: nat, target: int, overlap: int, k: nat)
    requires t.Valid() && i < |t.words| && k + 1 < |Windows(t, i, target, overlap)|
    ensures OverlapOk(t.costs, Windows(t, i, target, overlap)[k], Windows(t, i, target, overlap)[k + 1], overlap)
    decreases k
  {
    hide WindowEnd, StepBack, Sum, OverlapOk;
    var j := WindowEnd(t, i, target);
    var s := StepBack(t.costs, i, j, 0, overlap);
    assert Windows(t, i, target, overlap) == [(i, j)] + Windows(t, s, target, overlap);
    if k == 0 {
      FirstOverlap(t.costs, i, j, overlap, Windows(t, s, target, overlap)[0].1);
    } else {
      OverlapIsBounded(t, s, target, overlap, k - 1);
    }
  }

  lemma {:induction false} FirstOverlap(costs: seq<nat>, i: nat, j: nat, overlap: int, end: nat)
    requires i < j <= |costs|
    ensures OverlapOk(costs, (i, j), (StepBack(costs, i, j, 0, overlap), end), overlap)
  {
    StepBackSums(costs, i, j, j, overlap);
  }

  lemma {:induction false} WindowWith(t: Text, i: nat, windows: seq<(nat, nat)>, word: nat) returns (k: nat)
    requires Slides(t, i, windows) && i <= word < |t.words|
    ensures k < |windows| && windows[k].0 <= word < windows[k].1
    decreases |windows|
  {
    if word < windows[0].1 {
      k := 0;
    } else {
      assert windows[1..] != [] && Slides(t, windows[1].0, windows[1..]);
      k := WindowWith(t, windows[1].0, windows[1..], word);
      k := k + 1;
    }
  }

  // ---------------------------------------------------------------- the chunker

  function Cut(doc: string, count: string -> nat): (t: Text)
    ensures t.Valid() && t.doc == doc && t.words == Words(doc, 0) && t.count == count
  {
    WordsAreOk(doc, 0);
    Text(doc, Words(doc, 0), Costs(doc, Words(doc, 0), count), count)
  }

  /** The ranges of the document that become chunks. */
  function FixedRanges(t: Text, target: int, overlap: int): (r: seq<Range>)
    requires t.Valid()
    ensures RangesIn(t.doc, r)
  {
    if t.words == [] then [] else RangesAt(t, 0, target, overlap)
  }

  /** The ranges of the windows from word `i` on. */
  function RangesAt(t: Text, i: nat, target: int, overlap: int): (r: seq<Range>)
    requires t.Valid() && i < |t.words|
    ensures RangesIn(t.doc, r)
  {
    WindowsSlide(t, i, target, overlap);
    ReachesAreIn(t, Windows(t, i, target, overlap));
    Reaches(t, Windows(t, i, target, overlap))
  }

  lemma ReachesAreIn(t: Text, windows: seq<(nat, nat)>)
    requires t.Valid() && forall k :: 0 <= k < |windows| ==> windows[k].0 < windows[k].1 <= |t.words|
    ensures RangesIn(t.doc, Reaches(t, windows))
  {
    forall k | 0 <= k < |windows| ensures RangeIn(t.doc, t.Reach(windows[k].0, windows[k].1)) {
      ReachIsIn(t, windows[k].0, windows[k].1);
    }
  }

  function FixedChunks(blocks: seq<SourceBlock>, target: int, overlap: int, count: string -> nat): seq<Chunk> {
    var prepared := Prepare(blocks);
    var t := Cut(FlatText(prepared), count);
    ChunksOf(t.doc, FlatSpans(prepared), FixedRanges(t, target, overlap), count)
  }

  lemma ReachesOneMore(t: Text, w: (nat, nat), rest: seq<(nat, nat)>)
    requires w.0 < w.1 <= |t.words| && forall k :: 0 <= k < |rest| ==> rest[k].0 < rest[k].1 <= |t.words|
    ensures Reaches(t, [w] + rest) == [t.Reach(w.0, w.1)] + Reaches(t, rest)
  {
  }

  /** The first window, then the windows after the step back. */
  lemma {:induction false} RangesFrom(t: Text, i: nat, target: int, overlap: int)
    requires t.Valid() && i < |t.words|
    ensures var j := WindowEnd(t, i, target);
      RangesAt(t, i, target, overlap)
      == [t.Reach(i, j)]
         + if j == |t.words| then [] else RangesAt(t, StepBack(t.costs, i, j, 0, overlap), target, overlap)
  {
    hide StepBack, WindowEnd;
    WindowsSlide(t, i, target, overlap);
    var j := WindowEnd(t, i, target);
    if j < |t.words| {
      var next := StepBack(t.costs, i, j, 0, overlap);
      WindowsSlide(t, next, target, overlap);
      ReachesOneMore(t, (i, j), Windows(t, next, target, overlap));
    }
  }

  method WalkBack(costs: seq<nat>, i: nat, j: nat, overlap: int) returns (k: nat)
    requires i < j <= |costs|
    ensures k == StepBack(costs, i, j, 0, overlap)
  {
    var back: nat := 0;
    k := j;
    while k > i + 1 && back + costs[k - 1] <= overlap
      invariant i < k <= j && StepBack(costs, i, k, back, overlap) == StepBack(costs, i, j, 0, overlap)
    {
      k := k - 1;
      back := back + costs[k];
    }
  }

  method Slide(t: Text, spans: seq<Span>, target: int, overlap: int) returns (chunks: seq<Chunk>)
    requires t.Valid() && t.words != []
    ensures chunks == ChunksOf(t.doc, spans, RangesAt(t, 0, target, overlap), t.count)
  {
    hide RangesAt, WindowEnd, StepBack, ChunksOf, WordsOk;
    var i := 0;
    ghost var all, done: seq<Range> := RangesAt(t, 0, target, overlap), [];
    chunks := [];
    NoChunks(t.doc, spans, t.count);
    while i < |t.words|
      invariant i < |t.words| && all == done + RangesAt(t, i, target, overlap)
      invariant RangesIn(t.doc, done) && chunks == ChunksOf(t.doc, spans, done, t.count)
      decreases |t.words| - i
    {
      var j := FitWindow(t, i, target);
      var r := t.Reach(i, j);
      RangesFrom(t, i, target, overlap);
      ReachIsIn(t, i, j);
      chunks := Append(t.doc, spans, done, r, t.count, chunks);
      if j >= |t.words| {
        assert all == done + [r];
        return;
      }
      i := WalkBack(t.costs, i, j, overlap);
      MoveBracket(done, r, RangesAt(t, i, target, overlap));
      done := done + [r];
    }
  }

  lemma MoveBracket(a: seq<Range>, r: Range, b: seq<Range>)
    ensures a + ([r] + b) == a + [r] + b
  {
  }

  method ChunkFixed(blocks: seq<SourceBlock>, target: int, overlap: int,
                    count: string -> nat) returns (chunks: seq<Chunk>)
    ensures chunks == FixedChunks(blocks, target, overlap, count)
  {
    hide RangesAt, ChunksOf;
    var doc, spans := Flatten(Prepare(blocks));
    var t := Cut(doc, count);
    if t.words == [] {
      NoChunks(doc, spans, count);
      return [];
    }
    chunks := Slide(t, spans, target, overlap);
  }

  lemma {:induction false} NoChunks(doc: string, spans: seq<Span>, count: string -> nat)
    ensures ChunksOf(doc, spans, [], count) == []
  {
  }

  lemma ReachIsIn(t: Text, i: nat, j: nat)
    requires t.Valid() && i < j <= |t.words|
    ensures RangeIn(t.doc, t.Reach(i, j)) && t.Reach(i, j).0 < t.Reach(i, j).1
  {
    assert i < j - 1 ==> t.words[i].1 <= t.words[j - 1].0;
  }

  // ---------------------------------------------------------------- what the chunks promise

  /** No text is left out of the windows. */
  lemma WindowsCoverText(doc: string, count: string -> nat, target: int, overlap: int)
    ensures CoversText(doc, FixedRanges(Cut(doc, count), target, overlap))
  {
    hide Windows, IsSpace, WordsOk;
    var t := Cut(doc, count);
    forall p | 0 <= p < |doc| && !IsSpace(doc[p]) ensures InSome(FixedRanges(t, target, overlap), p) {
      var word := WordAt(doc, 0, p);
      var windows := Windows(t, 0, target, overlap);
      WindowsSlide(t, 0, target, overlap);
      var k := WindowWith(t, 0, windows, word);
      WordInReach(t, windows[k].0, word, windows[k].1);
      assert Reaches(t, windows)[k].0 <= p < Reaches(t, windows)[k].1;
    }
  }

  lemma WordInReach(t: Text, i: nat, word: nat, j: nat)
    requires t.Valid() && i <= word < j <= |t.words|
    ensures t.Reach(i, j).0 <= t.words[word].0 && t.words[word].1 <= t.Reach(i, j).1
  {
    hide IsSpace;
    assert i < word ==> t.words[i].1 <= t.words[word].0;
    assert word < j - 1 ==> t.words[word].1 <= t.words[j - 1].0;
  }

  /** A window's text begins and ends with a word, so trimming leaves it as it is. */
  lemma ReachIsTrimmed(t: Text, i: nat, j: nat)
    requires t.Valid() && i < j <= |t.words|
    ensures RangeIn(t.doc, t.Reach(i, j)) && HasText(t.doc, t.Reach(i, j))
    ensures var r := t.Reach(i, j);
      Strip(t.doc[r.0..r.1]) == t.doc[r.0..r.1]
  {
    hide IsSpace;
    ReachIsIn(t, i, j);
    var r := t.Reach(i, j);
    var part := t.doc[r.0..r.1];
    assert part[0] == t.doc[r.0] && part[|part| - 1] == t.doc[r.1 - 1];
    SolidStrips(part);
  }

  lemma {:induction false} AllWithText(doc: string, ranges: seq<Range>)
    requires RangesIn(doc, ranges) && forall k :: 0 <= k < |ranges| ==> HasText(doc, ranges[k])
    ensures WithText(doc, ranges) == ranges
  {
    hide HasText;
    if ranges != [] {
      AllWithText(doc, ranges[..|ranges| - 1]);
    }
  }

  /** Chunk `k` is window `k`: its words exactly as they stand, naming exactly the blocks they
      overlap, and counting at most the target unless the window is a single word. */
  lemma {:induction false} FixedChunkIsWindow(blocks: seq<SourceBlock>, target: int, overlap: int,
                                              count: string -> nat, k: nat)
    requires k < |FixedChunks(blocks, target, overlap, count)|
    ensures var spans, t := FlatSpans(Prepare(blocks)), Cut(FlatText(Prepare(blocks)), count);
      var chunks := FixedChunks(blocks, target, overlap, count);
      && t.words != []
      && var windows := Windows(t, 0, target, overlap);
        && |chunks| == |windows|
        && WindowChunk(t, spans, windows[k], chunks[k], k)
        && (chunks[k].tokenCount <= target || windows[k].1 == windows[k].0 + 1)
  {
    hide Windows, ChunksOf, Flattened, Assemble, InRange, FlatText, FlatSpans;
    var spans, t := FlatSpans(Prepare(blocks)), Cut(FlatText(Prepare(blocks)), count);
    FlatIsFlattened(Prepare(blocks));
    if t.words == [] {
      NoChunks(t.doc, spans, count);
    } else {
      WindowsSlide(t, 0, target, overlap);
      WindowChunks(t, spans, Windows(t, 0, target, overlap));
      WindowsFit(t, 0, target, overlap, k);
    }
  }

  /** A chunk per window, each with its window's own text. */
  lemma {:induction false} WindowChunks(t: Text, spans: seq<Span>, windows: seq<(nat, nat)>)
    requires t.Valid() && Flattened(t.doc, spans)
      && forall k :: 0 <= k < |windows| ==> windows[k].0 < windows[k].1 <= |t.words|
    ensures RangesIn(t.doc, Reaches(t, windows))
    ensures var chunks := ChunksOf(t.doc, spans, Reaches(t, windows), t.count);
      && |chunks| == |windows|
      && forall k :: 0 <= k < |windows| ==> WindowChunk(t, spans, windows[k], chunks[k], k)
  {
    hide Flattened, HasText, ChunksOf, Cites, WindowChunk;
    var ranges := Reaches(t, windows);
    ReachesAreIn(t, windows);
    forall k | 0 <= k < |windows| ensures HasText(t.doc, ranges[k]) {
      ReachIsTrimmed(t, windows[k].0, windows[k].1);
    }
    AllWithText(t.doc, ranges);
    ChunksCiteRanges(t.doc, spans, ranges, t.count);
    var chunks := ChunksOf(t.doc, spans, ranges, t.count);
    forall k | 0 <= k < |windows| ensures WindowChunk(t, spans, windows[k], chunks[k], k) {
      assert Cites(t.doc, spans, ranges[k], chunks[k], k, t.count);
      CitedWindow(t, spans, windows[k], chunks[k], k);
    }
  }

  ghost predicate WindowChunk(t: Text, spans: seq<Span>, w: (nat, nat), c: Chunk, k: nat) {
    && w.0 < w.1 <= |t.words|
    && var r := t.Reach(w.0, w.1);
      && r.0 <= r.1 <= |t.doc|
      && c.seqNo == k && c.text == t.doc[r.0..r.1] && c.tokenCount == t.count(c.text)
      && c.blockIds == Ids(InRange(spans, r.0, r.1))
  }

  lemma CitedWindow(t: Text, spans: seq<Span>, w: (nat, nat), c: Chunk, k: nat)
    requires t.Valid() && w.0 < w.1 <= |t.words| && RangeIn(t.doc, t.Reach(w.0, w.1))
    requires Cites(t.doc, spans, t.Reach(w.0, w.1), c, k, t.count)
    ensures WindowChunk(t, spans, w, c, k)
  {
    ReachIsTrimmed(t, w.0, w.1);
  }

  /** Every prepared block is named by some chunk. */
  lemma FixedCitesEveryBlock(blocks: seq<SourceBlock>, target: int, overlap: int, count: string -> nat, b: SourceBlock)
    returns (k: nat)
    requires b in Prepare(blocks)
    ensures k < |FixedChunks(blocks, target, overlap, count)|
    ensures b.id in FixedChunks(blocks, target, overlap, count)[k].blockIds
  {
    hide Flattened, FixedRanges, Cut, Prepare, FlatText, FlatSpans, ChunksOf;
    var prepared := Prepare(blocks);
    var doc, spans := FlatText(prepared), FlatSpans(prepared);
    FlatIsFlattened(prepared);
    PreparedIsTexted(blocks);
    SpansOfTexted(prepared);
    var i :| 0 <= i < |prepared| && prepared[i] == b;
    assert BlocksOf(spans)[i] == b;
    WindowsCoverText(doc, count, target, overlap);
    k := EveryBlockIsCited(doc, spans, FixedRanges(Cut(doc, count), target, overlap), count, i);
  }
}
