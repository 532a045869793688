/** The sliding windows said outright: where each ends, where the next starts, and which is the last. */
module WindowShape {
  import opened Texts
  import opened Passages
  import opened Ranges
  import opened Chunks
  import opened ChunkShape
  import opened FixedWindows
  import opened Sums

  // ---------------------------------------------------------------- where a window ends

  /** The furthest end the words' own costs allow, at least one word. */
  ghost predicate FirstEnd(t: Text, i: nat, target: int, e: nat)
    requires t.Valid() && i < |t.words|
  {
    && i < e <= |t.words|
    && (e == i + 1 || Sum(t.costs, i, e) <= target)
    && (e == |t.words| || Sum(t.costs, i, e + 1) > target)
  }

  /** A window of `n` words that count `actual` is cut to its share of the target: rounded down,
      but to fewer words than before and to one at least. */
  ghost predicate CutBack(n: nat, n': nat, actual: nat, target: int) {
    && n > 1 && actual > target >= 0
    && var share := n * target / actual;
      n' == if share < 1 then 1 else if share < n then share else n - 1
  }

  /** The ends that are tried, one after another; the last is that of one word, or fits as counted. */
  ghost predicate Ends(t: Text, i: nat, target: int, ends: seq<nat>)
    requires t.Valid() && i < |t.words|
  {
    && ends != [] && (forall m :: 0 <= m < |ends| ==> i < ends[m] <= |t.words|)
    && FirstEnd(t, i, target, ends[0])
    && (forall m :: 1 <= m < |ends| ==>
          CutBack(ends[m - 1] - i, ends[m] - i, t.Actual(i, ends[m - 1]), target))
    && var e := ends[|ends| - 1];
      e == i + 1 || t.Actual(i, e) <= target
  }

  lemma {:induction false} SumGrows(costs: seq<nat>, i: nat, j: nat, k: nat)
    requires i <= j <= k <= |costs|
    ensures Sum(costs, i, j) <= Sum(costs, i, k)
    decreases k
  {
    if j < k {
      SumLast(costs, i, k);
      SumGrows(costs, i, j, k - 1);
    }
  }

  lemma {:induction false} EstimatedIsFurthest(costs: seq<nat>, i: nat, j: nat, target: int)
    requires i <= j <= |costs| && (j == i || Sum(costs, i, j) <= target)
    ensures var e := Estimated(costs, j, Sum(costs, i, j), target);
      && (e == i || Sum(costs, i, e) <= target)
      && (e == |costs| || Sum(costs, i, e + 1) > target)
    decreases |costs| - j
  {
    if j < |costs| {
      SumLast(costs, i, j + 1);
      if Sum(costs, i, j) + costs[j] <= target {
        EstimatedIsFurthest(costs, i, j + 1, target);
      }
    }
  }

  lemma {:induction false} FirstEndIs(t: Text, i: nat, target: int, e: nat)
    requires t.Valid() && i < |t.words|
    ensures var j := Estimated(t.costs, i, 0, target);
      FirstEnd(t, i, target, e) <==> e == if j == i then i + 1 else j
  {
    hide Estimated, Sum;
    var j := Estimated(t.costs, i, 0, target);
    var first := if j == i then i + 1 else j;
    assert Sum(t.costs, i, i) == 0 by { EmptySum(t.costs, i); }
    EstimatedIsFurthest(t.costs, i, i, target);
    if first < |t.words| {
      SumGrows(t.costs, i, j + 1, first + 1);
    }
    assert FirstEnd(t, i, target, first);
    if FirstEnd(t, i, target, e) && e < first {
      SumGrows(t.costs, i, e + 1, first);
    } else if FirstEnd(t, i, target, e) && first < e {
      SumGrows(t.costs, i, first + 1, e);
    }
  }

  lemma EmptySum(costs: seq<nat>, i: nat)
    requires i <= |costs|
    ensures Sum(costs, i, i) == 0
  {
  }

  /** The ends from `j` on. */
  ghost predicate EndsFrom(t: Text, i: nat, j: nat, target: int, ends: seq<nat>)
    requires t.Valid() && i < |t.words|
  {
    && ends != [] && (forall m :: 0 <= m < |ends| ==> i < ends[m] <= |t.words|)
    && ends[0] == j
    && (forall m :: 1 <= m < |ends| ==>
          CutBack(ends[m - 1] - i, ends[m] - i, t.Actual(i, ends[m - 1]), target))
    && var e := ends[|ends| - 1];
      e == i + 1 || t.Actual(i, e) <= target
  }

  lemma {:induction false} ShrunkEnds(t: Text, i: nat, j: nat, target: nat) returns (ends: seq<nat>)
    requires t.Valid() && i < j <= |t.words|
    ensures EndsFrom(t, i, j, target, ends) && ends[|ends| - 1] == Shrunk(t, i, j, target)
    decreases j
  {
    hide WordsOk;
    if j == i + 1 || t.Actual(i, j) <= target {
      ends := [j];
    } else {
      var next := i + ScaledBack(j - i, target, t.Actual(i, j));
      var rest := ShrunkEnds(t, i, next, target);
      ends := [j] + rest;
      assert CutBack(j - i, next - i, t.Actual(i, j), target);
      forall m | 1 <= m < |ends| ensures CutBack(ends[m - 1] - i, ends[m] - i, t.Actual(i, ends[m - 1]), target) {
        assert m > 1 ==> ends[m - 1] == rest[m - 2] && ends[m] == rest[m - 1];
      }
    }
  }

  lemma {:induction false} EndsShrink(t: Text, i: nat, j: nat, target: nat, ends: seq<nat>)
    requires t.Valid() && i < j <= |t.words| && EndsFrom(t, i, j, target, ends)
    ensures ends[|ends| - 1] == Shrunk(t, i, j, target)
    decreases |ends|
  {
    hide WordsOk;
    if |ends| > 1 {
      assert CutBack(ends[0] - i, ends[1] - i, t.Actual(i, ends[0]), target);
      var rest := ends[1..];
      forall m | 1 <= m < |rest| ensures CutBack(rest[m - 1] - i, rest[m] - i, t.Actual(i, rest[m - 1]), target) {
        assert rest[m - 1] == ends[m] && rest[m] == ends[m + 1];
      }
      EndsShrink(t, i, ends[1], target, rest);
    }
  }

  ghost predicate EndsAt(t: Text, i: nat, target: int, e: nat)
    requires t.Valid() && i < |t.words|
  {
    exists ends :: Ends(t, i, target, ends) && ends[|ends| - 1] == e
  }

  /** A window ends where the tries end. */
  lemma {:induction false} WindowEndIff(t: Text, i: nat, target: int, e: nat)
    requires t.Valid() && i < |t.words|
    ensures EndsAt(t, i, target, e) <==> e == WindowEnd(t, i, target)
  {
    hide FirstEnd, Shrunk, CutBack, WordsOk;
    var j := Estimated(t.costs, i, 0, target);
    EstimateNeedsBudget(t.costs, i, target);
    var first := if j == i then i + 1 else j;
    FirstEndIs(t, i, target, first);
    if j > i {
      var ends := ShrunkEnds(t, i, j, target);
      assert Ends(t, i, target, ends);
    } else {
      assert Ends(t, i, target, [i + 1]);
    }
    if ends :| Ends(t, i, target, ends) && ends[|ends| - 1] == e {
      FirstEndIs(t, i, target, ends[0]);
      if j > i {
        EndsShrink(t, i, j, target, ends);
      } else {
        if |ends| > 1 {
          OneWordEnds(t, i, target, ends, 0);
        }
      }
    }
  }

  /** Only the last of the ends can be that of one word. */
  lemma {:induction false} OneWordEnds(t: Text, i: nat, target: int, ends: seq<nat>, m: nat)
    requires t.Valid() && i < |t.words| && Ends(t, i, target, ends) && m + 1 < |ends|
    ensures ends[m] > i + 1
  {
    assert CutBack(ends[m] - i, ends[m + 1] - i, t.Actual(i, ends[m]), target);
  }

  // ---------------------------------------------------------------- all windows

  /** The first window starts at word `i`; each ends where the tries end; the next starts as far
      back from there as the overlap allows, past the start of the last; one that ends with the
      last word is the last. */
  ghost predicate AreWindows(t: Text, i: nat, target: int, overlap: int, windows: seq<(nat, nat)>)
    requires t.Valid()
  {
    && windows != [] && windows[0].0 == i
    && (forall k :: 0 <= k < |windows| ==>
          windows[k].0 < |t.words| && EndsAt(t, windows[k].0, target, windows[k].1))
    && (forall k :: 0 <= k < |windows| - 1 ==> OverlapOk(t.costs, windows[k], windows[k + 1], overlap))
    && (forall k :: 0 <= k < |windows| ==> (windows[k].1 == |t.words| <==> k == |windows| - 1))
  }

  lemma {:induction false} WindowsEnd(t: Text, i: nat, target: int, overlap: int, k: nat)
    requires t.Valid() && i < |t.words| && k < |Windows(t, i, target, overlap)|
    ensures var windows := Windows(t, i, target, overlap);
      && windows[k].0 < |t.words| && windows[k].1 == WindowEnd(t, windows[k].0, target)
      && (windows[k].1 == |t.words| <==> k == |windows| - 1)
    decreases k
  {
    hide WindowEnd, StepBack, WordsOk;
    var j := WindowEnd(t, i, target);
    if j < |t.words| {
      var s := StepBack(t.costs, i, j, 0, overlap);
      assert Windows(t, i, target, overlap) == [(i, j)] + Windows(t, s, target, overlap);
      WindowsSlide(t, s, target, overlap);
      if k > 0 {
        WindowsEnd(t, s, target, overlap, k - 1);
      }
    }
  }

  lemma {:induction false} NextIs(costs: seq<nat>, w: (nat, nat), next: (nat, nat), overlap: int)
    requires w.0 < w.1 <= |costs| && OverlapOk(costs, w, next, overlap)
    ensures next.0 == StepBack(costs, w.0, w.1, 0, overlap)
  {
    hide Sum;
    var s := StepBack(costs, w.0, w.1, 0, overlap);
    FirstOverlap(costs, w.0, w.1, overlap, next.1);
    if s < next.0 {
      TailsGrow(costs, s, next.0 - 1, w.1);
    } else if next.0 < s {
      TailsGrow(costs, next.0, s - 1, w.1);
    }
  }

  lemma {:induction false} TailsGrow(costs: seq<nat>, i: nat, j: nat, past: nat)
    requires i <= j <= past <= |costs|
    ensures Sum(costs, i, past) >= Sum(costs, j, past)
    decreases j - i
  {
    if i < j {
      TailsGrow(costs, i + 1, j, past);
    }
  }

  lemma {:induction false} OnlyWindows(t: Text, i: nat, target: int, overlap: int, windows: seq<(nat, nat)>)
    requires t.Valid() && i < |t.words| && AreWindows(t, i, target, overlap, windows)
    ensures windows == Windows(t, i, target, overlap)
    decreases |windows|
  {
    hide WindowEnd, StepBack, WordsOk, EndsAt, OverlapOk, Windows;
    var (_, j) := windows[0];
    WindowEndIff(t, i, target, j);
    WindowsOne(t, i, target, overlap);
    var rest := windows[1..];
    if rest != [] {
      NextIs(t.costs, windows[0], windows[1], overlap);
      forall k | 0 <= k < |rest| ensures rest[k] == windows[k + 1] && EndsAt(t, rest[k].0, target, rest[k].1) {
        assert EndsAt(t, windows[k + 1].0, target, windows[k + 1].1);
      }
      OnlyWindows(t, windows[1].0, target, overlap, rest);
      assert windows == [windows[0]] + rest;
    }
  }

  lemma WindowsOne(t: Text, i: nat, target: int, overlap: int)
    requires t.Valid() && i < |t.words|
    ensures var j := WindowEnd(t, i, target);
      Windows(t, i, target, overlap)
      == [(i, j)] + if j == |t.words| then [] else Windows(t, StepBack(t.costs, i, j, 0, overlap), target, overlap)
  {
  }

  /** This says what the windows are. */
  lemma {:induction false} WindowsIff(t: Text, i: nat, target: int, overlap: int, windows: seq<(nat, nat)>)
    requires t.Valid() && i < |t.words|
    ensures AreWindows(t, i, target, overlap, windows) <==> windows == Windows(t, i, target, overlap)
  {
    hide WindowEnd, StepBack, WordsOk, EndsAt, OverlapOk, Windows;
    var all := Windows(t, i, target, overlap);
    WindowsSlide(t, i, target, overlap);
    forall k | 0 <= k < |all|
      ensures all[k].0 < |t.words| && EndsAt(t, all[k].0, target, all[k].1)
      ensures all[k].1 == |t.words| <==> k == |all| - 1
    {
      WindowsEnd(t, i, target, overlap, k);
      WindowEndIff(t, all[k].0, target, all[k].1);
    }
    forall k | 0 <= k < |all| - 1 ensures OverlapOk(t.costs, all[k], all[k + 1], overlap) {
      OverlapIsBounded(t, i, target, overlap, k);
    }
    if AreWindows(t, i, target, overlap, windows) {
      OnlyWindows(t, i, target, overlap, windows);
    }
  }

  // ---------------------------------------------------------------- what comes back

  /** The stretch of text from the first word of each window to its last. */
  ghost predicate AreStretches(t: Text, windows: seq<(nat, nat)>, ranges: seq<Range>) {
    |ranges| == |windows| && forall k :: 0 <= k < |ranges| ==> IsStretch(t, windows[k], ranges[k])
  }

  ghost predicate IsStretch(t: Text, w: (nat, nat), r: Range) {
    w.0 < w.1 <= |t.words| && r == (t.words[w.0].0, t.words[w.1 - 1].1)
  }

  ghost predicate WindowChunksOf(t: Text, spans: seq<Span>, target: int, overlap: int, chunks: seq<Chunk>,
                                 windows: seq<(nat, nat)>, ranges: seq<Range>)
    requires t.Valid()
  {
    && AreWindows(t, 0, target, overlap, windows) && AreStretches(t, windows, ranges)
    && RangesIn(t.doc, ranges) && AreChunks(t.doc, spans, ranges, t.count, chunks)
  }

  lemma CostsAre(doc: string, count: string -> nat)
    ensures var t := Cut(doc, count);
      forall k :: 0 <= k < |t.words| ==>
        t.words[k].0 <= t.words[k].1 <= |doc| && t.costs[k] == count(doc[t.words[k].0..t.words[k].1])
  {
    hide IsSpace;
    WordsAreOk(doc, 0);
  }

  /** What the strategy returns: nothing for a text without words, otherwise the chunks of its windows. */
  lemma FixedReturns(blocks: seq<SourceBlock>, target: int, overlap: int, count: string -> nat)
    ensures var t, spans := Cut(FlatText(Prepare(blocks)), count), FlatSpans(Prepare(blocks));
      var chunks := FixedChunks(blocks, target, overlap, count);
      && (forall k :: 0 <= k < |t.words| ==> t.words[k].0 <= t.words[k].1 <= |t.doc|
                                             && t.costs[k] == count(t.doc[t.words[k].0..t.words[k].1]))
      && if t.words == [] then chunks == []
         else exists windows, ranges :: WindowChunksOf(t, spans, target, overlap, chunks, windows, ranges)
  {
    var prepared := Prepare(blocks);
    var t, spans := Cut(FlatText(prepared), count), FlatSpans(prepared);
    FlatIsFlattened(prepared);
    CostsAre(t.doc, count);
    hide Flattened, AreWindows, AreChunks, ChunksOf, Windows, Prepare, FlatText, FlatSpans, Words, WordsOk;
    if t.words == [] {
      NoChunks(t.doc, spans, count);
    } else {
      var windows := Windows(t, 0, target, overlap);
      WindowsSlide(t, 0, target, overlap);
      WindowsIff(t, 0, target, overlap, windows);
      var ranges := RangesAt(t, 0, target, overlap);
      ChunksAre(t.doc, spans, ranges, count);
      assert WindowChunksOf(t, spans, target, overlap, FixedChunks(blocks, target, overlap, count), windows, ranges);
    }
  }
}
