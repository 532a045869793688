/** Packing the pieces of the descent greedily into chunks near the target. */
module RecursiveChunks {
  import opened Wrappers
  import opened Texts
  import opened Tokens
  import opened Rounding
  import opened Passages
  import opened Ranges
  import opened Chunks
  import opened RecursiveSplit

  // ---------------------------------------------------------------- packing

  /** Sum of what the pieces cost one by one. */
  function Spent(doc: string, pieces: seq<Range>, count: string -> nat): nat
    requires RangesIn(doc, pieces)
  {
    TotalEstimate(Parts(doc, pieces), count)
  }

  lemma SpentOneMore(doc: string, pieces: seq<Range>, p: Range, count: string -> nat)
    requires RangesIn(doc, pieces) && RangeIn(doc, p)
    ensures RangesIn(doc, pieces + [p])
      && Spent(doc, pieces + [p], count) == Spent(doc, pieces, count) + count(doc[p.0..p.1])
  {
    assert Parts(doc, pieces + [p])[..|pieces|] == Parts(doc, pieces);
  }

  /** Pieces go together while their costs sum to at most the target. */
  function Packs(doc: string, pieces: seq<Range>, held: seq<Range>, target: int, count: string -> nat): seq<seq<Range>>
    requires RangesIn(doc, pieces) && RangesIn(doc, held)
    decreases |pieces|
  {
    if pieces == [] then if held == [] then [] else [held]
    else if held != [] && Spent(doc, held, count) + count(doc[pieces[0].0..pieces[0].1]) > target then
      [held] + Packs(doc, pieces[1..], [pieces[0]], target, count)
    else Packs(doc, pieces[1..], held + [pieces[0]], target, count)
  }

  function Hull(group: seq<Range>): Range {
    if group == [] then (0, 0) else (group[0].0, group[|group| - 1].1)
  }

  function Hulls(groups: seq<seq<Range>>): (r: seq<Range>)
    ensures |r| == |groups| && forall k :: 0 <= k < |r| ==> r[k] == Hull(groups[k])
  {
    if groups == [] then [] else [Hull(groups[0])] + Hulls(groups[1..])
  }

  /** A group is a single piece, or fits the target by the sum of its pieces' costs. */
  ghost predicate GroupFits(doc: string, group: seq<Range>, target: int, count: string -> nat) {
    group != [] && RangesIn(doc, group) && (|group| == 1 || Spent(doc, group, count) <= target)
  }

  lemma {:induction false} PacksFit(doc: string, pieces: seq<Range>, held: seq<Range>, target: int,
                                    count: string -> nat,
                                    k: nat)
    requires RangesIn(doc, pieces) && RangesIn(doc, held) && (held == [] || GroupFits(doc, held, target, count))
    requires k < |Packs(doc, pieces, held, target, count)|
    ensures GroupFits(doc, Packs(doc, pieces, held, target, count)[k], target, count)
    decreases |pieces|
  {
    hide Spent;
    if pieces != [] {
      var p := pieces[0];
      SpentOneMore(doc, held, p, count);
      if held != [] && Spent(doc, held, count) + count(doc[p.0..p.1]) > target {
        if k > 0 {
          PacksFit(doc, pieces[1..], [p], target, count, k - 1);
        }
      } else {
        PacksFit(doc, pieces[1..], held + [p], target, count, k);
      }
    }
  }

  function Pooled(groups: seq<seq<Range>>): seq<Range> {
    if groups == [] then [] else groups[0] + Pooled(groups[1..])
  }

  /** A group ends only where the next piece would exceed the target. */
  ghost predicate EndsFull(doc: string, g: seq<Range>, h: seq<Range>, target: int, count: string -> nat) {
    && g != [] && h != [] && RangesIn(doc, g) && RangesIn(doc, h)
    && Spent(doc, g, count) + count(doc[h[0].0..h[0].1]) > target
  }

  ghost predicate AllPacked(doc: string, groups: seq<seq<Range>>, target: int, count: string -> nat) {
    && (forall k :: 0 <= k < |groups| ==> GroupFits(doc, groups[k], target, count))
    && (forall k :: 0 < k < |groups| ==> EndsFull(doc, groups[k - 1], groups[k], target, count))
  }

  lemma {:induction false} PacksArePacked(doc: string, pieces: seq<Range>, held: seq<Range>, target: int,
                                          count: string -> nat)
    requires RangesIn(doc, pieces) && RangesIn(doc, held) && (held == [] || GroupFits(doc, held, target, count))
    ensures var groups := Packs(doc, pieces, held, target, count);
      && AllPacked(doc, groups, target, count) && Pooled(groups) == held + pieces
      && (held + pieces != [] ==> groups != [] && groups[0][0] == (held + pieces)[0])
    decreases |pieces|
  {
    hide Spent;
    var groups := Packs(doc, pieces, held, target, count);
    if pieces == [] {
      assert held == [] || Pooled([held]) == held + Pooled([held][1..]);
    } else {
      var p, rest := pieces[0], pieces[1..];
      assert pieces == [p] + rest;
      SpentOneMore(doc, held, p, count);
      if held != [] && Spent(doc, held, count) + count(doc[p.0..p.1]) > target {
        PacksArePacked(doc, rest, [p], target, count);
        assert groups[1..] == Packs(doc, rest, [p], target, count);
        assert EndsFull(doc, held, groups[1], target, count);
      } else {
        PacksArePacked(doc, rest, held + [p], target, count);
        assert held + [p] + rest == held + pieces;
      }
    }
  }

  lemma {:induction false} SpentPrefix(doc: string, g: seq<Range>, n: nat, count: string -> nat)
    requires RangesIn(doc, g) && n <= |g|
    ensures RangesIn(doc, g[..n]) && Spent(doc, g[..n], count) <= Spent(doc, g, count)
    decreases |g|
  {
    hide Spent;
    if n < |g| {
      var front := g[..|g| - 1];
      assert g == front + [g[|g| - 1]] && front[..n] == g[..n];
      SpentOneMore(doc, front, g[|g| - 1], count);
      SpentPrefix(doc, front, n, count);
    } else {
      assert g[..n] == g;
    }
  }

  /** There is only one way to pack pieces: as many in a row as fit. */
  lemma {:induction false} OnlyPacking(doc: string, pieces: seq<Range>, held: seq<Range>, groups: seq<seq<Range>>,
                                       target: int, count: string -> nat)
    requires RangesIn(doc, pieces) && RangesIn(doc, held) && (held == [] || GroupFits(doc, held, target, count))
    requires AllPacked(doc, groups, target, count) && Pooled(groups) == held + pieces
    requires held != [] ==> groups != [] && held <= groups[0]
    ensures groups == Packs(doc, pieces, held, target, count)
    decreases |pieces|
  {
    hide Spent;
    if groups == [] {
      assert held + pieces == [];
    } else {
      var first, rest := groups[0], groups[1..];
      assert GroupFits(doc, first, target, count) && Pooled(groups) == first + Pooled(rest);
      if |first| == |held| {
        assert first == held;
        assert Pooled(rest) == (held + pieces)[|held|..] == pieces;
        if rest == [] {
          assert groups == [held];
        } else {
          assert EndsFull(doc, first, rest[0], target, count) && AllPacked(doc, rest, target, count);
          var p := pieces[0];
          assert rest[0][0] == (rest[0] + Pooled(rest[1..]))[0] == p;
          assert [p] + pieces[1..] == pieces;
          OnlyPacking(doc, pieces[1..], [p], rest, target, count);
          assert groups == [held] + rest;
        }
      } else {
        var p := pieces[0];
        assert first[|held|] == (held + pieces)[|held|] == p;
        assert held + [p] <= first && held + [p] + pieces[1..] == held + pieces;
        assert first[..|held| + 1] == held + [p];
        SpentPrefix(doc, first, |held| + 1, count);
        SpentOneMore(doc, held, p, count);
        OnlyPacking(doc, pieces[1..], held + [p], groups, target, count);
      }
    }
  }

  /** Pieces kept in order, groups that fit or are single pieces, and none that could take the
      next piece: together they say what the groups are. */
  lemma {:induction false} PacksIff(doc: string, pieces: seq<Range>, groups: seq<seq<Range>>, target: int,
                                    count: string -> nat)
    requires RangesIn(doc, pieces)
    ensures Pooled(groups) == pieces && AllPacked(doc, groups, target, count)
       <==> groups == Packs(doc, pieces, [], target, count)
  {
    hide Packs, AllPacked;
    assert [] + pieces == pieces;
    if Pooled(groups) == pieces && AllPacked(doc, groups, target, count) {
      OnlyPacking(doc, pieces, [], groups, target, count);
    }
    PacksArePacked(doc, pieces, [], target, count);
  }

  /** Whitespace stands before every cut between the ranges. */
  ghost predicate CutsClean(doc: string, ranges: seq<Range>) {
    forall k :: 0 <= k < |ranges| - 1 ==> 0 < ranges[k].1 <= |doc| && IsSpace(doc[ranges[k].1 - 1])
  }

  ghost predicate InOneRow(ranges: seq<Range>) {
    ranges != [] && Tiles(ranges, ranges[0].0, ranges[|ranges| - 1].1)
  }

  /** Groups of adjacent ranges that together tile `start` to `end`. */
  ghost predicate GroupsRow(doc: string, groups: seq<seq<Range>>, start: nat, end: nat) {
    && groups != [] && Tiles(Hulls(groups), start, end)
    && forall k :: 0 <= k < |groups| ==> InOneRow(groups[k]) && CutsClean(doc, groups[k])
  }

  lemma TilesInOneRow(doc: string, ranges: seq<Range>, start: nat, end: nat)
    requires Tiles(ranges, start, end) && end <= |doc|
    ensures InOneRow(ranges) && RangesIn(doc, ranges)
    ensures ranges[0].0 == start && ranges[|ranges| - 1].1 == end
  {
    TilesLieWithin(ranges, start, end);
  }

  lemma OneGroupRow(doc: string, group: seq<Range>)
    requires InOneRow(group) && CutsClean(doc, group)
    ensures GroupsRow(doc, [group], Hull(group).0, Hull(group).1)
  {
    hide IsSpace;
    RowAscends(group);
    assert Hulls([group]) == [Hull(group)];
  }

  lemma GroupRowBefore(doc: string, group: seq<Range>, groups: seq<seq<Range>>, end: nat)
    requires InOneRow(group) && CutsClean(doc, group) && GroupsRow(doc, groups, Hull(group).1, end)
    ensures GroupsRow(doc, [group] + groups, Hull(group).0, end)
  {
    hide IsSpace, CutsClean, InOneRow;
    RowAscends(group);
    assert Hulls([group] + groups) == [Hull(group)] + Hulls(groups);
    TilesJoin([Hull(group)], Hulls(groups), Hull(group).0, Hull(group).1, end);
  }

  /** The groups are made of the pieces, in order and without gap. */
  lemma {:induction false} PacksRow(doc: string, pieces: seq<Range>, held: seq<Range>, target: int,
                                    count: string -> nat)
    requires RangesIn(doc, pieces) && RangesIn(doc, held) && InOneRow(held + pieces) && CutsClean(doc, held + pieces)
    ensures var all := held + pieces;
      GroupsRow(doc, Packs(doc, pieces, held, target, count), all[0].0, all[|all| - 1].1)
    decreases |pieces|
  {
    hide Spent, CutsClean, GroupsRow, Tiles;
    if pieces == [] {
      assert held + pieces == held;
      OneGroupRow(doc, held);
    } else {
      var p, rest := pieces[0], pieces[1..];
      if held != [] && Spent(doc, held, count) + count(doc[p.0..p.1]) > target {
        RowSplits(doc, held, pieces);
        assert [p] + rest == pieces;
        PacksRow(doc, rest, [p], target, count);
        GroupRowBefore(doc, held, Packs(doc, rest, [p], target, count), pieces[|pieces| - 1].1);
      } else {
        assert held + [p] + rest == held + pieces;
        PacksRow(doc, rest, held + [p], target, count);
      }
    }
  }

  lemma RowSplits(doc: string, a: seq<Range>, b: seq<Range>)
    requires a != [] && b != [] && InOneRow(a + b) && CutsClean(doc, a + b)
    ensures InOneRow(a) && InOneRow(b) && CutsClean(doc, a) && CutsClean(doc, b) && Hull(a).1 == b[0].0
  {
    hide IsSpace;
    var all := a + b;
    assert forall k :: 0 <= k < |a| ==> a[k] == all[k];
    assert forall k :: 0 <= k < |b| ==> b[k] == all[|a| + k];
  }

  lemma {:induction false} RowAscends(ranges: seq<Range>)
    requires InOneRow(ranges)
    ensures Hull(ranges).0 < Hull(ranges).1
  {
    TilesLieWithin(ranges, ranges[0].0, ranges[|ranges| - 1].1);
    assert ranges[0].0 < ranges[0].1 <= ranges[|ranges| - 1].1;
  }

  // ---------------------------------------------------------------- the chunker

  /** The ranges that become chunks. */
  function PackedRanges(doc: string, separators: seq<string>, target: int, count: string -> nat): seq<Range>
    requires doc != "" && Separates(separators)
  {
    SplitTiles(doc, 0, |doc|, separators, target, count);
    TilesLieWithin(Split(doc, 0, |doc|, separators, target, count), 0, |doc|);
    Hulls(Packs(doc, Split(doc, 0, |doc|, separators, target, count), [], target, count))
  }

  /** The packed ranges tile the whole document, in groups of adjacent pieces cut at whitespace. */
  lemma PackedRangesTile(doc: string, separators: seq<string>, target: int, count: string -> nat)
    requires doc != "" && EndInSpace(separators)
    ensures var pieces := Split(doc, 0, |doc|, separators, target, count);
      && RangesIn(doc, pieces) && GroupsRow(doc, Packs(doc, pieces, [], target, count), 0, |doc|)
    ensures Tiles(PackedRanges(doc, separators, target, count), 0, |doc|)
    ensures RangesIn(doc, PackedRanges(doc, separators, target, count))
  {
    SplitCutsClean(doc, 0, |doc|, separators, target, count);
    SplitTiles(doc, 0, |doc|, separators, target, count);
    hide CutsClean, Split, Packs, IsSpace, InOneRow, EndInSpace, GroupsRow;
    var pieces := Split(doc, 0, |doc|, separators, target, count);
    PiecesRow(doc, pieces, target, count);
    GroupsTile(doc, Packs(doc, pieces, [], target, count));
  }

  lemma PiecesRow(doc: string, pieces: seq<Range>, target: int, count: string -> nat)
    requires Tiles(pieces, 0, |doc|) && CutsClean(doc, pieces)
    ensures RangesIn(doc, pieces) && GroupsRow(doc, Packs(doc, pieces, [], target, count), 0, |doc|)
  {
    hide CutsClean, Packs, Tiles, InOneRow, GroupsRow;
    TilesInOneRow(doc, pieces, 0, |doc|);
    assert [] + pieces == pieces;
    PacksRow(doc, pieces, [], target, count);
  }

  lemma GroupsTile(doc: string, groups: seq<seq<Range>>)
    requires GroupsRow(doc, groups, 0, |doc|)
    ensures Tiles(Hulls(groups), 0, |doc|) && RangesIn(doc, Hulls(groups))
  {
    TilesInOneRow(doc, Hulls(groups), 0, |doc|);
  }

  lemma SeparatorsEndInSpace()
    ensures EndInSpace(SEPARATORS)
  {
  }

  // ---------------------------------------------------------------- clean cuts

  ghost predicate EndInSpace(separators: seq<string>) {
    forall k :: 0 <= k < |separators| ==> separators[k] != "" && IsSpace(separators[k][|separators[k]| - 1])
  }

  lemma {:induction false} PiecesCutClean(doc: string, sep: string, cursor: nat, end: nat)
    requires cursor <= end <= |doc| && sep != "" && IsSpace(sep[|sep| - 1])
    ensures CutsClean(doc, Pieces(doc, sep, cursor, end))
    decreases end - cursor
  {
    hide IsSpace, CutsClean, Find;
    if cursor < end {
      var found := Find(doc, sep, cursor, end);
      if found.Some? {
        var stop := found.value + |sep|;
        var rest := Pieces(doc, sep, stop, end);
        PiecesCutClean(doc, sep, stop, end);
        assert doc[stop - 1] == doc[found.value..stop][|sep| - 1];
        OneCutClean(doc, (cursor, stop));
        if rest == [] {
          assert [(cursor, stop)] + rest == [(cursor, stop)];
        } else {
          CleanJoin(doc, [(cursor, stop)], rest);
        }
      } else {
        OneCutClean(doc, (cursor, end));
      }
    } else {
      NoCutClean(doc);
    }
  }

  lemma OneCutClean(doc: string, r: Range)
    ensures CutsClean(doc, [r])
  {
  }

  lemma NoCutClean(doc: string)
    ensures CutsClean(doc, [])
  {
  }

  lemma CleanJoin(doc: string, a: seq<Range>, b: seq<Range>)
    requires CutsClean(doc, a) && CutsClean(doc, b)
    requires a != [] && b != [] && 0 < a[|a| - 1].1 <= |doc| && IsSpace(doc[a[|a| - 1].1 - 1])
    ensures CutsClean(doc, a + b)
  {
    hide IsSpace;
  }

  /** Every separator ends in whitespace, so every piece but the last does. */
  lemma {:induction false} SplitCutsClean(doc: string, start: nat, end: nat, separators: seq<string>, target: int,
                                          count: string -> nat)
    requires start < end <= |doc| && EndInSpace(separators)
    ensures Separates(separators) && CutsClean(doc, Split(doc, start, end, separators, target, count))
    decreases |separators|, 0, 0
  {
    hide IsSpace;
    if count(doc[start..end]) > target && separators != [] {
      var sep, rest := separators[0], separators[1..];
      var pieces := Pieces(doc, sep, start, end);
      PiecesTile(doc, sep, start, end);
      if |pieces| <= 1 {
        SplitCutsClean(doc, start, end, rest, target, count);
      } else {
        TilesLieWithin(pieces, start, end);
        PiecesCutClean(doc, sep, start, end);
        EachCutsClean(doc, pieces, end, rest, target, count);
      }
    }
  }

  lemma {:induction false} EachCutsClean(doc: string, pieces: seq<Range>, end: nat, separators: seq<string>,
                                         target: int, count: string -> nat)
    requires InOneRow(pieces) && RangesIn(doc, pieces) && CutsClean(doc, pieces) && EndInSpace(separators)
    ensures Separates(separators) && CutsClean(doc, SplitEach(doc, pieces, separators, target, count))
    decreases |separators|, 1, |pieces|
  {
    hide IsSpace, Split, Pieces;
    var first, rest := pieces[0], pieces[1..];
    var front := Split(doc, first.0, first.1, separators, target, count);
    SplitCutsClean(doc, first.0, first.1, separators, target, count);
    if rest == [] {
      assert SplitEach(doc, pieces, separators, target, count) == front;
    } else {
      assert InOneRow(rest) && CutsClean(doc, rest);
      EachCutsClean(doc, rest, end, separators, target, count);
      SplitTiles(doc, first.0, first.1, separators, target, count);
      EachTiles(doc, rest, rest[0].0, rest[|rest| - 1].1, separators, target, count);
      CleanJoin(doc, front, SplitEach(doc, rest, separators, target, count));
    }
  }

  lemma RowButLast(doc: string, group: seq<Range>)
    requires InOneRow(group) && RangesIn(doc, group) && CutsClean(doc, group) && |group| > 1
    ensures var front, last := group[..|group| - 1], group[|group| - 1];
      && InOneRow(front) && RangesIn(doc, front) && CutsClean(doc, front) && Hull(front) == (Hull(group).0, last.0)
      && last.0 > 0 && IsSpace(doc[last.0 - 1])
  {
    hide IsSpace;
    assert group[|group| - 2].1 == group[|group| - 1].0;
  }

  /** The tokens of a group are those of its pieces, no more and no fewer. */
  lemma {:induction false} GroupTokens(doc: string, group: seq<Range>, isWord: char -> bool)
    requires Sane(isWord) && InOneRow(group) && RangesIn(doc, group) && CutsClean(doc, group)
    ensures Hull(group).0 < Hull(group).1 <= |doc|
    ensures TokenCount(doc[Hull(group).0..Hull(group).1], isWord) == TotalTokens(Parts(doc, group), isWord)
    decreases |group|
  {
    hide IsSpace, TokenCount;
    RowAscends(group);
    var n := |group| - 1;
    var front, last := group[..n], group[n];
    assert Parts(doc, group)[..n] == Parts(doc, front);
    var h := Hull(group);
    if n == 0 {
      assert Parts(doc, front) == [];
    } else {
      RowButLast(doc, group);
      GroupTokens(doc, front, isWord);
      hide Parts, InOneRow, CutsClean;
      var a, b := doc[h.0..last.0], doc[last.0..h.1];
      assert doc[h.0..h.1] == a + b;
      assert a[|a| - 1] == doc[last.0 - 1];
      TokensAdd(a, b, isWord);
    }
  }

  /** A packed chunk of two or more pieces overshoots the target by at most thirty per cent,
      rounded, by the approximate counter. */
  lemma GroupOvershoot(doc: string, group: seq<Range>, target: nat, count: string -> nat, isWord: char -> bool)
    requires Approximates(count, isWord) && InOneRow(group) && RangesIn(doc, group) && CutsClean(doc, group)
    requires Spent(doc, group, count) <= target
    ensures Hull(group).0 < Hull(group).1 <= |doc|
    ensures count(Strip(doc[Hull(group).0..Hull(group).1])) <= Tenths(13 * target)
  {
    hide IsSpace, TokenCount;
    GroupTokens(doc, group, isWord);
    var text := doc[Hull(group).0..Hull(group).1];
    TrimmingKeepsTokens(text, isWord);
    PackedOvershoot(Parts(doc, group), Strip(text), target, count, isWord);
  }

  // ---------------------------------------------------------------- packing in a loop

  lemma {:induction false} HullsOneMore(done: seq<Range>, group: seq<Range>, rest: seq<seq<Range>>)
    ensures done + Hulls([group] + rest) == done + [Hull(group)] + Hulls(rest)
  {
    hide Hull;
    assert ([group] + rest)[1..] == rest;
    Regroup(done, [Hull(group)], Hulls(rest));
  }

  ghost predicate Holding(doc: string, held: seq<Range>, start: Option<nat>, end: nat, tokens: nat,
                          count: string -> nat) {
    && InOrder(doc, held)
    && (start.None? <==> held == [])
    && tokens == Spent(doc, held, count)
    && (held != [] ==> Hull(held) == (start.value, end))
  }

  lemma {:induction false} TilesInOrder(doc: string, ranges: seq<Range>, start: nat, end: nat)
    requires Tiles(ranges, start, end) && end <= |doc|
    ensures InOrder(doc, ranges)
    decreases |ranges|
  {
    TilesLieWithin(ranges, start, end);
    if |ranges| > 1 {
      assert Tiles(ranges[1..], ranges[1].0, end);
      TilesLieWithin(ranges[1..], ranges[1].0, end);
      TilesInOrder(doc, ranges[1..], ranges[1].0, end);
    }
  }

  lemma {:induction false} NothingHeld(doc: string, spans: seq<Span>, count: string -> nat)
    ensures Spent(doc, [], count) == 0 && ChunksOf(doc, spans, [], count) == [] && Hulls([]) == []
  {
  }

  lemma HullIsIn(doc: string, held: seq<Range>)
    requires InOrder(doc, held) && held != []
    ensures RangeIn(doc, Hull(held))
  {
  }

  lemma HoldOneMore(doc: string, held: seq<Range>, p: Range, rest: seq<Range>, count: string -> nat)
    requires InOrder(doc, held + ([p] + rest))
    ensures InOrder(doc, held) && InOrder(doc, held + [p])
      && InOrder(doc, held + [p] + rest) && InOrder(doc, [p] + rest)
    ensures RangeIn(doc, p) && Spent(doc, held + [p], count) == Spent(doc, held, count) + count(doc[p.0..p.1])
  {
    var all := held + ([p] + rest);
    assert all == held + [p] + rest;
    assert forall k :: 0 <= k < |held| ==> held[k] == all[k];
    assert all[|held|] == p;
    SpentOneMore(doc, held, p, count);
    var back := [p] + rest;
    assert forall k :: 0 <= k < |back| ==> back[k] == all[|held| + k];
  }

  lemma {:induction false} PackOne(doc: string, p: Range, rest: seq<Range>, held: seq<Range>, target: int,
                                   count: string -> nat)
    requires RangeIn(doc, p) && RangesIn(doc, rest) && RangesIn(doc, held)
    ensures RangesIn(doc, [p] + rest) && RangesIn(doc, held + [p])
    ensures Packs(doc, [p] + rest, held, target, count)
         == if held != [] && Spent(doc, held, count) + count(doc[p.0..p.1]) > target
            then [held] + Packs(doc, rest, [p], target, count) else Packs(doc, rest, held + [p], target, count)
  {
    hide Spent;
    assert ([p] + rest)[1..] == rest;
  }

  lemma {:induction false} PackLast(doc: string, held: seq<Range>, target: int, count: string -> nat, done: seq<Range>)
    requires RangesIn(doc, held)
    ensures done + Hulls(Packs(doc, [], held, target, count)) == if held == [] then done else done + [Hull(held)]
  {
    hide Hull;
    if held != [] {
      assert Hulls([held]) == [Hull(held)];
    }
  }

  /** Emits what is held, if anything is. */
  method Flush(doc: string, spans: seq<Span>, ghost done: seq<Range>, ghost held: seq<Range>, start: Option<nat>,
               end: nat,
               ghost tokens: nat, count: string -> nat, chunks0: seq<Chunk>)
    returns (chunks: seq<Chunk>)
    requires RangesIn(doc, done) && chunks0 == ChunksOf(doc, spans, done, count)
      && Holding(doc, held, start, end, tokens, count)
    ensures RangesIn(doc, Emitted(done, held)) && chunks == ChunksOf(doc, spans, Emitted(done, held), count)
  {
    hide ChunksOf, Spent;
    chunks := chunks0;
    if start.Some? {
      HullIsIn(doc, held);
      chunks := Append(doc, spans, done, (start.value, end), count, chunks);
    }
  }

  ghost function Emitted(done: seq<Range>, held: seq<Range>): seq<Range> {
    if held == [] then done else done + [Hull(held)]
  }

  lemma HoldFirst(doc: string, p: Range, rest: seq<Range>, count: string -> nat)
    requires InOrder(doc, [p] + rest)
    ensures RangeIn(doc, p) && RangesIn(doc, rest)
    ensures Spent(doc, [], count) == 0 && Spent(doc, [p], count) == count(doc[p.0..p.1])
    ensures Holding(doc, [], None, 0, 0, count)
  {
    hide Spent;
    NothingSpent(doc, count);
    var none: seq<Range> := [];
    var all := [p] + rest;
    assert all[0] == p && forall k :: 0 <= k < |rest| ==> rest[k] == all[k + 1];
    assert none + ([p] + rest) == [p] + rest && none + [p] == [p];
    HoldOneMore(doc, none, p, rest, count);
  }

  lemma NothingSpent(doc: string, count: string -> nat)
    ensures Spent(doc, [], count) == 0
  {
  }

  method PackPieces(doc: string, spans: seq<Span>, pieces: seq<Range>, target: int, count: string -> nat)
    returns (chunks: seq<Chunk>)
    requires InOrder(doc, pieces)
    ensures RangesIn(doc, Hulls(Packs(doc, pieces, [], target, count)))
    ensures chunks == ChunksOf(doc, spans, Hulls(Packs(doc, pieces, [], target, count)), count)
  {
    hide ChunksOf, Spent, Hulls, Packs, Hull;
    chunks := [];
    var start: Option<nat>, end: nat, tokens: nat := None, 0, 0;
    ghost var held: seq<Range>, done: seq<Range> := [], [];
    ghost var all := Hulls(Packs(doc, pieces, [], target, count));
    NothingHeld(doc, spans, count);
    var i := 0;
    while i < |pieces|
      invariant i <= |pieces| && InOrder(doc, held + pieces[i..]) && Holding(doc, held, start, end, tokens, count)
      invariant RangesIn(doc, done) && chunks == ChunksOf(doc, spans, done, count)
      invariant all == done + Hulls(Packs(doc, pieces[i..], held, target, count))
    {
      assert pieces[i..] == [pieces[i]] + pieces[i + 1..];
      chunks, start, end, tokens, held, done :=
        TakePiece(doc, spans, pieces[i], pieces[i + 1..], target, count, chunks, start, end, tokens, held, done);
      i := i + 1;
    }
    PackLast(doc, held, target, count, done);
    chunks := Flush(doc, spans, done, held, start, end, tokens, count, chunks);
  }

  /** One turn of the loop. */
  method TakePiece(doc: string, spans: seq<Span>, p: Range, ghost rest: seq<Range>, target: int, count: string -> nat,
                   chunks0: seq<Chunk>, start0: Option<nat>, end0: nat, tokens0: nat,
                   ghost held0: seq<Range>, ghost done0: seq<Range>)
    returns (chunks: seq<Chunk>, start: Option<nat>, end: nat, tokens: nat,
             ghost held: seq<Range>, ghost done: seq<Range>)
    requires RangeIn(doc, p) && InOrder(doc, held0 + ([p] + rest)) && Holding(doc, held0, start0, end0, tokens0, count)
    requires RangesIn(doc, done0) && chunks0 == ChunksOf(doc, spans, done0, count)
    ensures held == if start0.Some? && tokens0 + count(doc[p.0..p.1]) > target then [p] else held0 + [p]
    ensures InOrder(doc, held + rest) && Holding(doc, held, start, end, tokens, count)
    ensures RangesIn(doc, done) && chunks == ChunksOf(doc, spans, done, count)
    ensures RangesIn(doc, [p] + rest) && done0 + Hulls(Packs(doc, [p] + rest, held0, target, count))
                                      == done + Hulls(Packs(doc, rest, held, target, count))
  {
    hide ChunksOf, Spent, Hulls, Packs;
    chunks, start, end, tokens, held, done := chunks0, start0, end0, tokens0, held0, done0;
    HoldOneMore(doc, held, p, rest, count);
    HoldFirst(doc, p, rest, count);
    PackOne(doc, p, rest, held, target, count);
    var cost := count(doc[p.0..p.1]);
    if start.Some? && tokens + cost > target {
      HullsOneMore(done, held, Packs(doc, rest, [p], target, count));
      chunks := Flush(doc, spans, done, held, start, end, tokens, count, chunks);
      done := done + [Hull(held)];
      start, end, tokens, held := None, 0, 0, [];
      assert held + [p] == [p];
    }
    if start.None? {
      start := Some(p.0);
    }
    end, tokens, held := p.1, tokens + cost, held + [p];
  }
}
