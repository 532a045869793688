/** The layout strategy: whole blocks packed under their headings, tables and figures alone. */
module LayoutChunks {
  import opened Wrappers
  import opened Texts
  import opened Tokens
  import opened Rounding
  import opened Passages
  import opened Chunks

  // ---------------------------------------------------------------- grouping

  function BlockTexts(group: seq<SourceBlock>): (r: seq<string>)
    ensures |r| == |group| && forall k :: 0 <= k < |r| ==> r[k] == group[k].text
  {
    seq(|group|, k requires 0 <= k < |group| => group[k].text)
  }

  /** Sum of what the blocks cost one by one. */
  function Spent(group: seq<SourceBlock>, count: string -> nat): nat {
    TotalEstimate(BlockTexts(group), count)
  }

  function Flushed(buffer: seq<SourceBlock>): seq<seq<SourceBlock>> {
    if buffer == [] then [] else [buffer]
  }

  /** A block that cannot go on in the buffer. */
  predicate Breaks(buffer: seq<SourceBlock>, b: SourceBlock, target: int, count: string -> nat) {
    || b.IsBoundary()
    || (buffer != [] && buffer[|buffer| - 1].sectionPath != b.sectionPath)
    || Spent(buffer, count) + count(b.text) > target
  }

  function Grouped(blocks: seq<SourceBlock>, buffer: seq<SourceBlock>, target: int,
                   count: string -> nat): seq<seq<SourceBlock>>
    decreases |blocks|
  {
    if blocks == [] then Flushed(buffer)
    else
      var b, rest := blocks[0], blocks[1..];
      if b.IsAtomic() then Flushed(buffer) + ([[b]] + Grouped(rest, [], target, count))
      else if Breaks(buffer, b, target, count) then Flushed(buffer) + Grouped(rest, [b], target, count)
      else Grouped(rest, buffer + [b], target, count)
  }

  // ---------------------------------------------------------------- what the groups promise

  ghost predicate TableOrFigure(b: SourceBlock) { b.kind in ["table", "figure"] }

  ghost predicate TitleOrHeading(b: SourceBlock) { b.kind in ["title", "heading"] }

  /** Tables and figures stand alone, titles and headings come first only, one section runs
      through, and several blocks fit the target by the sum of their costs. */
  ghost predicate GroupOk(g: seq<SourceBlock>, target: int, count: string -> nat) {
    && g != []
    && (forall k :: 0 <= k < |g| && TableOrFigure(g[k]) ==> |g| == 1)
    && (forall k :: 0 < k < |g| ==> !TitleOrHeading(g[k]))
    && (forall k :: 0 <= k < |g| ==> g[k].sectionPath == g[0].sectionPath)
    && (|g| == 1 || Spent(g, count) <= target)
  }

  ghost predicate BufferOk(g: seq<SourceBlock>, target: int, count: string -> nat) {
    g == [] || (GroupOk(g, target, count) && !g[0].IsAtomic())
  }

  function Flat(groups: seq<seq<SourceBlock>>): seq<SourceBlock> {
    if groups == [] then [] else groups[0] + Flat(groups[1..])
  }

  lemma {:induction false} FlatAppend(a: seq<seq<SourceBlock>>, b: seq<seq<SourceBlock>>)
    ensures Flat(a + b) == Flat(a) + Flat(b)
  {
    if a == [] {
      assert a + b == b;
    } else {
      assert (a + b)[1..] == a[1..] + b;
      FlatAppend(a[1..], b);
    }
  }

  lemma FlatOne(g: seq<SourceBlock>)
    ensures Flat([g]) == g && Flat(Flushed(g)) == g
  {
    assert [g][1..] == [];
  }

  /** Nothing is lost, repeated or moved. */
  lemma {:induction false} GroupsKeepBlocks(blocks: seq<SourceBlock>, buffer: seq<SourceBlock>, target: int,
                                            count: string -> nat)
    ensures Flat(Grouped(blocks, buffer, target, count)) == buffer + blocks
    decreases |blocks|
  {
    hide Breaks, Spent;
    FlatOne(buffer);
    if blocks != [] {
      var b, rest := blocks[0], blocks[1..];
      assert blocks == [b] + rest;
      FlatOne([b]);
      if b.IsAtomic() {
        GroupsKeepBlocks(rest, [], target, count);
        FlatAppend([[b]], Grouped(rest, [], target, count));
        FlatAppend(Flushed(buffer), [[b]] + Grouped(rest, [], target, count));
      } else if Breaks(buffer, b, target, count) {
        GroupsKeepBlocks(rest, [b], target, count);
        FlatAppend(Flushed(buffer), Grouped(rest, [b], target, count));
      } else {
        GroupsKeepBlocks(rest, buffer + [b], target, count);
        assert buffer + [b] + rest == buffer + blocks;
      }
    }
  }

  lemma SpentOneMore(group: seq<SourceBlock>, b: SourceBlock, count: string -> nat)
    ensures Spent(group + [b], count) == Spent(group, count) + count(b.text)
  {
    assert BlockTexts(group + [b])[..|group|] == BlockTexts(group);
  }

  lemma BufferGrows(buffer: seq<SourceBlock>, b: SourceBlock, target: int, count: string -> nat)
    requires BufferOk(buffer, target, count) && !b.IsAtomic() && !Breaks(buffer, b, target, count)
    ensures BufferOk(buffer + [b], target, count)
  {
    SpentOneMore(buffer, b, count);
    hide Spent;
    if buffer != [] {
      assert (buffer + [b])[0] == buffer[0];
      assert buffer[|buffer| - 1].sectionPath == buffer[0].sectionPath;
    }
  }

  lemma {:induction false} GroupsAreOk(blocks: seq<SourceBlock>, buffer: seq<SourceBlock>, target: int,
                                       count: string -> nat,
                                       k: nat)
    requires BufferOk(buffer, target, count) && k < |Grouped(blocks, buffer, target, count)|
    ensures GroupOk(Grouped(blocks, buffer, target, count)[k], target, count)
    decreases |blocks|
  {
    hide Spent, GroupOk;
    if blocks != [] {
      var b, rest := blocks[0], blocks[1..];
      AloneIsOk(b, target, count);
      var n := |Flushed(buffer)|;
      if b.IsAtomic() {
        if k > n {
          GroupsAreOk(rest, [], target, count, k - n - 1);
        }
      } else if Breaks(buffer, b, target, count) {
        if k >= n {
          GroupsAreOk(rest, [b], target, count, k - n);
        }
      } else {
        BufferGrows(buffer, b, target, count);
        GroupsAreOk(rest, buffer + [b], target, count, k);
      }
    }
  }

  lemma AloneIsOk(b: SourceBlock, target: int, count: string -> nat)
    ensures GroupOk([b], target, count)
  {
  }

  /** Two neighbouring groups are two for a reason: one is a table or figure, the second begins
      with a title or heading or in another section, or its first block would exceed the target. */
  ghost predicate Apart(g: seq<SourceBlock>, h: seq<SourceBlock>, target: int, count: string -> nat) {
    && g != [] && h != []
    && (|| TableOrFigure(g[0]) || TableOrFigure(h[0]) || TitleOrHeading(h[0])
        || g[|g| - 1].sectionPath != h[0].sectionPath
        || Spent(g, count) + count(h[0].text) > target)
  }

  ghost predicate AllApart(groups: seq<seq<SourceBlock>>, target: int, count: string -> nat) {
    forall k :: 0 < k < |groups| ==> Apart(groups[k - 1], groups[k], target, count)
  }

  /** Groups are as large as the rules let them be. */
  lemma {:induction false} GroupsAreApart(blocks: seq<SourceBlock>, buffer: seq<SourceBlock>, target: int,
                                          count: string -> nat)
    requires BufferOk(buffer, target, count)
    ensures var groups := Grouped(blocks, buffer, target, count);
      && AllApart(groups, target, count)
      && (buffer != [] ==> groups != [] && |groups[0]| > 0 && groups[0][0] == buffer[0])
      && (buffer == [] && blocks != [] ==> groups != [] && |groups[0]| > 0 && groups[0][0] == blocks[0])
      && (buffer == [] && blocks == [] ==> groups == [])
    decreases |blocks|
  {
    hide Spent, Breaks, GroupOk;
    if blocks != [] {
      var b, rest := blocks[0], blocks[1..];
      AloneIsOk(b, target, count);
      if b.IsAtomic() {
        GroupsAreApart(rest, [], target, count);
        var tail := Grouped(rest, [], target, count);
        assert AllApart([[b]] + tail, target, count);
        PrependApart(buffer, [[b]] + tail, target, count);
      } else if Breaks(buffer, b, target, count) {
        GroupsAreApart(rest, [b], target, count);
        PrependApart(buffer, Grouped(rest, [b], target, count), target, count);
      } else {
        BufferGrows(buffer, b, target, count);
        GroupsAreApart(rest, buffer + [b], target, count);
        assert (buffer + [b])[0] == if buffer == [] then b else buffer[0];
      }
    }
  }

  lemma PrependApart(buffer: seq<SourceBlock>, groups: seq<seq<SourceBlock>>, target: int, count: string -> nat)
    requires AllApart(groups, target, count) && groups != [] && groups[0] != []
    requires groups[0][0].IsAtomic() || Breaks(buffer, groups[0][0], target, count)
    ensures AllApart(Flushed(buffer) + groups, target, count)
  {
    hide Spent;
  }

  lemma {:induction false} SpentPrefix(g: seq<SourceBlock>, n: nat, count: string -> nat)
    requires n <= |g|
    ensures Spent(g[..n], count) <= Spent(g, count)
    decreases |g|
  {
    hide Spent;
    if n < |g| {
      var front := g[..|g| - 1];
      assert g == front + [g[|g| - 1]] && front[..n] == g[..n];
      SpentOneMore(front, g[|g| - 1], count);
      SpentPrefix(front, n, count);
    } else {
      assert g[..n] == g;
    }
  }

  ghost predicate AllOk(groups: seq<seq<SourceBlock>>, target: int, count: string -> nat) {
    forall k :: 0 <= k < |groups| ==> GroupOk(groups[k], target, count)
  }

  /** A group that has begun with the buffer and goes on. */
  lemma GoesOn(g: seq<SourceBlock>, buffer: seq<SourceBlock>, b: SourceBlock, target: int, count: string -> nat)
    requires GroupOk(g, target, count) && buffer != [] && buffer + [b] <= g
    ensures !b.IsAtomic() && !Breaks(buffer, b, target, count) && BufferOk(buffer + [b], target, count)
  {
    var n := |buffer|;
    assert g[..n] == buffer && g[..n + 1] == buffer + [b];
    SpentPrefix(g, n + 1, count);
    SpentOneMore(buffer, b, count);
    hide Spent;
    assert g[n] == b && g[n - 1] == buffer[n - 1];
    forall k | 0 <= k < n + 1 ensures (buffer + [b])[k] == g[k] {
    }
  }

  lemma FlatFirst(groups: seq<seq<SourceBlock>>, target: int, count: string -> nat)
    requires groups != [] && AllOk(groups, target, count)
    ensures Flat(groups) == groups[0] + Flat(groups[1..]) && AllOk(groups[1..], target, count) && groups[0] != []
  {
    hide GroupOk;
    assert GroupOk(groups[0], target, count);
    FirstHolds(groups[0], target, count);
  }

  lemma FirstHolds(g: seq<SourceBlock>, target: int, count: string -> nat)
    requires GroupOk(g, target, count)
    ensures g != [] && (TableOrFigure(g[0]) ==> |g| == 1)
  {
  }

  /** There is only one way to group blocks by these rules, with reasons for every break. */
  lemma {:induction false} OnlyGrouping(blocks: seq<SourceBlock>, buffer: seq<SourceBlock>,
                                        groups: seq<seq<SourceBlock>>, target: int, count: string -> nat)
    requires AllOk(groups, target, count) && AllApart(groups, target, count) && Flat(groups) == buffer + blocks
    requires BufferOk(buffer, target, count) && (buffer != [] ==> groups != [] && buffer <= groups[0])
    ensures groups == Grouped(blocks, buffer, target, count)
    decreases |blocks|, |groups|
  {
    hide Spent, GroupOk, Breaks, Apart;
    if groups == [] {
      assert buffer + blocks == [];
    } else {
      FlatFirst(groups, target, count);
      var first, rest := groups[0], groups[1..];
      if buffer == [] {
        var b := blocks[0];
        assert first[0] == (first + Flat(rest))[0] == (buffer + blocks)[0] == b && blocks == [b] + blocks[1..];
        AloneIsOk(b, target, count);
        FirstHolds(first, target, count);
        if b.IsAtomic() {
          assert first == [b] && Flat(rest) == blocks[1..];
          OnlyGrouping(blocks[1..], [], rest, target, count);
        } else {
          assert [b] <= first && [] + blocks == [b] + blocks[1..];
          OnlyGrouping(blocks[1..], [b], groups, target, count);
          StartsFresh(blocks, target, count);
        }
      } else if |first| == |buffer| {
        assert first == buffer;
        assert Flat(rest) == (buffer + blocks)[|buffer|..] == blocks;
        if rest == [] {
          assert groups == [buffer];
        } else {
          assert Apart(first, rest[0], target, count) && AllApart(rest, target, count);
          FlatFirst(rest, target, count);
          assert rest[0][0] == blocks[0];
          NextBreaks(first, rest[0], target, count);
          OnlyGrouping(blocks, [], rest, target, count);
          assert groups == [buffer] + rest;
          BreakIsFresh(blocks, buffer, target, count);
        }
      } else {
        var b := blocks[0];
        assert first[|buffer|] == (buffer + blocks)[|buffer|] == b;
        assert buffer + [b] <= first && buffer + [b] + blocks[1..] == buffer + blocks;
        GoesOn(first, buffer, b, target, count);
        OnlyGrouping(blocks[1..], buffer + [b], groups, target, count);
      }
    }
  }

  /** Blocks kept in order, the rules for a group, and a reason for every break: together they say
      what the groups are. */
  lemma {:induction false} GroupedIff(blocks: seq<SourceBlock>, groups: seq<seq<SourceBlock>>, target: int,
                                      count: string -> nat)
    ensures Flat(groups) == blocks && AllOk(groups, target, count) && AllApart(groups, target, count)
       <==> groups == Grouped(blocks, [], target, count)
  {
    hide Grouped, Spent, GroupOk, AllApart;
    assert [] + blocks == blocks;
    if Flat(groups) == blocks && AllOk(groups, target, count) && AllApart(groups, target, count) {
      OnlyGrouping(blocks, [], groups, target, count);
    }
    GroupsKeepBlocks(blocks, [], target, count);
    GroupsAreApart(blocks, [], target, count);
    forall k | 0 <= k < |Grouped(blocks, [], target, count)|
      ensures GroupOk(Grouped(blocks, [], target, count)[k], target, count) {
      GroupsAreOk(blocks, [], target, count, k);
    }
  }

  lemma StartsFresh(blocks: seq<SourceBlock>, target: int, count: string -> nat)
    requires blocks != [] && !blocks[0].IsAtomic()
    ensures Grouped(blocks, [], target, count) == Grouped(blocks[1..], [blocks[0]], target, count)
  {
    hide Spent;
    assert [] + [blocks[0]] == [blocks[0]];
  }

  lemma NextBreaks(g: seq<SourceBlock>, h: seq<SourceBlock>, target: int, count: string -> nat)
    requires Apart(g, h, target, count) && BufferOk(g, target, count)
    ensures h[0].IsAtomic() || Breaks(g, h[0], target, count)
  {
    hide Spent;
  }

  lemma BreakIsFresh(blocks: seq<SourceBlock>, buffer: seq<SourceBlock>, target: int, count: string -> nat)
    requires buffer != [] && blocks != [] && (blocks[0].IsAtomic() || Breaks(buffer, blocks[0], target, count))
    ensures Grouped(blocks, buffer, target, count) == [buffer] + Grouped(blocks, [], target, count)
  {
    hide Spent;
    var b, rest := blocks[0], blocks[1..];
    assert [] + [b] == [b];
  }

  // ---------------------------------------------------------------- groups into chunks

  function Trimmed(group: seq<SourceBlock>): (r: seq<string>)
    ensures |r| == |group| && forall k :: 0 <= k < |r| ==> r[k] == Strip(group[k].text)
  {
    seq(|group|, k requires 0 <= k < |group| => Strip(group[k].text))
  }

  function Joined(group: seq<SourceBlock>): string {
    Join(Trimmed(group), BLOCK_JOIN)
  }

  /** The chunk of a group; that of a table or figure is marked as atomic. */
  function ChunkOf(seqNo: nat, group: seq<SourceBlock>, count: string -> nat): Option<Chunk>
    requires group != []
  {
    if group[0].IsAtomic() then
      match Assemble(seqNo, group[0].text, group, count)
      case Some(chunk) => Some(chunk.(atomic := true))
      case None => None
    else Assemble(seqNo, Joined(group), group, count)
  }

  ghost predicate NonEmpty(groups: seq<seq<SourceBlock>>) {
    forall k :: 0 <= k < |groups| ==> groups[k] != []
  }

  function ChunksOfGroups(groups: seq<seq<SourceBlock>>, count: string -> nat): seq<Chunk>
    requires NonEmpty(groups)
  {
    if groups == [] then []
    else
      var front := ChunksOfGroups(groups[..|groups| - 1], count);
      match ChunkOf(|front|, groups[|groups| - 1], count)
      case Some(chunk) => front + [chunk]
      case None => front
  }

  lemma {:induction false} GroupedNonEmpty(blocks: seq<SourceBlock>, target: int, count: string -> nat)
    ensures NonEmpty(Grouped(blocks, [], target, count))
  {
    hide Grouped;
    forall k | 0 <= k < |Grouped(blocks, [], target, count)| ensures Grouped(blocks, [], target, count)[k] != [] {
      GroupsAreOk(blocks, [], target, count, k);
    }
  }

  /** The chunks of the prepared blocks, before overlap. */
  function PlainChunks(blocks: seq<SourceBlock>, target: int, count: string -> nat): seq<Chunk> {
    GroupedNonEmpty(Prepare(blocks), target, count);
    ChunksOfGroups(Grouped(Prepare(blocks), [], target, count), count)
  }

  lemma {:induction false} OneGroupMore(groups: seq<seq<SourceBlock>>, g: seq<SourceBlock>, count: string -> nat)
    requires NonEmpty(groups) && g != []
    ensures NonEmpty(groups + [g])
    ensures var front := ChunksOfGroups(groups, count);
      ChunksOfGroups(groups + [g], count)
      == match ChunkOf(|front|, g, count)
         case Some(chunk) => front + [chunk]
         case None => front
  {
    assert (groups + [g])[..|groups|] == groups;
  }

  // ---------------------------------------------------------------- packing in a loop

  /** Emits the buffer, if it holds anything. */
  method Flush(ghost done: seq<seq<SourceBlock>>, buffer: seq<SourceBlock>, count: string -> nat, chunks0: seq<Chunk>)
    returns (chunks: seq<Chunk>)
    requires NonEmpty(done) && chunks0 == ChunksOfGroups(done, count) && (buffer != [] ==> !buffer[0].IsAtomic())
    ensures NonEmpty(done + Flushed(buffer)) && chunks == ChunksOfGroups(done + Flushed(buffer), count)
  {
    hide ChunksOfGroups;
    chunks := chunks0;
    assert done + [] == done;
    if buffer == [] {
      return;
    }
    OneGroupMore(done, buffer, count);
    var chunk := Assemble(|chunks|, Joined(buffer), buffer, count);
    if chunk.Some? {
      chunks := chunks + [chunk.value];
    }
  }

  method EmitAtomic(ghost done: seq<seq<SourceBlock>>, b: SourceBlock, count: string -> nat, chunks0: seq<Chunk>)
    returns (chunks: seq<Chunk>)
    requires NonEmpty(done) && chunks0 == ChunksOfGroups(done, count) && b.IsAtomic()
    ensures NonEmpty(done + [[b]]) && chunks == ChunksOfGroups(done + [[b]], count)
  {
    hide ChunksOfGroups;
    OneGroupMore(done, [b], count);
    chunks := chunks0;
    var chunk := Assemble(|chunks|, b.text, [b], count);
    if chunk.Some? {
      chunks := chunks + [chunk.value.(atomic := true)];
    }
  }

  /** What is still to come once `buffer` is held and `blocks` remain. */
  lemma {:induction false} GroupOne(done: seq<seq<SourceBlock>>, b: SourceBlock, rest: seq<SourceBlock>,
                                    buffer: seq<SourceBlock>, target: int,
                                    count: string -> nat)
    ensures done + Grouped([b] + rest, buffer, target, count)
         == if b.IsAtomic() then done + Flushed(buffer) + [[b]] + Grouped(rest, [], target, count)
            else if Breaks(buffer, b, target, count) then done + Flushed(buffer) + Grouped(rest, [b], target, count)
            else done + Grouped(rest, buffer + [b], target, count)
  {
    hide Breaks, Flushed;
    assert ([b] + rest)[1..] == rest;
    Regroup(done, Flushed(buffer), Grouped(rest, [b], target, count));
    Regroup(done, Flushed(buffer), [[b]] + Grouped(rest, [], target, count));
    Regroup(done + Flushed(buffer), [[b]], Grouped(rest, [], target, count));
  }

  lemma Regroup(a: seq<seq<SourceBlock>>, b: seq<seq<SourceBlock>>, c: seq<seq<SourceBlock>>)
    ensures a + (b + c) == a + b + c
  {
  }

  method PackBlocks(prepared: seq<SourceBlock>, target: int, count: string -> nat) returns (chunks: seq<Chunk>)
    ensures NonEmpty(Grouped(prepared, [], target, count))
    ensures chunks == ChunksOfGroups(Grouped(prepared, [], target, count), count)
  {
    hide ChunksOfGroups, Spent, Grouped;
    GroupedNonEmpty(prepared, target, count);
    chunks := [];
    var buffer: seq<SourceBlock>, buffered: nat := [], 0;
    ghost var done: seq<seq<SourceBlock>> := [];
    ghost var all := Grouped(prepared, [], target, count);
    NothingBuffered(count);
    var i := 0;
    while i < |prepared|
      invariant i <= |prepared| && buffered == Spent(buffer, count) && (buffer != [] ==> !buffer[0].IsAtomic())
      invariant NonEmpty(done) && chunks == ChunksOfGroups(done, count)
      invariant all == done + Grouped(prepared[i..], buffer, target, count)
    {
      var b := prepared[i];
      var cost := count(b.text);
      assert prepared[i..] == [b] + prepared[i + 1..];
      GroupOne(done, b, prepared[i + 1..], buffer, target, count);
      i := i + 1;
      if b.IsAtomic() {
        chunks := Flush(done, buffer, count, chunks);
        done := done + Flushed(buffer);
        chunks := EmitAtomic(done, b, count, chunks);
        done, buffer, buffered := done + [[b]], [], 0;
        continue;
      }
      var sectionChanged := buffer != [] && buffer[|buffer| - 1].sectionPath != b.sectionPath;
      if b.IsBoundary() || sectionChanged || buffered + cost > target {
        chunks := Flush(done, buffer, count, chunks);
        done, buffer, buffered := done + Flushed(buffer), [], 0;
        assert buffer + [b] == [b];
      }
      SpentOneMore(buffer, b, count);
      buffer, buffered := buffer + [b], buffered + cost;
    }
    LastGroup(prepared, i, buffer, target, count);
    chunks := Flush(done, buffer, count, chunks);
  }

  lemma NothingBuffered(count: string -> nat)
    ensures Spent([], count) == 0 && ChunksOfGroups([], count) == []
  {
  }

  lemma {:induction false} LastGroup(prepared: seq<SourceBlock>, i: nat, buffer: seq<SourceBlock>, target: int,
                                     count: string -> nat)
    requires i == |prepared|
    ensures Grouped(prepared[i..], buffer, target, count) == Flushed(buffer)
  {
  }

  // ---------------------------------------------------------------- overlap by blocks

  /** Blocks by id; of several with one id the last counts. */
  function ById(blocks: seq<SourceBlock>): map<string, SourceBlock> {
    if blocks == [] then map[] else ById(blocks[..|blocks| - 1])[blocks[|blocks| - 1].id := blocks[|blocks| - 1]]
  }

  function Looked(byId: map<string, SourceBlock>, ids: seq<string>): seq<SourceBlock> {
    if ids == [] then []
    else Looked(byId, ids[..|ids| - 1]) + if ids[|ids| - 1] in byId then [byId[ids[|ids| - 1]]] else []
  }

  /** The last block of the chunk before, if it fits the overlap. */
  function Carry(byId: map<string, SourceBlock>, prev: Chunk, overlap: int, count: string -> nat): seq<SourceBlock> {
    if prev.blockIds == [] then []
    else
      var id := prev.blockIds[|prev.blockIds| - 1];
      if id in byId && count(byId[id].text) <= overlap then [byId[id]] else []
  }

  function Merged(byId: map<string, SourceBlock>, prev: Chunk, cur: Chunk, overlap: int, count: string -> nat): Chunk {
    var carry := Carry(byId, prev, overlap, count);
    if prev.atomic || cur.atomic || carry == [] then cur
    else
      var blocks := carry + Looked(byId, cur.blockIds);
      match Assemble(cur.seqNo, Joined(blocks), blocks, count)
      case Some(chunk) => chunk
      case None => cur
  }

  function WithBlockOverlap(chunks: seq<Chunk>, blocks: seq<SourceBlock>, overlap: int,
                            count: string -> nat): (r: seq<Chunk>)
    ensures |r| == |chunks|
    ensures forall k :: 0 <= k < |r| ==>
              r[k] == if k == 0 then chunks[0] else Merged(ById(blocks), chunks[k - 1], chunks[k], overlap, count)
  {
    seq(|chunks|, k requires 0 <= k < |chunks| =>
      if k == 0 then chunks[0] else Merged(ById(blocks), chunks[k - 1], chunks[k], overlap, count))
  }

  method MergeBlocks(byId: map<string, SourceBlock>, prev: Chunk, cur: Chunk, overlap: int, count: string -> nat)
    returns (chunk: Chunk)
    ensures chunk == Merged(byId, prev, cur, overlap, count)
  {
    hide Assemble, Looked, Joined, Carry;
    if cur.atomic || prev.atomic {
      return cur;
    }
    var carry := Carry(byId, prev, overlap, count);
    if carry == [] {
      return cur;
    }
    var merged := carry + Looked(byId, cur.blockIds);
    var assembled := Assemble(cur.seqNo, Joined(merged), merged, count);
    chunk := if assembled.Some? then assembled.value else cur;
  }

  method ApplyBlockOverlap(chunks: seq<Chunk>, blocks: seq<SourceBlock>, overlap: int, count: string -> nat)
    returns (out: seq<Chunk>)
    ensures out == WithBlockOverlap(chunks, blocks, overlap, count)
  {
    hide Merged, ById;
    var byId := ById(blocks);
    out := [];
    for k := 0 to |chunks|
      invariant out == WithBlockOverlap(chunks, blocks, overlap, count)[..k]
    {
      if k == 0 {
        out := out + [chunks[k]];
      } else {
        var chunk := MergeBlocks(byId, chunks[k - 1], chunks[k], overlap, count);
        out := out + [chunk];
      }
    }
  }

  method ChunkLayout(blocks: seq<SourceBlock>, target: int, overlap: int,
                     count: string -> nat) returns (chunks: seq<Chunk>)
    ensures chunks ==
      if overlap > 0 then WithBlockOverlap(PlainChunks(blocks, target, count), Prepare(blocks), overlap, count)
      else PlainChunks(blocks, target, count)
  {
    var prepared := Prepare(blocks);
    chunks := PackBlocks(prepared, target, count);
    if overlap > 0 {
      chunks := ApplyBlockOverlap(chunks, prepared, overlap, count);
    }
  }

  // ---------------------------------------------------------------- what the chunks promise

  lemma {:induction false} JoinHasText(parts: seq<string>)
    requires parts != []
    requires forall k :: 0 <= k < |parts| ==>
      parts[k] != "" && !IsSpace(parts[k][0]) && !IsSpace(parts[k][|parts[k]| - 1])
    ensures Join(parts, BLOCK_JOIN) != "" && !IsSpace(Join(parts, BLOCK_JOIN)[0])
    ensures !IsSpace(Join(parts, BLOCK_JOIN)[|Join(parts, BLOCK_JOIN)| - 1])
  {
    hide IsSpace;
    if |parts| > 1 {
      JoinHasText(parts[..|parts| - 1]);
    }
  }

  /** What the chunk of a group is: numbered, naming its blocks, holding their trimmed texts
      two line breaks apart, with the pages, characters and heading trail of its blocks, and
      marked when it is a table or figure. */
  ghost predicate Holds(c: Chunk, seqNo: nat, g: seq<SourceBlock>, count: string -> nat) {
    && g != []
    && c.seqNo == seqNo && c.blockIds == Ids(g) && c.tokenCount == count(c.text)
    && c.text == Joined(g)
    && (c.atomic <==> g[0].IsAtomic())
    && c.pages == PageRange(g) && c.chars == CharRange(g) && c.sectionPath == DeepestPath(g)
  }

  lemma TextedGroupYields(seqNo: nat, g: seq<SourceBlock>, count: string -> nat)
    requires g != [] && Texted(g) && (g[0].IsAtomic() ==> |g| == 1)
    ensures ChunkOf(seqNo, g, count).Some? && Holds(ChunkOf(seqNo, g, count).value, seqNo, g, count)
  {
    hide IsSpace, Strip, PageRange, CharRange, DeepestPath, Ids, Texted;
    TrimmedIsSolid(g);
    JoinHasText(Trimmed(g));
    SolidStrips(Joined(g));
  }

  lemma TrimmedIsSolid(g: seq<SourceBlock>)
    requires Texted(g)
    ensures forall k :: 0 <= k < |g| ==>
      Trimmed(g)[k] != "" && !IsSpace(Trimmed(g)[k][0]) && !IsSpace(Trimmed(g)[k][|Trimmed(g)[k]| - 1])
  {
    hide IsSpace, Strip;
    forall k | 0 <= k < |g|
      ensures Trimmed(g)[k] != "" && !IsSpace(Trimmed(g)[k][0]) && !IsSpace(Trimmed(g)[k][|Trimmed(g)[k]| - 1]) {
      assert g[k] in g;
      StripIsSolid(g[k].text);
    }
  }

  ghost predicate AllTexted(groups: seq<seq<SourceBlock>>) {
    forall k :: 0 <= k < |groups| ==>
      groups[k] != [] && Texted(groups[k]) && (groups[k][0].IsAtomic() ==> |groups[k]| == 1)
  }

  /** Every group becomes a chunk. */
  lemma {:induction false} EveryGroupYields(groups: seq<seq<SourceBlock>>, count: string -> nat)
    requires AllTexted(groups)
    ensures |ChunksOfGroups(groups, count)| == |groups|
    ensures forall k :: 0 <= k < |groups| ==> Holds(ChunksOfGroups(groups, count)[k], k, groups[k], count)
  {
    hide Holds, ChunkOf, Texted;
    if groups != [] {
      EveryGroupYields(groups[..|groups| - 1], count);
      TextedGroupYields(|groups| - 1, groups[|groups| - 1], count);
    }
  }

  lemma {:induction false} FlatMembers(groups: seq<seq<SourceBlock>>, k: nat, b: SourceBlock)
    requires k < |groups| && b in groups[k]
    ensures b in Flat(groups)
  {
    if k > 0 {
      FlatMembers(groups[1..], k - 1, b);
    }
  }

  lemma {:induction false} GroupsAreTexted(blocks: seq<SourceBlock>, target: int, count: string -> nat)
    ensures AllTexted(Grouped(Prepare(blocks), [], target, count))
  {
    hide Grouped, Spent;
    var prepared := Prepare(blocks);
    var groups: seq<seq<SourceBlock>> := Grouped(prepared, [], target, count);
    PreparedIsTexted(blocks);
    GroupsKeepBlocks(prepared, [], target, count);
    assert [] + prepared == prepared;
    forall k | 0 <= k < |groups|
      ensures groups[k] != [] && Texted(groups[k]) && (groups[k][0].IsAtomic() ==> |groups[k]| == 1) {
      GroupsAreOk(prepared, [], target, count, k);
      forall b: SourceBlock | b in groups[k] ensures Strip(b.text) != "" {
        FlatMembers(groups, k, b);
      }
    }
  }

  /** Before overlap the chunks are exactly the groups, and the groups are the prepared blocks,
      in order, none lost or repeated. */
  lemma {:induction false} LayoutPartitions(blocks: seq<SourceBlock>, target: int, count: string -> nat)
    ensures var groups, chunks := Grouped(Prepare(blocks), [], target, count), PlainChunks(blocks, target, count);
      && |chunks| == |groups| && Flat(groups) == Prepare(blocks)
      && (forall k :: 0 <= k < |groups| ==> Holds(chunks[k], k, groups[k], count) && GroupOk(groups[k], target, count))
      && AllApart(groups, target, count)
  {
    hide Grouped, Spent, Holds, GroupOk, AllTexted, AllApart;
    var prepared := Prepare(blocks);
    var groups: seq<seq<SourceBlock>> := Grouped(prepared, [], target, count);
    GroupsAreTexted(blocks, target, count);
    YieldsOfTexted(groups, count);
    GroupsKeepBlocks(prepared, [], target, count);
    assert [] + prepared == prepared;
    forall k | 0 <= k < |groups| ensures GroupOk(groups[k], target, count) {
      GroupsAreOk(prepared, [], target, count, k);
    }
    GroupsAreApart(prepared, [], target, count);
  }

  lemma {:induction false} YieldsOfTexted(groups: seq<seq<SourceBlock>>, count: string -> nat)
    requires AllTexted(groups)
    ensures NonEmpty(groups) && |ChunksOfGroups(groups, count)| == |groups|
    ensures forall k :: 0 <= k < |groups| ==> Holds(ChunksOfGroups(groups, count)[k], k, groups[k], count)
  {
    hide Holds;
    EveryGroupYields(groups, count);
  }

  // ---------------------------------------------------------------- what the overlap changes

  ghost predicate HasId(blocks: seq<SourceBlock>, id: string) {
    exists b :: b in blocks && b.id == id
  }

  lemma {:induction false} ByIdFinds(blocks: seq<SourceBlock>, id: string)
    ensures id in ById(blocks) <==> HasId(blocks, id)
    ensures id in ById(blocks) ==> ById(blocks)[id].id == id && ById(blocks)[id] in blocks
  {
    if blocks != [] {
      var front, last := blocks[..|blocks| - 1], blocks[|blocks| - 1];
      ByIdFinds(front, id);
      assert forall b :: b in blocks <==> b in front || b == last;
    }
  }

  ghost predicate Known(blocks: seq<SourceBlock>, ids: seq<string>) {
    forall id :: id in ids ==> HasId(blocks, id)
  }

  lemma {:induction false} LookedIds(blocks: seq<SourceBlock>, ids: seq<string>)
    requires Known(blocks, ids)
    ensures Ids(Looked(ById(blocks), ids)) == ids
    ensures forall b :: b in Looked(ById(blocks), ids) ==> b in blocks
  {
    hide ById, HasId;
    if ids != [] {
      var front, last := ids[..|ids| - 1], ids[|ids| - 1];
      assert last in ids && forall id :: id in front ==> id in ids;
      LookedIds(blocks, front);
      ByIdFinds(blocks, last);
    }
  }

  /** What a chunk with a carried block is. */
  ghost predicate HoldsMerged(c: Chunk, seqNo: nat, merged: seq<SourceBlock>, count: string -> nat) {
    && c.seqNo == seqNo && c.blockIds == Ids(merged) && c.text == Joined(merged) && c.tokenCount == count(c.text)
    && c.pages == PageRange(merged) && c.chars == CharRange(merged) && c.sectionPath == DeepestPath(merged)
    && !c.atomic
  }

  /** Whether the last block of the chunk before is carried over. */
  ghost predicate Carries(blocks: seq<SourceBlock>, prev: Chunk, cur: Chunk, overlap: int, count: string -> nat) {
    && !prev.atomic && !cur.atomic
    && prev.blockIds != []
    && prev.blockIds[|prev.blockIds| - 1] in ById(blocks)
    && count(ById(blocks)[prev.blockIds[|prev.blockIds| - 1]].text) <= overlap
  }

  /** The carried block and the chunk's own, as looked up by their ids. */
  function MergedOf(blocks: seq<SourceBlock>, prev: Chunk, cur: Chunk): seq<SourceBlock>
    requires prev.blockIds != [] && prev.blockIds[|prev.blockIds| - 1] in ById(blocks)
  {
    [ById(blocks)[prev.blockIds[|prev.blockIds| - 1]]] + Looked(ById(blocks), cur.blockIds)
  }

  /** A chunk that carries a block names it first and then its own; any other stays as it is. */
  lemma {:induction false} MergedGains(blocks: seq<SourceBlock>, prev: Chunk, cur: Chunk, overlap: int,
                                       count: string -> nat)
    requires Texted(blocks) && Known(blocks, cur.blockIds)
    ensures var merged := Merged(ById(blocks), prev, cur, overlap, count);
      if Carries(blocks, prev, cur, overlap, count) then
        && merged.blockIds == [prev.blockIds[|prev.blockIds| - 1]] + cur.blockIds
        && HoldsMerged(merged, cur.seqNo, MergedOf(blocks, prev, cur), count)
      else merged == cur
  {
    hide ById, HasId, Looked, Joined, Strip, DeepestPath, PageRange, CharRange, Texted;
    if Carries(blocks, prev, cur, overlap, count) {
      MergedBlocks(blocks, prev.blockIds[|prev.blockIds| - 1], cur.blockIds);
      TextedYields(cur.seqNo, MergedOf(blocks, prev, cur), count);
    }
  }

  lemma {:induction false} MergedBlocks(blocks: seq<SourceBlock>, last: string, ids: seq<string>)
    requires Texted(blocks) && last in ById(blocks) && Known(blocks, ids)
    ensures var merged := [ById(blocks)[last]] + Looked(ById(blocks), ids);
      Texted(merged) && Ids(merged) == [last] + ids
  {
    hide ById, Looked, Strip, HasId;
    ByIdFinds(blocks, last);
    LookedIds(blocks, ids);
  }

  lemma TextedYields(seqNo: nat, g: seq<SourceBlock>, count: string -> nat)
    requires g != [] && Texted(g)
    ensures Assemble(seqNo, Joined(g), g, count).Some? && Strip(Joined(g)) == Joined(g)
  {
    forall k | 0 <= k < |g|
      ensures Trimmed(g)[k] != "" && !IsSpace(Trimmed(g)[k][0]) && !IsSpace(Trimmed(g)[k][|Trimmed(g)[k]| - 1]) {
      assert g[k] in g;
      StripIsSolid(g[k].text);
    }
    hide IsSpace, Strip;
    JoinHasText(Trimmed(g));
    SolidStrips(Joined(g));
  }

  lemma {:induction false} GroupIdsKnown(blocks: seq<SourceBlock>, groups: seq<seq<SourceBlock>>, k: nat)
    requires k < |groups| && Flat(groups) == blocks
    ensures Known(blocks, Ids(groups[k]))
  {
    forall id | id in Ids(groups[k]) ensures HasId(blocks, id) {
      var i :| 0 <= i < |groups[k]| && Ids(groups[k])[i] == id;
      FlatMembers(groups, k, groups[k][i]);
    }
  }

  /** After overlap the first chunk, tables and figures, and chunks after those are unchanged;
      every other gains at most one block, the last of the chunk before, put first: its text,
      pages, characters and heading trail are those of the blocks it now has. */
  lemma LayoutOverlapGains(blocks: seq<SourceBlock>, target: int, overlap: int, count: string -> nat, k: nat)
    requires k < |PlainChunks(blocks, target, count)|
    ensures var plain := PlainChunks(blocks, target, count);
      var led := WithBlockOverlap(plain, Prepare(blocks), overlap, count)[k];
      if k > 0 && Carries(Prepare(blocks), plain[k - 1], plain[k], overlap, count) then
        && led.blockIds == [plain[k - 1].blockIds[|plain[k - 1].blockIds| - 1]] + plain[k].blockIds
        && HoldsMerged(led, k, MergedOf(Prepare(blocks), plain[k - 1], plain[k]), count)
      else led == plain[k]
  {
    hide Grouped, Spent, GroupOk, AllApart, ChunksOfGroups, Carries, Merged, MergedOf, HoldsMerged, ById, Looked,
      PageRange, CharRange, DeepestPath, Joined;
    var prepared := Prepare(blocks);
    var groups: seq<seq<SourceBlock>> := Grouped(prepared, [], target, count);
    LayoutPartitions(blocks, target, count);
    PreparedIsTexted(blocks);
    if k > 0 {
      GroupIdsKnown(prepared, groups, k);
      var plain := PlainChunks(blocks, target, count);
      assert Holds(plain[k], k, groups[k], count);
      MergedGains(prepared, plain[k - 1], plain[k], overlap, count);
    }
  }

  ghost predicate DistinctIds(blocks: seq<SourceBlock>) {
    forall j, k :: 0 <= j < k < |blocks| ==> blocks[j].id != blocks[k].id
  }

  lemma ByIdIsItself(blocks: seq<SourceBlock>, b: SourceBlock)
    requires DistinctIds(blocks) && b in blocks
    ensures b.id in ById(blocks) && ById(blocks)[b.id] == b
  {
    hide ById;
    ByIdFinds(blocks, b.id);
  }

  lemma {:induction false} LookedIsItself(blocks: seq<SourceBlock>, g: seq<SourceBlock>)
    requires DistinctIds(blocks) && forall b :: b in g ==> b in blocks
    ensures Looked(ById(blocks), Ids(g)) == g
  {
    hide ById, DistinctIds;
    if g != [] {
      var front, last := g[..|g| - 1], g[|g| - 1];
      LookedIsItself(blocks, front);
      ByIdIsItself(blocks, last);
      assert Ids(g)[..|g| - 1] == Ids(front);
    }
  }

  lemma {:induction false} JoinFirst(first: string, parts: seq<string>)
    requires parts != []
    ensures Join([first] + parts, BLOCK_JOIN) == first + BLOCK_JOIN + Join(parts, BLOCK_JOIN)
  {
    var front := parts[..|parts| - 1];
    var all := [first] + parts;
    assert all[..|all| - 1] == [first] + front;
    if front == [] {
      assert [first] + front == [first];
      assert Join([first], BLOCK_JOIN) == first;
    } else {
      JoinFirst(first, front);
    }
  }

  lemma JoinedFirst(b: SourceBlock, g: seq<SourceBlock>)
    requires g != []
    ensures Joined([b] + g) == Strip(b.text) + BLOCK_JOIN + Joined(g)
  {
    hide Strip, Join;
    assert Trimmed([b] + g) == [Strip(b.text)] + Trimmed(g);
    JoinFirst(Strip(b.text), Trimmed(g));
  }

  /** With ids that tell the blocks apart, a chunk that carries a block is the chunk of its own
      group with the last block of the group before put first; its old text follows. */
  lemma LayoutOverlapLeads(blocks: seq<SourceBlock>, target: int, overlap: int, count: string -> nat, k: nat)
    requires DistinctIds(Prepare(blocks)) && 0 < k < |PlainChunks(blocks, target, count)|
    requires Carries(Prepare(blocks), PlainChunks(blocks, target, count)[k - 1], PlainChunks(blocks, target, count)[k],
                     overlap, count)
    ensures var plain, groups := PlainChunks(blocks, target, count), Grouped(Prepare(blocks), [], target, count);
      var led := WithBlockOverlap(plain, Prepare(blocks), overlap, count)[k];
      && |groups| == |plain| && groups[k - 1] != []
      && var carried := groups[k - 1][|groups[k - 1]| - 1];
        HoldsMerged(led, k, [carried] + groups[k], count)
        && led.text == Strip(carried.text) + BLOCK_JOIN + plain[k].text
  {
    hide Grouped, Spent, GroupOk, AllApart, ChunksOfGroups, Carries, Merged, Strip, ById, Looked, DistinctIds;
    var prepared := Prepare(blocks);
    var plain, groups := PlainChunks(blocks, target, count), Grouped(prepared, [], target, count);
    LayoutPartitions(blocks, target, count);
    LayoutOverlapGains(blocks, target, overlap, count, k);
    assert Holds(plain[k - 1], k - 1, groups[k - 1], count) && Holds(plain[k], k, groups[k], count);
    forall j, b | 0 <= j < |groups| && b in groups[j] ensures b in prepared {
      FlatMembers(groups, j, b);
    }
    var carried := groups[k - 1][|groups[k - 1]| - 1];
    ByIdIsItself(prepared, carried);
    LookedIsItself(prepared, groups[k]);
    JoinedFirst(carried, groups[k]);
  }

  // ---------------------------------------------------------------- the overshoot

  lemma {:induction false} JoinTokens(group: seq<SourceBlock>, isWord: char -> bool)
    requires Sane(isWord)
    ensures TokenCount(Joined(group), isWord) == TotalTokens(BlockTexts(group), isWord)
  {
    hide TokenCount, Strip;
    if group == [] {
      NoTokens(isWord);
    } else {
      var front, last := group[..|group| - 1], group[|group| - 1];
      JoinTokens(front, isWord);
      assert BlockTexts(group)[..|group| - 1] == BlockTexts(front) && Trimmed(group)[..|group| - 1] == Trimmed(front);
      TrimmingKeepsTokens(last.text, isWord);
      if front == [] {
        NoTokens(isWord);
      } else {
        GapHasNoTokens(Joined(front), Strip(last.text), isWord);
      }
    }
  }

  lemma NoTokens(isWord: char -> bool)
    ensures TokenCount("", isWord) == 0
  {
  }

  lemma {:induction false} GapHasNoTokens(a: string, b: string, isWord: char -> bool)
    requires Sane(isWord)
    ensures TokenCount(a + BLOCK_JOIN + b, isWord) == TokenCount(a, isWord) + TokenCount(b, isWord)
  {
    JoinIsSpace();
    SpacesHaveNone(BLOCK_JOIN, isWord);
    hide TokenCount, IsSpace;
    TokensAdd(a, BLOCK_JOIN, isWord);
    assert (a + BLOCK_JOIN)[|a + BLOCK_JOIN| - 1] == BLOCK_JOIN[1];
    TokensAdd(a + BLOCK_JOIN, b, isWord);
  }

  /** A chunk of two or more blocks counts, by the approximate counter, at most thirty per cent
      more than the target, rounded. */
  lemma LayoutOvershoot(blocks: seq<SourceBlock>, target: int, count: string -> nat, isWord: char -> bool, k: nat)
    requires Approximates(count, isWord) && k < |PlainChunks(blocks, target, count)|
    requires |PlainChunks(blocks, target, count)[k].blockIds| > 1
    ensures target >= 0 && PlainChunks(blocks, target, count)[k].tokenCount <= Tenths(13 * target)
  {
    hide Grouped, AllApart, ChunksOfGroups, Approximates;
    LayoutPartitions(blocks, target, count);
    var g := Grouped(Prepare(blocks), [], target, count)[k];
    assert Spent(g, count) <= target;
    GroupCounts(g, target, count, isWord);
  }

  lemma GroupCounts(g: seq<SourceBlock>, target: nat, count: string -> nat, isWord: char -> bool)
    requires Approximates(count, isWord) && Spent(g, count) <= target
    ensures count(Joined(g)) <= Tenths(13 * target)
  {
    hide TokenCount;
    JoinTokens(g, isWord);
    PackedOvershoot(BlockTexts(g), Joined(g), target, count, isWord);
  }
}
