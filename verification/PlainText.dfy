/** Text that is split at blank lines, and rows that are grouped under their header. */
module PlainText {
  import opened Texts
  import opened Ranges
  import opened FlowText
  import opened Markdown

  // ---------------------------------------------------------------- paragraphs

  function EmitRanges(text: string, ranges: seq<Range>): seq<FlowBlock>
    requires RangesIn(text, ranges)
  {
    if ranges == [] then []
    else
      EmitRanges(text, ranges[..|ranges| - 1])
      + Emit(text, ranges[|ranges| - 1].0, ranges[|ranges| - 1].1, Paragraph, [])
  }

  lemma {:induction false} EmitOneMore(text: string, ranges: seq<Range>, r: Range)
    requires RangesIn(text, ranges) && RangeIn(text, r)
    ensures RangesIn(text, ranges + [r])
    ensures EmitRanges(text, ranges + [r]) == EmitRanges(text, ranges) + Emit(text, r.0, r.1, Paragraph, [])
  {
    hide Emit;
    assert (ranges + [r])[..|ranges|] == ranges;
  }

  /** The pieces between blank-line breaks. */
  function Pieces(text: string, breaks: seq<Range>): (r: seq<Range>)
    requires BreaksOk(text, breaks)
    ensures RangesIn(text, r) && BoundsOk(text, r, 0)
  {
    BoundsAreOk(text, breaks, 0);
    BoundsInDoc(text, Bounds(text, breaks, 0));
    Bounds(text, breaks, 0)
  }

  method SplitPlain(text: string, breaks: seq<Range>) returns (blocks: seq<FlowBlock>)
    requires BreaksOk(text, breaks)
    ensures blocks == EmitRanges(text, Pieces(text, breaks))
  {
    hide Emit, IsSpace, BoundsOk;
    var pieces := FindBounds(text, breaks);
    assert pieces == Pieces(text, breaks);
    blocks := [];
    for k := 0 to |pieces|
      invariant RangesIn(text, pieces[..k]) && blocks == EmitRanges(text, pieces[..k])
    {
      EmitOneMore(text, pieces[..k], pieces[k]);
      assert pieces[..k] + [pieces[k]] == pieces[..k + 1];
      var block := Emit(text, pieces[k].0, pieces[k].1, Paragraph, []);
      blocks := blocks + block;
    }
    assert pieces[..|pieces|] == pieces;
  }

  /** Where a range's block ends up. */
  lemma {:induction false} BlockOfRange(text: string, ranges: seq<Range>, k: nat, p: nat) returns (b: nat)
    requires RangesIn(text, ranges) && k < |ranges| && ranges[k].0 <= p < ranges[k].1 && !IsSpace(text[p])
    ensures b < |EmitRanges(text, ranges)|
    ensures var block := EmitRanges(text, ranges)[b];
      Exact(text, block) && Holds(block, p) && ranges[k].0 <= block.charStart && block.charEnd <= ranges[k].1
  {
    hide Emit, IsSpace;
    var n := |ranges| - 1;
    if k == n {
      EmitExact(text, ranges[n].0, ranges[n].1, Paragraph, [], p);
      b := |EmitRanges(text, ranges[..n])|;
    } else {
      b := BlockOfRange(text, ranges[..n], k, p);
    }
  }

  lemma EmitHasText(text: string, start: nat, end: nat)
    requires start <= end <= |text| && Emit(text, start, end, Paragraph, []) != []
    ensures var e := Emit(text, start, end, Paragraph, []);
      |e| == 1 && Exact(text, e[0]) && start <= e[0].charStart && e[0].charEnd <= end
      && e[0].kind == Paragraph && e[0].sectionPath == []
  {
    hide IsSpace, Lead, Trail, Exact;
    var raw := text[start..end];
    if Blank(raw) {
      BlankStrips(raw);
    } else {
      var i :| 0 <= i < |raw| && !IsSpace(raw[i]);
      EmitExact(text, start, end, Paragraph, [], start + i);
    }
  }

  lemma {:induction false} BlocksInOrder(text: string, ranges: seq<Range>, b: nat)
    requires InOrder(text, ranges) && b < |EmitRanges(text, ranges)|
    ensures var blocks := EmitRanges(text, ranges);
      && Exact(text, blocks[b]) && blocks[b].kind == Paragraph && blocks[b].sectionPath == []
      && ranges != [] && blocks[b].charEnd <= ranges[|ranges| - 1].1
      && forall a :: 0 <= a < b ==> blocks[a].charEnd <= blocks[b].charStart
    decreases |ranges|
  {
    hide Emit, IsSpace, Exact;
    var n := |ranges| - 1;
    var front, last := ranges[..n], ranges[n];
    if b < |EmitRanges(text, front)| {
      BlocksInOrder(text, front, b);
      assert front[n - 1].1 <= last.0;
    } else {
      EmitHasText(text, last.0, last.1);
      forall a | 0 <= a < b ensures EmitRanges(text, ranges)[a].charEnd <= EmitRanges(text, ranges)[b].charStart {
        BlocksInOrder(text, front, a);
        assert front[n - 1].1 <= last.0;
      }
    }
  }

  /** Paragraphs are exact slices of the text, in order and apart, filed under no section. */
  lemma {:induction false} PlainBlocksAreExact(text: string, breaks: seq<Range>, b: nat)
    requires BreaksOk(text, breaks) && b < |EmitRanges(text, Pieces(text, breaks))|
    ensures var blocks := EmitRanges(text, Pieces(text, breaks));
      && Exact(text, blocks[b]) && blocks[b].kind == Paragraph && blocks[b].sectionPath == []
      && forall a :: 0 <= a < b ==> blocks[a].charEnd <= blocks[b].charStart
  {
    hide BoundsOk, Exact, Emit;
    BoundsInOrder(text, Pieces(text, breaks));
    BlocksInOrder(text, Pieces(text, breaks), b);
  }

  /** Every character that is not whitespace is in a paragraph. */
  lemma PlainLosesNothing(text: string, breaks: seq<Range>, p: nat) returns (b: nat)
    requires BreaksOk(text, breaks) && p < |text| && !IsSpace(text[p])
    ensures var blocks := EmitRanges(text, Pieces(text, breaks));
      b < |blocks| && Holds(blocks[b], p)
  {
    hide IsSpace, BoundsOk, Emit;
    var k := TextInBounds(text, Pieces(text, breaks), 0, p);
    b := BlockOfRange(text, Pieces(text, breaks), k, p);
  }

  // ---------------------------------------------------------------- rows

  /** Lines from `i` on that are not blank. */
  function Rows(texts: seq<string>, i: nat): seq<nat>
    requires i <= |texts|
    decreases |texts| - i
  {
    if i == |texts| then []
    else (if Strip(texts[i]) != "" then [i] else []) + Rows(texts, i + 1)
  }

  ghost predicate Rising(rows: seq<nat>, n: nat) {
    && (forall k :: 0 <= k < |rows| ==> rows[k] < n)
    && (forall j, k :: 0 <= j < k < |rows| ==> rows[j] < rows[k])
  }

  lemma NoRows(n: nat)
    ensures Rising([], n)
  {
  }

  lemma RowAbove(row: nat, rows: seq<nat>, n: nat)
    requires row < n && Rising(rows, n) && forall k :: 0 <= k < |rows| ==> row < rows[k]
    ensures Rising([row] + rows, n) && forall k :: 0 <= k < |[row] + rows| ==> row <= ([row] + rows)[k]
  {
  }

  lemma {:induction false} RowsRise(texts: seq<string>, i: nat)
    requires i <= |texts|
    ensures Rising(Rows(texts, i), |texts|) && forall k :: 0 <= k < |Rows(texts, i)| ==> i <= Rows(texts, i)[k]
    decreases |texts| - i
  {
    hide Strip, Rising;
    if i < |texts| {
      RowsRise(texts, i + 1);
      var rest := Rows(texts, i + 1);
      if Strip(texts[i]) != "" {
        assert Rows(texts, i) == [i] + rest;
        RowAbove(i, rest, |texts|);
      } else {
        assert Rows(texts, i) == [] + rest == rest;
      }
    } else {
      NoRows(|texts|);
    }
  }

  lemma RowsAhead(texts: seq<string>, i: nat)
    requires i < |texts|
    ensures Rows(texts, i) == (if Strip(texts[i]) != "" then [i] else []) + Rows(texts, i + 1)
  {
  }

  /** Exactly the lines that are not blank. */
  lemma {:induction false} RowsAre(texts: seq<string>, i: nat, l: nat)
    requires i <= |texts|
    ensures l in Rows(texts, i) <==> i <= l < |texts| && Strip(texts[l]) != ""
    decreases |texts| - i
  {
    hide Strip;
    if i < |texts| {
      RowsAre(texts, i + 1, l);
      RowsAhead(texts, i);
      hide Rows;
    }
  }

  lemma RowsOne(texts: seq<string>, i: nat)
    requires i < |texts|
    ensures Rows(texts, i) == if Strip(texts[i]) != "" then [i] + Rows(texts, i + 1) else Rows(texts, i + 1)
    ensures Strip(texts[i]) != ""
      ==> Rows(texts, i) != [] && Rows(texts, i)[0] == i && Rows(texts, i)[1..] == Rows(texts, i + 1)
  {
    hide Strip;
  }

  /** The block of a group of rows: their lines as they stand, under the header line. */
  function TableBlock(text: string, lines: seq<Line>, header: string, group: seq<nat>): FlowBlock
    requires group != [] && group[0] < |lines| && group[|group| - 1] < |lines|
    requires lines[group[0]].start <= lines[group[|group| - 1]].next <= |text|
  {
    var start := lines[group[0]].start;
    var body := RStrip(text[start..lines[group[|group| - 1]].next]);
    FlowBlock(Table, if header != "" then header + "\n" + body else body, start, start + |body|, [])
  }

  /** Rows in groups of `size`, the last one perhaps smaller. */
  function Batches(rows: seq<nat>, held: seq<nat>, size: int): seq<seq<nat>>
    decreases |rows|
  {
    if rows == [] then if held == [] then [] else [held]
    else if |held| + 1 >= size then [held + [rows[0]]] + Batches(rows[1..], [], size)
    else Batches(rows[1..], held + [rows[0]], size)
  }

  function FlatRows(batches: seq<seq<nat>>): seq<nat> {
    if batches == [] then [] else batches[0] + FlatRows(batches[1..])
  }

  /** Batches hold the rows in order, none lost or repeated; every one but the last is full. */
  lemma {:induction false} BatchesKeepRows(rows: seq<nat>, held: seq<nat>, size: int)
    requires |held| == 0 || |held| < size
    ensures var full := if size < 1 then 1 else size;
      var batches := Batches(rows, held, size);
      && FlatRows(batches) == held + rows
      && (forall k :: 0 <= k < |batches| ==> 0 < |batches[k]| <= full && (k < |batches| - 1 ==> |batches[k]| == full))
    decreases |rows|
  {
    if rows == [] {
      assert held + rows == held;
      assert [held][1..] == [];
    } else if |held| + 1 >= size {
      BatchesKeepRows(rows[1..], [], size);
      assert held + rows == held + [rows[0]] + rows[1..];
    } else {
      BatchesKeepRows(rows[1..], held + [rows[0]], size);
      assert held + rows == held + [rows[0]] + rows[1..];
    }
  }

  /** The batches of a table: the rows after the header, if there is one. */
  function TableBatches(text: string, hasHeader: bool, size: int): seq<seq<nat>> {
    var texts := LineTexts(text, Lines(text, 0));
    Batches(Rows(texts, if hasHeader && texts != [] then 1 else 0), [], size)
  }

  function HeaderOf(text: string, hasHeader: bool): string {
    var texts := LineTexts(text, Lines(text, 0));
    if hasHeader && texts != [] then texts[0] else ""
  }

  /** Batches of lines of the text, in order. */
  ghost predicate BatchesIn(batches: seq<seq<nat>>, n: nat) {
    && (forall k :: 0 <= k < |batches| ==> batches[k] != [] && Rising(batches[k], n))
    && (forall j, k :: 0 <= j < k < |batches| ==>
          batches[j] != [] && batches[k] != [] && batches[j][|batches[j]| - 1] < batches[k][0])
  }

  lemma {:induction false} BatchesRise(rows: seq<nat>, held: seq<nat>, size: int, n: nat)
    requires Rising(held + rows, n)
    ensures BatchesIn(Batches(rows, held, size), n)
    ensures forall k, r :: 0 <= k < |Batches(rows, held, size)| && r in Batches(rows, held, size)[k] ==>
      r in held + rows
    decreases |rows|
  {
    if rows == [] {
      assert held + rows == held;
    } else {
      hide BatchesIn;
      var r, rest := rows[0], rows[1..];
      assert held + rows == held + [r] + rest;
      if |held| + 1 >= size {
        RestRises(held + [r], rest, n);
        assert [] + rest == rest;
        BatchesRise(rest, [], size, n);
        BatchBefore(held + [r], rest, Batches(rest, [], size), n);
      } else {
        BatchesRise(rest, held + [r], size, n);
      }
    }
  }

  lemma RestRises(front: seq<nat>, rest: seq<nat>, n: nat)
    requires Rising(front + rest, n)
    ensures Rising(rest, n)
  {
    var all := front + rest;
    assert forall k :: 0 <= k < |rest| ==> rest[k] == all[|front| + k];
  }

  lemma BatchBefore(batch: seq<nat>, rest: seq<nat>, batches: seq<seq<nat>>, n: nat)
    requires batch != [] && Rising(batch + rest, n) && BatchesIn(batches, n)
    requires forall k, r :: 0 <= k < |batches| && r in batches[k] ==> r in rest
    ensures BatchesIn([batch] + batches, n)
  {
    var all := batch + rest;
    assert forall k :: 0 <= k < |batch| ==> batch[k] == all[k];
    assert forall k :: 0 <= k < |rest| ==> rest[k] == all[|batch| + k];
    forall k | 0 <= k < |batches| ensures batch[|batch| - 1] < batches[k][0] {
      assert batches[k][0] in batches[k] && batches[k][0] in rest;
      var i :| 0 <= i < |rest| && rest[i] == batches[k][0];
    }
  }

  lemma {:induction false} BatchesAreIn(text: string, hasHeader: bool, size: int)
    ensures BatchesIn(TableBatches(text, hasHeader, size), |Lines(text, 0)|)
  {
    var texts := LineTexts(text, Lines(text, 0));
    var rows := Rows(texts, if hasHeader && texts != [] then 1 else 0);
    assert [] + rows == rows;
    RowsRise(texts, if hasHeader && texts != [] then 1 else 0);
    BatchesRise(rows, [], size, |texts|);
  }

  lemma BatchSpans(text: string, lines: seq<Line>, batch: seq<nat>)
    requires Laid(text, lines) && batch != [] && Rising(batch, |lines|)
    ensures batch[0] <= batch[|batch| - 1] < |lines|
    ensures lines[batch[0]].start <= lines[batch[|batch| - 1]].next <= |text|
  {
    SpanIsOrdered(text, lines, batch[0], batch[|batch| - 1]);
  }

  ghost predicate IsTable(text: string, lines: seq<Line>, header: string, batch: seq<nat>, block: FlowBlock) {
    && batch != [] && batch[0] < |lines| && batch[|batch| - 1] < |lines|
    && lines[batch[0]].start <= lines[batch[|batch| - 1]].next <= |text|
    && block == TableBlock(text, lines, header, batch)
  }

  ghost predicate AreTables(text: string, lines: seq<Line>, header: string, batches: seq<seq<nat>>,
                            blocks: seq<FlowBlock>) {
    |blocks| == |batches| && forall k :: 0 <= k < |batches| ==> IsTable(text, lines, header, batches[k], blocks[k])
  }

  method FlushGroup(text: string, lines: seq<Line>, header: string, group: seq<nat>, ghost done: seq<seq<nat>>,
                    blocks0: seq<FlowBlock>)
    returns (blocks: seq<FlowBlock>)
    requires Laid(text, lines) && group != [] && Rising(group, |lines|) && AreTables(text, lines, header, done, blocks0)
    ensures AreTables(text, lines, header, done + [group], blocks)
  {
    hide TableBlock, Laid;
    BatchSpans(text, lines, group);
    blocks := blocks0 + [TableBlock(text, lines, header, group)];
  }

  lemma {:induction false} BatchOne(rows: seq<nat>, held: seq<nat>, size: int, done: seq<seq<nat>>)
    requires rows != []
    ensures done + Batches(rows, held, size)
         == if |held| + 1 >= size then done + [held + [rows[0]]] + Batches(rows[1..], [], size)
            else done + Batches(rows[1..], held + [rows[0]], size)
  {
  }

  lemma {:induction false} BatchLast(held: seq<nat>, size: int, done: seq<seq<nat>>)
    ensures done + Batches([], held, size) == if held == [] then done else done + [held]
  {
  }

  lemma RowBelow(rows: seq<nat>, row: nat, n: nat)
    requires Rising(rows, n) && row < n && forall k :: 0 <= k < |rows| ==> rows[k] < row
    ensures Rising(rows + [row], n)
  {
  }

  lemma RowsEnd(texts: seq<string>)
    ensures Rows(texts, |texts|) == []
  {
  }

  method GroupRows(text: string, lines: seq<Line>, texts: seq<string>, header: string, from: nat, size: int)
    returns (blocks: seq<FlowBlock>)
    requires Laid(text, lines) && |texts| == |lines| && from <= |lines|
    ensures AreTables(text, lines, header, Batches(Rows(texts, from), [], size), blocks)
  {
    hide Laid, AreTables, Batches, Strip, Rising, Rows;
    blocks := [];
    var group: seq<nat>, i: nat := [], from;
    ghost var all, done: seq<seq<nat>> := Batches(Rows(texts, from), [], size), [];
    NoTables(text, lines, header);
    NoRows(|lines|);
    while i < |lines|
      invariant i <= |lines| && Rising(group, |lines|) && (forall k :: 0 <= k < |group| ==> group[k] < i)
      invariant all == done + Batches(Rows(texts, i), group, size) && AreTables(text, lines, header, done, blocks)
    {
      RowsOne(texts, i);
      if Strip(texts[i]) != "" {
        BatchOne(Rows(texts, i), group, size, done);
        RowBelow(group, i, |lines|);
        group := group + [i];
        if |group| >= size {
          blocks := FlushGroup(text, lines, header, group, done, blocks);
          done, group := done + [group], [];
        }
      }
      i := i + 1;
    }
    RowsEnd(texts);
    BatchLast(group, size, done);
    if group != [] {
      blocks := FlushGroup(text, lines, header, group, done, blocks);
    }
  }

  lemma NoTables(text: string, lines: seq<Line>, header: string)
    ensures AreTables(text, lines, header, [], [])
  {
  }

  /** One table block for each batch of rows, under the header line. */
  method SplitCsv(text: string, hasHeader: bool, rowsPerBlock: int) returns (blocks: seq<FlowBlock>)
    ensures AreTables(text, Lines(text, 0), HeaderOf(text, hasHeader),
                      TableBatches(text, hasHeader, rowsPerBlock), blocks)
  {
    hide AreTables;
    LinesAreLaid(text, 0);
    var lines := Lines(text, 0);
    if lines == [] {
      NoTables(text, lines, HeaderOf(text, hasHeader));
      return [];
    }
    blocks := GroupRows(text, lines, LineTexts(text, lines), HeaderOf(text, hasHeader),
                        if hasHeader then 1 else 0, rowsPerBlock);
  }

  // ---------------------------------------------------------------- what the tables keep

  /** A table block holds its rows' text exactly: what lies between its offsets, under the
      header, with no whitespace at the end. */
  ghost predicate ExactTable(text: string, header: string, b: FlowBlock) {
    && b.kind == Table && b.sectionPath == []
    && b.charStart < b.charEnd <= |text| && !IsSpace(text[b.charEnd - 1])
    && b.text == (if header != "" then header + "\n" else "") + text[b.charStart..b.charEnd]
  }

  lemma TrimmedTail(text: string, start: nat, end: nat, p: nat)
    requires start <= p < end <= |text| && !IsSpace(text[p])
    ensures var body := RStrip(text[start..end]);
      && p < start + |body| <= end && body == text[start..start + |body|] && !IsSpace(text[start + |body| - 1])
  {
    hide IsSpace;
    var raw := text[start..end];
    TrimKeeps(raw, p - start);
    assert RStrip(raw) == raw[..|raw| - Trail(raw)];
  }

  /** Every character of a row that is not whitespace is in the block of its batch. */
  lemma {:induction false} TableHoldsRow(text: string, header: string, batch: seq<nat>, block: FlowBlock, row: nat,
                                         p: nat)
    requires IsTable(text, Lines(text, 0), header, batch, block) && Rising(batch, |Lines(text, 0)|) && row in batch
    requires Lines(text, 0)[row].start <= p < Lines(text, 0)[row].next && !IsSpace(text[p])
    ensures ExactTable(text, header, block) && Holds(block, p)
    ensures Lines(text, 0)[batch[0]].start == block.charStart
      && block.charEnd <= Lines(text, 0)[batch[|batch| - 1]].next
  {
    hide IsSpace, Lines, RStrip;
    LinesAreLaid(text, 0);
    var lines := Lines(text, 0);
    var first, last := batch[0], batch[|batch| - 1];
    assert first <= row <= last;
    InSpan(text, lines, first, row, last, p);
    TrimmedTail(text, lines[first].start, lines[last].next, p);
  }

  /** A row's block is exact and holds the row; the blocks of later batches start after it ends. */
  lemma CsvKeepsRows(text: string, hasHeader: bool, size: int, blocks: seq<FlowBlock>, row: nat,
                     p: nat) returns (k: nat)
    requires AreTables(text, Lines(text, 0), HeaderOf(text, hasHeader), TableBatches(text, hasHeader, size), blocks)
    requires (if hasHeader then 1 else 0) <= row < |Lines(text, 0)|
    requires Lines(text, 0)[row].start <= p < Lines(text, 0)[row].next && !IsSpace(text[p])
    ensures k < |blocks| && ExactTable(text, HeaderOf(text, hasHeader), blocks[k]) && Holds(blocks[k], p)
  {
    hide IsSpace, TableBlock, Lines, HeaderOf;
    var lines, batches := Lines(text, 0), TableBatches(text, hasHeader, size);
    BatchesAreIn(text, hasHeader, size);
    k := BatchWith(text, hasHeader, size, row, p);
    TableHoldsRow(text, HeaderOf(text, hasHeader), batches[k], blocks[k], row, p);
  }

  lemma {:induction false} InFlat(batches: seq<seq<nat>>, row: nat) returns (k: nat)
    requires row in FlatRows(batches)
    ensures k < |batches| && row in batches[k]
  {
    if row in batches[0] {
      k := 0;
    } else {
      k := InFlat(batches[1..], row);
      k := k + 1;
    }
  }

  lemma BatchWith(text: string, hasHeader: bool, size: int, row: nat, p: nat) returns (k: nat)
    requires (if hasHeader then 1 else 0) <= row < |Lines(text, 0)|
    requires Lines(text, 0)[row].start <= p < Lines(text, 0)[row].next && !IsSpace(text[p])
    ensures k < |TableBatches(text, hasHeader, size)| && row in TableBatches(text, hasHeader, size)[k]
  {
    hide IsSpace, Strip, Batches;
    var texts := LineTexts(text, Lines(text, 0));
    var rows := Rows(texts, if hasHeader && texts != [] then 1 else 0);
    RowIsNotBlank(text, row, p);
    RowsAre(texts, if hasHeader && texts != [] then 1 else 0, row);
    BatchesKeepRows(rows, [], size);
    assert [] + rows == rows;
    k := InFlat(TableBatches(text, hasHeader, size), row);
  }

  lemma {:induction false} RowIsNotBlank(text: string, row: nat, p: nat)
    requires row < |Lines(text, 0)|
    requires Lines(text, 0)[row].start <= p < Lines(text, 0)[row].next && !IsSpace(text[p])
    ensures Strip(LineTexts(text, Lines(text, 0))[row]) != ""
  {
    hide IsSpace, Strip;
    var line := Lines(text, 0)[row];
    if p >= line.stop {
      TerminatorsAreSpace(text, 0, row, p);
    }
    assert LineText(text, line)[p - line.start] == text[p];
    StripEmptyIffBlank(LineText(text, line));
  }

  lemma {:induction false} TableLiesWithin(text: string, header: string, batch: seq<nat>, block: FlowBlock)
    requires IsTable(text, Lines(text, 0), header, batch, block)
    ensures batch[0] < |Lines(text, 0)| && batch[|batch| - 1] < |Lines(text, 0)|
    ensures block.charStart == Lines(text, 0)[batch[0]].start
    ensures block.charEnd <= Lines(text, 0)[batch[|batch| - 1]].next
  {
    hide Lines, RStrip;
    var lines := Lines(text, 0);
    RStripShorter(text[lines[batch[0]].start..lines[batch[|batch| - 1]].next]);
  }

  /** With a header, every table of a text is headed by its first line; without, by nothing. */
  lemma {:induction false} FirstLineHeads(text: string, hasHeader: bool, size: int, blocks: seq<FlowBlock>, k: nat)
    requires AreTables(text, Lines(text, 0), HeaderOf(text, hasHeader), TableBatches(text, hasHeader, size), blocks)
    requires k < |blocks|
    ensures blocks[k].charStart <= blocks[k].charEnd <= |text| && Lines(text, 0) != []
    ensures var line := Lines(text, 0)[0];
      blocks[k].text == (if hasHeader && line.start < line.stop then text[line.start..line.stop] + "\n" else "")
                        + text[blocks[k].charStart..blocks[k].charEnd]
  {
    var header, batch := HeaderOf(text, hasHeader), TableBatches(text, hasHeader, size)[k];
    assert IsTable(text, Lines(text, 0), header, batch, blocks[k]);
    hide *;
    TableIsSlice(text, Lines(text, 0), header, batch, blocks[k]);
    FirstHeader(text, hasHeader);
  }

  lemma TableIsSlice(text: string, lines: seq<Line>, header: string, batch: seq<nat>, b: FlowBlock)
    requires IsTable(text, lines, header, batch, b)
    ensures lines != [] && b.charStart <= b.charEnd <= |text|
    ensures b.text == (if header != "" then header + "\n" else "") + text[b.charStart..b.charEnd]
  {
    hide RStrip;
    var start, end := lines[batch[0]].start, lines[batch[|batch| - 1]].next;
    RStripIsFront(text[start..end]);
    assert RStrip(text[start..end]) == text[b.charStart..b.charEnd];
  }

  lemma RStripIsFront(s: string)
    ensures RStrip(s) <= s
  {
  }

  lemma FirstHeader(text: string, hasHeader: bool)
    requires Lines(text, 0) != []
    ensures var line := Lines(text, 0)[0];
      HeaderOf(text, hasHeader) == if hasHeader && line.start < line.stop then text[line.start..line.stop] else ""
    ensures hasHeader && Lines(text, 0)[0].start < Lines(text, 0)[0].stop <==> HeaderOf(text, hasHeader) != ""
  {
  }

  /** Table blocks follow each other without overlap. */
  lemma {:induction false} CsvBlocksAreApart(text: string, hasHeader: bool, size: int, blocks: seq<FlowBlock>,
                                             j: nat, k: nat)
    requires AreTables(text, Lines(text, 0), HeaderOf(text, hasHeader), TableBatches(text, hasHeader, size), blocks)
    requires j < k < |blocks|
    ensures blocks[j].charEnd <= blocks[k].charStart
  {
    hide IsTable, Lines, HeaderOf;
    var lines, batches := Lines(text, 0), TableBatches(text, hasHeader, size);
    BatchesAreIn(text, hasHeader, size);
    LinesAreLaid(text, 0);
    TableLiesWithin(text, HeaderOf(text, hasHeader), batches[j], blocks[j]);
    TableLiesWithin(text, HeaderOf(text, hasHeader), batches[k], blocks[k]);
    assert lines[batches[j][|batches[j]| - 1]].next <= lines[batches[k][0]].start;
  }
}
