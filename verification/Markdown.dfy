/** The markdown splitter: the scan that emits blocks, and what its blocks keep of the text. */
module Markdown {
  import opened Texts
  import opened FlowText

  // ---------------------------------------------------------------- emitting a block

  /** Trims a span and makes a block of it, unless only whitespace is left. */
  function Emit(text: string, start: nat, end: nat, kind: Kind, section: seq<string>): seq<FlowBlock>
    requires start <= end <= |text|
  {
    var raw := text[start..end];
    if end - Trail(raw) <= start + Lead(raw) then []
    else [FlowBlock(kind, Strip(raw), start + Lead(raw), end - Trail(raw), section)]
  }

  /** The lines of a text, one after the other. */
  ghost predicate Laid(text: string, lines: seq<Line>) {
    && (forall k :: 0 <= k < |lines| ==> lines[k].start <= lines[k].stop <= lines[k].next <= |text|)
    && (forall a, b :: 0 <= a < b < |lines| ==> lines[a].next <= lines[b].start)
  }

  lemma {:induction false} LinesAreLaid(text: string, i: nat)
    requires i <= |text|
    ensures Laid(text, Lines(text, i)) && forall k :: 0 <= k < |Lines(text, i)| ==> i <= Lines(text, i)[k].start
    decreases |text| - i
  {
    if i < |text| {
      LinesAreLaid(text, AfterBreak(text, BreakAt(text, i)));
    }
  }

  /** Every character belongs to a line. */
  lemma {:induction false} LineAt(text: string, i: nat, p: nat) returns (k: nat)
    requires i <= p < |text|
    ensures k < |Lines(text, i)| && Lines(text, i)[k].start <= p < Lines(text, i)[k].next
    decreases |text| - i
  {
    var next := AfterBreak(text, BreakAt(text, i));
    if p < next {
      k := 0;
    } else {
      k := LineAt(text, next, p);
      k := k + 1;
    }
  }

  /** The block of a region: its lines, terminators included, trimmed. */
  ghost function EmitRegion(text: string, lines: seq<Line>, r: Region): seq<FlowBlock> {
    if r.first < r.past <= |lines| && lines[r.first].start <= lines[r.past - 1].next <= |text| then
      Emit(text, lines[r.first].start, lines[r.past - 1].next, r.kind, HeadingTrail(r.heads))
    else []
  }

  ghost function EmitAll(text: string, lines: seq<Line>, regions: seq<Region>): seq<FlowBlock> {
    if regions == [] then []
    else EmitRegion(text, lines, regions[0]) + EmitAll(text, lines, regions[1..])
  }

  lemma {:induction false} EmitAppend(text: string, lines: seq<Line>, a: seq<Region>, b: seq<Region>)
    ensures EmitAll(text, lines, a + b) == EmitAll(text, lines, a) + EmitAll(text, lines, b)
  {
    if a == [] {
      assert a + b == b;
    } else {
      assert (a + b)[1..] == a[1..] + b;
      EmitAppend(text, lines, a[1..], b);
    }
  }

  lemma {:induction false} EmitOne(text: string, lines: seq<Line>, r: Region)
    ensures EmitAll(text, lines, [r]) == EmitRegion(text, lines, r)
  {
    assert EmitAll(text, lines, [r][1..]) == [];
  }

  lemma SpanIsOrdered(text: string, lines: seq<Line>, first: nat, last: nat)
    requires Laid(text, lines) && first <= last < |lines|
    ensures lines[first].start <= lines[first].stop <= lines[last].next <= |text|
  {
  }

  /** The blocks of a markdown text. */
  ghost function Blocks(rules: Rules, text: string): seq<FlowBlock> {
    var lines := Lines(text, 0);
    EmitAll(text, lines, Regions(rules, LineTexts(text, lines), 0, Nothing, []))
  }

  // ---------------------------------------------------------------- the scan

  /** Emits the block that was being gathered, which ends before line `past`. */
  method Flush(text: string, lines: seq<Line>, pending: Pending, past: nat,
               section: seq<string>, ghost heads: seq<Head>)
    returns (r: seq<FlowBlock>)
    requires Laid(text, lines) && past <= |lines| && Behind(pending, past) && section == HeadingTrail(heads)
    ensures r == EmitAll(text, lines, Close(pending, past, heads))
  {
    hide Emit, Lines, Laid, HeadingTrail;
    r := [];
    if pending.Since? {
      SpanIsOrdered(text, lines, pending.first, past - 1);
      EmitOne(text, lines, Region(pending.kind, pending.first, past, heads));
      r := Emit(text, lines[pending.first].start, lines[past - 1].next, pending.kind, section);
    }
  }

  /** Emits lines `first` to `last` as a block of their own. */
  method EmitLines(text: string, lines: seq<Line>, first: nat, last: nat, kind: Kind,
                   section: seq<string>, ghost heads: seq<Head>)
    returns (r: seq<FlowBlock>)
    requires Laid(text, lines) && first <= last < |lines| && section == HeadingTrail(heads)
    ensures r == EmitRegion(text, lines, Region(kind, first, last + 1, heads))
  {
    SpanIsOrdered(text, lines, first, last);
    r := Emit(text, lines[first].start, lines[last].next, kind, section);
  }

  /** Pushes a heading; the stack stays the list of governing headings. */
  method OpenHeading(stack: seq<Head>, h: Head, ghost heads: seq<Head>) returns (r: seq<Head>)
    requires Deepening(stack) && stack == OpenFrom(heads, 0)
    ensures Deepening(r) && r == OpenFrom(heads + [h], 0)
  {
    OpenAppend(heads, h, 0);
    r := PushHeading(stack, h);
  }

  method FindClose(texts: seq<string>, from: nat, marker: string) returns (j: nat)
    requires from <= |texts|
    ensures j == FenceClose(texts, from, marker)
  {
    j := from;
    while j < |texts| && !StartsWith(Strip(texts[j]), marker)
      invariant from <= j <= |texts| && FenceClose(texts, from, marker) == FenceClose(texts, j, marker)
    {
      j := j + 1;
    }
  }

  /** What is still to come when the scan stands at line `i`. */
  ghost function Ahead(rules: Rules, text: string, lines: seq<Line>, texts: seq<string>,
                       i: nat, pending: Pending, heads: seq<Head>): seq<FlowBlock>
    requires i <= |texts| && Behind(pending, i)
  {
    EmitAll(text, lines, Regions(rules, texts, i, pending, heads))
  }

  lemma {:induction false} OneLineAhead(rules: Rules, text: string, lines: seq<Line>, texts: seq<string>,
                                        i: nat, pending: Pending, heads: seq<Head>, done: seq<FlowBlock>)
    requires i < |texts| && Behind(pending, i)
    ensures var p := ScanLine(rules, texts, i, pending, heads);
      done + Ahead(rules, text, lines, texts, i, pending, heads)
      == done + EmitAll(text, lines, p.emitted) + Ahead(rules, text, lines, texts, p.next, p.pending, p.heads)
  {
    hide EmitAll, EmitRegion, ScanLine;
    var p := ScanLine(rules, texts, i, pending, heads);
    var rest := Regions(rules, texts, p.next, p.pending, p.heads);
    assert Regions(rules, texts, i, pending, heads) == p.emitted + rest;
    hide Regions;
    EmitAppend(text, lines, p.emitted, rest);
    Joins(done, EmitAll(text, lines, p.emitted), EmitAll(text, lines, rest));
  }

  lemma Joins(a: seq<FlowBlock>, b: seq<FlowBlock>, c: seq<FlowBlock>)
    ensures a + (b + c) == a + b + c
  {
  }

  /** After the last line only what was being gathered is left. */
  lemma NothingAhead(rules: Rules, text: string, lines: seq<Line>, texts: seq<string>,
                     pending: Pending, heads: seq<Head>)
    requires Behind(pending, |texts|)
    ensures Ahead(rules, text, lines, texts, |texts|, pending, heads)
       == EmitAll(text, lines, Close(pending, |texts|, heads))
  {
  }

  lemma NoHeads()
    ensures OpenFrom([], 0) == [] && Titles([]) == []
  {
  }

  lemma {:induction false} EmitNothing(text: string, lines: seq<Line>)
    ensures EmitAll(text, lines, []) == []
  {
  }

  /** Closing what was gathered, then a region of its own. */
  lemma {:induction false} EmitClosed(text: string, lines: seq<Line>, closed: seq<Region>, r: Region)
    ensures EmitAll(text, lines, closed + [r]) == EmitAll(text, lines, closed) + EmitRegion(text, lines, r)
  {
    EmitAppend(text, lines, closed, [r]);
    EmitOne(text, lines, r);
  }

  /** Looks at line `i`: emits what ends there, moves the scan on, keeps the heading stack. */
  method Step(rules: Rules, text: string, lines: seq<Line>, texts: seq<string>, i: nat, pending: Pending,
              stack: seq<Head>, section: seq<string>, ghost heads: seq<Head>)
    returns (emitted: seq<FlowBlock>, i': nat, pending': Pending, stack': seq<Head>, section': seq<string>)
    requires |texts| == |lines| && i < |lines| && Behind(pending, i)
    requires Laid(text, lines) && Deepening(stack) && stack == OpenFrom(heads, 0) && section == Titles(stack)
    ensures var p := ScanLine(rules, texts, i, pending, heads);
      && emitted == EmitAll(text, lines, p.emitted) && i' == p.next && pending' == p.pending
      && Deepening(stack') && stack' == OpenFrom(p.heads, 0) && section' == Titles(stack')
  {
    hide EmitAll, EmitRegion, Lead, Trail, Strip, OpenFrom;
    var line := texts[i];
    ghost var p, closed := ScanLine(rules, texts, i, pending, heads), Close(pending, i, heads);
    EmitNothing(text, lines);
    emitted, i', pending', stack', section' := [], i + 1, pending, stack, section;
    if rules.fence(line).Some? {
      emitted := Flush(text, lines, pending, i, section, heads);
      var j := FindClose(texts, i + 1, rules.fence(line).value);
      var last := if j < |lines| then j else |lines| - 1;
      assert p == Progress(closed + [Region(Paragraph, i, last + 1, heads)], last + 1, Nothing, heads);
      EmitClosed(text, lines, closed, Region(Paragraph, i, last + 1, heads));
      var block := EmitLines(text, lines, i, last, Paragraph, section, heads);
      emitted := emitted + block;
      assert emitted == EmitAll(text, lines, p.emitted);
      i', pending' := last + 1, Nothing;
    } else if rules.heading(line).Some? {
      emitted := Flush(text, lines, pending, i, section, heads);
      var h := HeadOf(rules, line, i);
      stack' := OpenHeading(stack, h, heads);
      section' := Titles(stack');
      assert p == Progress(closed + [Region(Heading, i, i + 1, heads + [h])], i + 1, Nothing, heads + [h]);
      EmitClosed(text, lines, closed, Region(Heading, i, i + 1, heads + [h]));
      var block := EmitLines(text, lines, i, i, Heading, section', heads + [h]);
      emitted := emitted + block;
      assert emitted == EmitAll(text, lines, p.emitted);
      pending' := Nothing;
    } else if Strip(line) == "" {
      assert p == Progress(closed, i + 1, Nothing, heads);
      emitted := Flush(text, lines, pending, i, section, heads);
      pending' := Nothing;
    } else {
      var kind := KindOf(rules, line);
      if pending.Nothing? {
        assert p == Progress([], i + 1, Since(i, kind), heads);
        pending' := Since(i, kind);
      } else if kind != pending.kind {
        assert p == Progress(closed, i + 1, Since(i, kind), heads);
        emitted := Flush(text, lines, pending, i, section, heads);
        pending' := Since(i, kind);
      } else {
        assert p == Progress([], i + 1, pending, heads);
      }
    }
  }

  method Scan(rules: Rules, text: string, lines: seq<Line>, texts: seq<string>) returns (blocks: seq<FlowBlock>)
    requires Laid(text, lines) && |texts| == |lines|
    ensures blocks == Ahead(rules, text, lines, texts, 0, Nothing, [])
  {
    hide Ahead, ScanLine, EmitAll, OpenFrom, Titles, Close, Laid;
    NoHeads();
    var stack: seq<Head>, section: seq<string> := [], [];
    var i, pending := 0, Nothing;
    ghost var heads: seq<Head> := [];
    ghost var all := Ahead(rules, text, lines, texts, 0, Nothing, []);
    blocks := [];
    while i < |lines|
      invariant i <= |lines| && Behind(pending, i)
      invariant Deepening(stack) && stack == OpenFrom(heads, 0) && section == Titles(stack)
      invariant all == blocks + Ahead(rules, text, lines, texts, i, pending, heads)
      decreases |lines| - i
    {
      OneLineAhead(rules, text, lines, texts, i, pending, heads, blocks);
      ghost var p := ScanLine(rules, texts, i, pending, heads);
      var emitted;
      emitted, i, pending, stack, section := Step(rules, text, lines, texts, i, pending, stack, section, heads);
      heads := p.heads;
      blocks := blocks + emitted;
    }
    NothingAhead(rules, text, lines, texts, pending, heads);
    var last := Flush(text, lines, pending, |lines|, section, heads);
    blocks := blocks + last;
  }

  method SplitMarkdown(rules: Rules, text: string) returns (blocks: seq<FlowBlock>)
    ensures blocks == Blocks(rules, text)
  {
    LinesAreLaid(text, 0);
    blocks := Scan(rules, text, Lines(text, 0), LineTexts(text, Lines(text, 0)));
  }

  // ---------------------------------------------------------------- what the blocks keep

  /** A block is the exact text between its offsets, and neither end is whitespace. */
  ghost predicate Exact(text: string, b: FlowBlock) {
    && b.charStart < b.charEnd <= |text|
    && b.text == text[b.charStart..b.charEnd]
    && !IsSpace(text[b.charStart]) && !IsSpace(text[b.charEnd - 1])
  }

  ghost predicate Holds(b: FlowBlock, p: nat) {
    b.charStart <= p < b.charEnd
  }

  lemma TrimmedSlice(text: string, start: nat, end: nat, p: nat)
    requires start <= p < end <= |text| && !IsSpace(text[p])
    ensures var raw := text[start..end];
      var first, past := start + Lead(raw), end - Trail(raw);
      && first <= p < past && Strip(raw) == text[first..past] && !IsSpace(text[first]) && !IsSpace(text[past - 1])
  {
    hide Lead, Trail, IsSpace, Strip;
    var raw := text[start..end];
    TrimKeeps(raw, p - start);
    SliceOfSlice(text, start, end, Lead(raw), |raw| - Trail(raw));
  }

  lemma SliceOfSlice(text: string, start: nat, end: nat, a: nat, b: nat)
    requires start <= end <= |text| && a <= b <= end - start
    ensures text[start..end][a..b] == text[start + a..start + b]
  {
    var part, direct := text[start..end][a..b], text[start + a..start + b];
    assert forall k :: 0 <= k < |part| ==> part[k] == text[start..end][a + k] == text[start + a + k] == direct[k];
  }

  lemma EmitExact(text: string, start: nat, end: nat, kind: Kind, section: seq<string>, p: nat)
    requires start <= p < end <= |text| && !IsSpace(text[p])
    ensures var e := Emit(text, start, end, kind, section);
      && |e| == 1 && Exact(text, e[0]) && start <= e[0].charStart && e[0].charEnd <= end && Holds(e[0], p)
      && e[0].kind == kind && e[0].sectionPath == section
  {
    hide Lead, Trail, IsSpace;
    TrimmedSlice(text, start, end, p);
  }

  lemma LineHasText(text: string, line: Line) returns (p: nat)
    requires line.start <= line.stop <= |text| && !Blank(LineText(text, line))
    ensures line.start <= p < line.stop && !IsSpace(text[p])
  {
    var i :| 0 <= i < line.stop - line.start && !IsSpace(LineText(text, line)[i]);
    p := line.start + i;
  }

  /** A region whose first line is not blank becomes one block, which begins on that line. */
  lemma RegionEmits(text: string, lines: seq<Line>, r: Region)
    requires Laid(text, lines) && r.first < r.past <= |lines| && !Blank(LineText(text, lines[r.first]))
    ensures var e := EmitRegion(text, lines, r);
      && |e| == 1 && Exact(text, e[0]) && e[0].kind == r.kind && e[0].sectionPath == HeadingTrail(r.heads)
      && lines[r.first].start <= e[0].charStart < lines[r.first].stop && e[0].charEnd <= lines[r.past - 1].next
  {
    hide Lead, Trail, Blank, IsSpace, Strip, Emit, HeadingTrail;
    var p := LineHasText(text, lines[r.first]);
    SpanIsOrdered(text, lines, r.first, r.past - 1);
    EmitExact(text, lines[r.first].start, lines[r.past - 1].next, r.kind, HeadingTrail(r.heads), p);
  }

  /** Nothing but whitespace is lost when a region is trimmed. */
  lemma RegionHolds(text: string, lines: seq<Line>, r: Region, p: nat)
    requires Laid(text, lines) && r.first < r.past <= |lines|
    requires lines[r.first].start <= p < lines[r.past - 1].next && !IsSpace(text[p])
    ensures |EmitRegion(text, lines, r)| == 1 && Holds(EmitRegion(text, lines, r)[0], p)
  {
    EmitExact(text, lines[r.first].start, lines[r.past - 1].next, r.kind, HeadingTrail(r.heads), p);
  }

  /** One block a region. */
  lemma {:induction false} EmitEach(text: string, lines: seq<Line>, regions: seq<Region>)
    requires forall k :: 0 <= k < |regions| ==> |EmitRegion(text, lines, regions[k])| == 1
    ensures |EmitAll(text, lines, regions)| == |regions|
    ensures forall k :: 0 <= k < |regions| ==>
              EmitAll(text, lines, regions)[k] == EmitRegion(text, lines, regions[k])[0]
  {
    if regions != [] {
      EmitEach(text, lines, regions[1..]);
    }
  }

  ghost function RegionsOf(rules: Rules, text: string): (r: seq<Region>)
    ensures Within(r, |Lines(text, 0)|)
  {
    Regions(rules, LineTexts(text, Lines(text, 0)), 0, Nothing, [])
  }

  lemma {:induction false} RegionBegins(rules: Rules, text: string, k: nat)
    requires Sound(rules) && k < |RegionsOf(rules, text)|
    ensures var r, lines := RegionsOf(rules, text)[k], Lines(text, 0);
      Laid(text, lines) && r.first < r.past <= |lines| && !Blank(LineText(text, lines[r.first]))
  {
    hide Regions, Blank;
    LinesAreLaid(text, 0);
    RegionsSound(rules, LineTexts(text, Lines(text, 0)), 0, Nothing, []);
  }

  lemma {:induction false} OneBlockEach(rules: Rules, text: string)
    requires Sound(rules)
    ensures forall j :: 0 <= j < |RegionsOf(rules, text)| ==>
      |EmitRegion(text, Lines(text, 0), RegionsOf(rules, text)[j])| == 1
  {
    hide RegionsOf, EmitRegion, Lines, Exact, Blank, HeadingTrail, Laid;
    forall j | 0 <= j < |RegionsOf(rules, text)|
      ensures |EmitRegion(text, Lines(text, 0), RegionsOf(rules, text)[j])| == 1
    {
      RegionBegins(rules, text, j);
      RegionEmits(text, Lines(text, 0), RegionsOf(rules, text)[j]);
    }
  }

  /** Block `k` is region `k`, trimmed. */
  lemma {:induction false} BlockOfRegion(rules: Rules, text: string, k: nat)
    requires Sound(rules) && k < |RegionsOf(rules, text)|
    ensures |Blocks(rules, text)| == |RegionsOf(rules, text)|
    ensures var r, b := RegionsOf(rules, text)[k], Blocks(rules, text)[k];
      var lines := Lines(text, 0);
      && [b] == EmitRegion(text, lines, r)
      && Exact(text, b) && b.kind == r.kind && b.sectionPath == HeadingTrail(r.heads)
      && lines[r.first].start <= b.charStart < lines[r.first].stop && b.charEnd <= lines[r.past - 1].next
  {
    hide EmitRegion, Lines, Exact, Blank, HeadingTrail, EmitAll, Laid, Regions;
    OneBlockEach(rules, text);
    EmitEach(text, Lines(text, 0), RegionsOf(rules, text));
    RegionBegins(rules, text, k);
    RegionEmits(text, Lines(text, 0), RegionsOf(rules, text)[k]);
  }

  lemma BlockCount(rules: Rules, text: string)
    requires Sound(rules)
    ensures |Blocks(rules, text)| == |RegionsOf(rules, text)|
  {
    if RegionsOf(rules, text) != [] {
      BlockOfRegion(rules, text, 0);
    }
  }

  /** Blocks are exact slices of the text. */
  lemma BlocksAreExact(rules: Rules, text: string)
    requires Sound(rules)
    ensures forall b :: b in Blocks(rules, text) ==> Exact(text, b)
  {
    forall b | b in Blocks(rules, text) ensures Exact(text, b) {
      assert RegionsOf(rules, text) != [];
      BlockOfRegion(rules, text, 0);
      var k :| 0 <= k < |Blocks(rules, text)| && Blocks(rules, text)[k] == b;
      BlockOfRegion(rules, text, k);
    }
  }

  /** Blocks follow the order of the text and do not overlap. */
  lemma BlocksAreOrdered(rules: Rules, text: string, j: nat, k: nat)
    requires Sound(rules) && j < k < |Blocks(rules, text)|
    ensures Blocks(rules, text)[j].charEnd <= Blocks(rules, text)[k].charStart
  {
    hide Regions, Blocks, EmitRegion, EmitAll, Lines, Blank, Exact;
    var lines, regions := Lines(text, 0), RegionsOf(rules, text);
    BlockCount(rules, text);
    BlockOfRegion(rules, text, j);
    BlockOfRegion(rules, text, k);
    RegionsSound(rules, LineTexts(text, lines), 0, Nothing, []);
    LinesAreLaid(text, 0);
    assert regions[j].past - 1 < regions[k].first;
  }

  /** A character that is not whitespace stands on a line, before its terminator. */
  lemma LineOf(text: string, p: nat) returns (l: nat)
    requires p < |text| && !IsSpace(text[p])
    ensures l < |Lines(text, 0)| && Lines(text, 0)[l].start <= p < Lines(text, 0)[l].stop
    ensures !Blank(LineText(text, Lines(text, 0)[l]))
  {
    l := LineAt(text, 0, p);
    var line := Lines(text, 0)[l];
    if p >= line.stop {
      TerminatorsAreSpace(text, 0, l, p);
    }
    assert LineText(text, line)[p - line.start] == text[p];
  }

  lemma RegionOfLine(rules: Rules, text: string, l: nat) returns (k: nat)
    requires Sound(rules) && l < |Lines(text, 0)| && !Blank(LineText(text, Lines(text, 0)[l]))
    ensures k < |RegionsOf(rules, text)| && RegionsOf(rules, text)[k].first <= l < RegionsOf(rules, text)[k].past
  {
    var texts := LineTexts(text, Lines(text, 0));
    RegionsSound(rules, texts, 0, Nothing, []);
    assert !Blank(texts[l]) && InSome(RegionsOf(rules, text), l);
    k :| 0 <= k < |RegionsOf(rules, text)| && RegionsOf(rules, text)[k].first <= l < RegionsOf(rules, text)[k].past;
  }

  lemma InSpan(text: string, lines: seq<Line>, first: nat, l: nat, last: nat, p: nat)
    requires Laid(text, lines) && first <= l <= last < |lines| && lines[l].start <= p < lines[l].next
    ensures lines[first].start <= p < lines[last].next
  {
  }

  /** Every character that is not whitespace is in a block. */
  lemma NothingIsLost(rules: Rules, text: string, p: nat) returns (k: nat)
    requires Sound(rules) && p < |text| && !IsSpace(text[p])
    ensures k < |Blocks(rules, text)| && Holds(Blocks(rules, text)[k], p)
  {
    var l := LineOf(text, p);
    k := RegionOfLine(rules, text, l);
    var r := RegionsOf(rules, text)[k];
    LinesAreLaid(text, 0);
    InSpan(text, Lines(text, 0), r.first, l, r.past - 1, p);
    BlockOfRegion(rules, text, k);
    RegionHolds(text, Lines(text, 0), r, p);
  }

  /** The headings of a text, fenced lines skipped. */
  ghost function Headings(rules: Rules, text: string): seq<Head> {
    HeadsFrom(rules, LineTexts(text, Lines(text, 0)), 0)
  }

  lemma RegionIsFiled(rules: Rules, text: string, k: nat)
    requires k < |RegionsOf(rules, text)|
    ensures FiledRight(Headings(rules, text), RegionsOf(rules, text)[k])
  {
    RegionsFiled(rules, LineTexts(text, Lines(text, 0)), 0, Nothing, []);
    assert [] + Headings(rules, text) == Headings(rules, text);
  }

  lemma SameLine(text: string, lines: seq<Line>, a: nat, b: nat, p: nat)
    requires Laid(text, lines) && a < |lines| && b < |lines|
    requires lines[a].start <= p < lines[a].next && lines[b].start <= p < lines[b].next
    ensures a == b
  {
  }

  /** A block is filed under the titles of those headings up to its first line that no later
      one up to that line is as shallow as; it is a heading exactly when that line is one. */
  lemma {:induction false} BlocksAreFiled(rules: Rules, text: string, k: nat, l: nat)
    requires Sound(rules) && k < |Blocks(rules, text)| && l < |Lines(text, 0)|
    requires Lines(text, 0)[l].start <= Blocks(rules, text)[k].charStart < Lines(text, 0)[l].next
    ensures Blocks(rules, text)[k].sectionPath == HeadingTrail(Until(Headings(rules, text), l))
    ensures Blocks(rules, text)[k].kind == Heading <==> HasHead(Headings(rules, text), l)
  {
    BlockCount(rules, text);
    BlockOfRegion(rules, text, k);
    LinesAreLaid(text, 0);
    SameLine(text, Lines(text, 0), RegionsOf(rules, text)[k].first, l, Blocks(rules, text)[k].charStart);
    RegionIsFiled(rules, text, k);
  }
}
