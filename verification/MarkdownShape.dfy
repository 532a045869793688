/** What the lines of a markdown text are, said without the scan, and that every block is made of
    the lines it should be made of. */
module MarkdownShape {
  import opened Texts
  import opened FlowText
  import opened Markdown

  // ---------------------------------------------------------------- lines

  const BREAK_CHARS: set<char> :=
    {'\n', '\U{000B}', '\U{000C}', '\r', '\U{001C}', '\U{001D}', '\U{001E}', '\U{0085}', '\U{2028}', '\U{2029}'}

  /** One break from `a` to `b`: a carriage return and a line feed, or one character alone. */
  ghost predicate OneBreak(text: string, a: nat, b: nat) {
    && a < b <= |text| && text[a] in BREAK_CHARS
    && b == if text[a] == '\r' && a + 1 < |text| && text[a + 1] == '\n' then a + 2 else a + 1
  }

  /** A line runs up to the first break, which goes with it, or to the end of the text. */
  ghost predicate IsLine(text: string, line: Line) {
    && line.start <= line.stop <= |text| && (forall p :: line.start <= p < line.stop ==> text[p] !in BREAK_CHARS)
    && if line.stop == |text| then line.start < line.stop == line.next else OneBreak(text, line.stop, line.next)
  }

  /** Line after line from `i` on, to the end of the text. */
  ghost predicate AreLines(text: string, i: nat, lines: seq<Line>) {
    && (forall k :: 0 <= k < |lines| ==> IsLine(text, lines[k]))
    && (forall k :: 0 < k < |lines| ==> lines[k].start == lines[k - 1].next)
    && (lines != [] ==> lines[0].start == i)
    && (if lines == [] then i else lines[|lines| - 1].next) == |text|
  }

  lemma BreaksAre(c: char)
    ensures IsBreak(c) <==> c in BREAK_CHARS
  {
  }

  lemma FirstLine(text: string, i: nat, line: Line)
    requires i < |text|
    ensures IsLine(text, line) && line.start == i
       <==> line == Line(i, BreakAt(text, i), AfterBreak(text, BreakAt(text, i)))
  {
    hide IsBreak;
    forall c ensures IsBreak(c) <==> c in BREAK_CHARS {
      BreaksAre(c);
    }
  }

  /** This says what the lines of a text are. */
  lemma {:induction false} LinesIff(text: string, i: nat, lines: seq<Line>)
    requires i <= |text|
    ensures AreLines(text, i, lines) <==> lines == Lines(text, i)
    decreases |text| - i
  {
    hide IsLine, BreakAt, AfterBreak;
    if i < |text| {
      var line := Line(i, BreakAt(text, i), AfterBreak(text, BreakAt(text, i)));
      FirstLine(text, i, line);
      var rest := Lines(text, line.next);
      LinesIff(text, line.next, rest);
      assert AreLines(text, i, [line] + rest);
      if AreLines(text, i, lines) {
        FirstLine(text, i, lines[0]);
        RestAreLines(text, i, lines);
        LinesIff(text, line.next, lines[1..]);
        assert lines == [line] + lines[1..];
      }
    } else if AreLines(text, i, lines) {
      NoLine(text, lines);
    }
  }

  lemma RestAreLines(text: string, i: nat, lines: seq<Line>)
    requires AreLines(text, i, lines) && lines != []
    ensures AreLines(text, lines[0].next, lines[1..])
  {
    hide IsLine;
  }

  lemma NoLine(text: string, lines: seq<Line>)
    requires AreLines(text, |text|, lines)
    ensures lines == []
  {
    assert |lines| > 0 ==> IsLine(text, lines[0]);
  }

  // ---------------------------------------------------------------- what a line is

  /** Line `j`, trimmed, begins with the marker of the fence on line `o`. */
  ghost predicate Ends(rules: Rules, texts: seq<string>, o: nat, j: nat) {
    && o < |texts| && j < |texts|
    && rules.fence(texts[o]).Some? && rules.fence(texts[o]).value <= Strip(texts[j])
  }

  ghost predicate EndedBefore(rules: Rules, texts: seq<string>, o: nat, l: nat) {
    exists j :: o < j < l && Ends(rules, texts, o, j)
  }

  /** A line is in a fence from the line after the one that opens it to the one that ends it. */
  ghost predicate InFence(rules: Rules, texts: seq<string>, l: nat)
    decreases l, 0
  {
    exists o :: 0 <= o < l && OpensFence(rules, texts, o) && !EndedBefore(rules, texts, o, l)
  }

  ghost predicate OpensFence(rules: Rules, texts: seq<string>, l: nat)
    decreases l, 1
  {
    l < |texts| && rules.fence(texts[l]).Some? && !InFence(rules, texts, l)
  }

  ghost predicate Titled(rules: Rules, texts: seq<string>, l: nat) {
    && l < |texts| && !InFence(rules, texts, l)
    && rules.fence(texts[l]).None? && rules.heading(texts[l]).Some?
  }

  /** Tables go before lists, and what is neither is a paragraph. */
  ghost predicate OfKind(rules: Rules, line: string, kind: Kind) {
    match kind
    case Table => rules.isTable(line)
    case List => rules.isList(line) && !rules.isTable(line)
    case Paragraph => !rules.isTable(line) && !rules.isList(line)
    case Heading => false
  }

  /** A line of running text, of a table or of a list. */
  ghost predicate Runs(rules: Rules, texts: seq<string>, l: nat, kind: Kind) {
    && l < |texts| && !InFence(rules, texts, l)
    && rules.fence(texts[l]).None? && rules.heading(texts[l]).None?
    && !Blank(texts[l]) && OfKind(rules, texts[l], kind)
  }

  // ---------------------------------------------------------------- what a block is made of

  /** A fence from the line that opens it to the first that ends it, or to the last line. */
  ghost predicate IsFence(rules: Rules, texts: seq<string>, first: nat, past: nat) {
    && first < past <= |texts| && OpensFence(rules, texts, first)
    && (forall j :: first < j < past - 1 ==> !Ends(rules, texts, first, j))
    && (past == |texts| || (first < past - 1 && Ends(rules, texts, first, past - 1)))
  }

  /** All the lines of one kind that stand together. */
  ghost predicate IsRun(rules: Rules, texts: seq<string>, first: nat, past: nat, kind: Kind) {
    && first < past <= |texts|
    && (forall l :: first <= l < past ==> Runs(rules, texts, l, kind))
    && (first == 0 || !Runs(rules, texts, first - 1, kind))
    && (past == |texts| || !Runs(rules, texts, past, kind))
  }

  ghost predicate Shaped(rules: Rules, texts: seq<string>, first: nat, past: nat, kind: Kind) {
    match kind
    case Heading => past == first + 1 && Titled(rules, texts, first)
    case Paragraph => IsFence(rules, texts, first, past) || IsRun(rules, texts, first, past, Paragraph)
    case _ => IsRun(rules, texts, first, past, kind)
  }

  ghost predicate AllShaped(rules: Rules, texts: seq<string>, regions: seq<Region>) {
    forall k :: 0 <= k < |regions| ==>
      Shaped(rules, texts, regions[k].first, regions[k].past, regions[k].kind)
  }

  // ---------------------------------------------------------------- the scan finds just these

  lemma {:induction false} ClosesFirst(texts: seq<string>, j: nat, marker: string)
    requires j <= |texts|
    ensures var r := FenceClose(texts, j, marker);
      && (forall m :: j <= m < r ==> !(marker <= Strip(texts[m])))
      && (r < |texts| ==> marker <= Strip(texts[r]))
    decreases |texts| - j
  {
    hide Strip;
    if j < |texts| && !(marker <= Strip(texts[j])) {
      ClosesFirst(texts, j + 1, marker);
    }
  }

  lemma FenceIsFound(rules: Rules, texts: seq<string>, i: nat)
    requires i < |texts| && OpensFence(rules, texts, i)
    ensures IsFence(rules, texts, i, FenceEnd(texts, i, rules.fence(texts[i]).value))
  {
    hide Strip, FenceClose, InFence;
    ClosesFirst(texts, i + 1, rules.fence(texts[i]).value);
  }

  /** Behind the end of a fence no fence is open, and all its other lines are inside it. */
  lemma {:induction false} AfterFence(rules: Rules, texts: seq<string>, i: nat, past: nat)
    requires IsFence(rules, texts, i, past)
    ensures forall l :: i < l < past ==> InFence(rules, texts, l)
    ensures past < |texts| ==> !InFence(rules, texts, past)
  {
    hide Ends;
    forall l | i < l < past ensures InFence(rules, texts, l) {
      assert OpensFence(rules, texts, i) && !EndedBefore(rules, texts, i, l);
    }
    if past < |texts| {
      assert !InFence(rules, texts, i) && Ends(rules, texts, i, past - 1);
      forall o | 0 <= o < i && OpensFence(rules, texts, o) ensures EndedBefore(rules, texts, o, past) {
        assert EndedBefore(rules, texts, o, i);
        EndedStays(rules, texts, o, i, past);
      }
      assert forall o :: i < o < past ==> !OpensFence(rules, texts, o);
    }
  }

  lemma EndedStays(rules: Rules, texts: seq<string>, o: nat, l: nat, m: nat)
    requires EndedBefore(rules, texts, o, l) && l <= m
    ensures EndedBefore(rules, texts, o, m)
  {
    hide Ends;
    var j :| o < j < l && Ends(rules, texts, o, j);
    assert j < m;
  }

  lemma {:induction false} AfterLine(rules: Rules, texts: seq<string>, i: nat)
    requires i < |texts| && !InFence(rules, texts, i) && rules.fence(texts[i]).None?
    ensures !InFence(rules, texts, i + 1)
  {
    hide Ends;
    forall o | 0 <= o < i + 1 && OpensFence(rules, texts, o) ensures EndedBefore(rules, texts, o, i + 1) {
      assert o < i && EndedBefore(rules, texts, o, i);
      EndedStays(rules, texts, o, i, i + 1);
    }
  }

  ghost predicate Clear(rules: Rules, texts: seq<string>, i: nat) {
    i <= |texts| && (i < |texts| ==> !InFence(rules, texts, i))
  }

  /** Nothing can be continued behind line `i - 1`. */
  ghost predicate Fresh(rules: Rules, texts: seq<string>, i: nat) {
    i == 0 || (!Runs(rules, texts, i - 1, Paragraph) && !Runs(rules, texts, i - 1, Table)
               && !Runs(rules, texts, i - 1, List))
  }

  ghost predicate GatheredOk(rules: Rules, texts: seq<string>, i: nat, pending: Pending) {
    match pending
    case Nothing => Fresh(rules, texts, i)
    case Since(first, kind) =>
      && first < i <= |texts|
      && (forall l :: first <= l < i ==> Runs(rules, texts, l, kind))
      && (first == 0 || !Runs(rules, texts, first - 1, kind))
  }

  lemma ClosedIsRun(rules: Rules, texts: seq<string>, i: nat, pending: Pending, heads: seq<Head>)
    requires i <= |texts| && GatheredOk(rules, texts, i, pending)
    requires pending.Since? && i < |texts| ==> !Runs(rules, texts, i, pending.kind)
    ensures AllShaped(rules, texts, Close(pending, i, heads))
  {
    hide InFence, Blank;
    if pending.Since? {
      assert Runs(rules, texts, pending.first, pending.kind);
      assert IsRun(rules, texts, pending.first, i, pending.kind);
    }
  }

  /** What one line produces has the right shape, and the scan goes on outside of fences. */
  lemma ScanLineShaped(rules: Rules, texts: seq<string>, i: nat, pending: Pending, heads: seq<Head>)
    requires i < |texts| && Behind(pending, i)
    requires Clear(rules, texts, i) && GatheredOk(rules, texts, i, pending)
    ensures var p := ScanLine(rules, texts, i, pending, heads);
      && AllShaped(rules, texts, p.emitted)
      && Clear(rules, texts, p.next) && GatheredOk(rules, texts, p.next, p.pending)
  {
    var line := texts[i];
    StripEmptyIffBlank(line);
    hide InFence, Blank, Strip, FenceEnd, HeadOf;
    if rules.fence(line).Some? {
      FenceTaken(rules, texts, i);
      ClosedIsRun(rules, texts, i, pending, heads);
    } else {
      AfterLine(rules, texts, i);
      if rules.heading(line).Some? || Blank(line) {
        ClosedIsRun(rules, texts, i, pending, heads);
      } else {
        LineRuns(rules, texts, i);
        if pending.Since? && KindOf(rules, line) != pending.kind {
          ClosedIsRun(rules, texts, i, pending, heads);
        }
        LineGathered(rules, texts, i, pending);
      }
    }
  }

  lemma FenceTaken(rules: Rules, texts: seq<string>, i: nat)
    requires i < |texts| && Clear(rules, texts, i) && rules.fence(texts[i]).Some?
    ensures var past := FenceEnd(texts, i, rules.fence(texts[i]).value);
      && IsFence(rules, texts, i, past) && Clear(rules, texts, past) && Fresh(rules, texts, past)
  {
    hide InFence, Blank, Ends;
    assert OpensFence(rules, texts, i);
    FenceIsFound(rules, texts, i);
    var past := FenceEnd(texts, i, rules.fence(texts[i]).value);
    AfterFence(rules, texts, i, past);
  }

  lemma LineRuns(rules: Rules, texts: seq<string>, i: nat)
    requires i < |texts| && Clear(rules, texts, i) && !Blank(texts[i])
    requires rules.fence(texts[i]).None? && rules.heading(texts[i]).None?
    ensures forall kind :: Runs(rules, texts, i, kind) <==> kind == KindOf(rules, texts[i])
  {
  }

  lemma LineGathered(rules: Rules, texts: seq<string>, i: nat, pending: Pending)
    requires i < |texts| && GatheredOk(rules, texts, i, pending)
    requires forall kind :: Runs(rules, texts, i, kind) <==> kind == KindOf(rules, texts[i])
    ensures var kind := KindOf(rules, texts[i]);
      GatheredOk(rules, texts, i + 1, if pending == Since(From(pending, i), kind) then pending else Since(i, kind))
  {
    hide KindOf;
    if pending.Since? && pending.kind != KindOf(rules, texts[i]) {
      assert Runs(rules, texts, i - 1, pending.kind);
      OneKind(rules, texts, i - 1, pending.kind, KindOf(rules, texts[i]));
    }
  }

  lemma OneKind(rules: Rules, texts: seq<string>, l: nat, a: Kind, b: Kind)
    requires Runs(rules, texts, l, a) && a != b
    ensures !Runs(rules, texts, l, b)
  {
  }

  /** Every region is a heading line, a whole fence, or a whole run of lines of one kind. */
  lemma {:induction false} RegionsAreShaped(rules: Rules, texts: seq<string>, i: nat, pending: Pending,
                                            heads: seq<Head>)
    requires i <= |texts| && Behind(pending, i)
    requires Clear(rules, texts, i) && GatheredOk(rules, texts, i, pending)
    ensures AllShaped(rules, texts, Regions(rules, texts, i, pending, heads))
    decreases |texts| - i
  {
    hide Shaped, GatheredOk, Clear, ScanLine;
    if i == |texts| {
      ClosedIsRun(rules, texts, i, pending, heads);
    } else {
      var p := ScanLine(rules, texts, i, pending, heads);
      ScanLineShaped(rules, texts, i, pending, heads);
      RegionsAreShaped(rules, texts, p.next, p.pending, p.heads);
    }
  }

  /** The heading that a line is, as its pattern reads it. */
  ghost predicate Reads(rules: Rules, texts: seq<string>, h: Head) {
    && Titled(rules, texts, h.line)
    && h.level == rules.heading(texts[h.line]).value.0
    && h.title == Strip(rules.heading(texts[h.line]).value.1)
  }

  /** From line `i` on, just the heading lines outside of fences, in order. */
  ghost predicate HeadsOf(rules: Rules, texts: seq<string>, i: nat, heads: seq<Head>) {
    && (forall j, k :: 0 <= j < k < |heads| ==> heads[j].line < heads[k].line)
    && (forall h :: h in heads ==> i <= h.line && Reads(rules, texts, h))
    && (forall l :: i <= l < |texts| && Titled(rules, texts, l) ==> HasHead(heads, l))
  }

  lemma {:induction false} HeadsAreTitled(rules: Rules, texts: seq<string>, i: nat)
    requires Clear(rules, texts, i)
    ensures HeadsOf(rules, texts, i, HeadsFrom(rules, texts, i))
    decreases |texts| - i
  {
    hide InFence, Strip, Ends, FenceEnd, HeadsOf;
    if i == |texts| {
      NoHeadsOf(rules, texts, i);
    } else if rules.fence(texts[i]).Some? {
      var past := FenceEnd(texts, i, rules.fence(texts[i]).value);
      FenceTaken(rules, texts, i);
      HeadsAreTitled(rules, texts, past);
      AfterFence(rules, texts, i, past);
      HeadsSkip(rules, texts, i, past, HeadsFrom(rules, texts, past));
    } else {
      AfterLine(rules, texts, i);
      HeadsAreTitled(rules, texts, i + 1);
      var rest := HeadsFrom(rules, texts, i + 1);
      if rules.heading(texts[i]).Some? {
        HeadsPrepend(rules, texts, i, HeadOf(rules, texts[i], i), rest);
      } else {
        HeadsSkip(rules, texts, i, i + 1, rest);
      }
    }
  }

  lemma NoHeadsOf(rules: Rules, texts: seq<string>, i: nat)
    requires i >= |texts|
    ensures HeadsOf(rules, texts, i, [])
  {
  }

  lemma HeadsSkip(rules: Rules, texts: seq<string>, i: nat, next: nat, heads: seq<Head>)
    requires i <= next && HeadsOf(rules, texts, next, heads)
    requires forall l :: i <= l < next ==> !Titled(rules, texts, l)
    ensures HeadsOf(rules, texts, i, heads)
  {
    hide Titled, Reads;
  }

  lemma HeadsPrepend(rules: Rules, texts: seq<string>, i: nat, h: Head, rest: seq<Head>)
    requires HeadsOf(rules, texts, i + 1, rest) && h.line == i && Reads(rules, texts, h)
    ensures HeadsOf(rules, texts, i, [h] + rest)
  {
    hide Titled, Reads;
    var heads := [h] + rest;
    forall l | i <= l < |texts| && Titled(rules, texts, l) ensures HasHead(heads, l) {
      if l == i {
        assert heads[0].line == l;
      } else {
        var g :| g in rest && g.line == l;
        assert g in heads;
      }
    }
    forall k | 0 < k < |heads| ensures heads[k] == rest[k - 1] && heads[k].line > i {
      assert rest[k - 1] in rest;
    }
  }

  // ---------------------------------------------------------------- what this says of the blocks

  function TextLines(text: string): seq<string> {
    LineTexts(text, Lines(text, 0))
  }

  /** Block `k` is the trimmed text of some lines, and these are a heading, a whole fence, or all
      the lines of one kind that stand together. */
  lemma BlockShape(rules: Rules, text: string, k: nat) returns (first: nat, past: nat)
    requires Sound(rules) && k < |Blocks(rules, text)|
    ensures var b, lines := Blocks(rules, text)[k], Lines(text, 0);
      && first < past <= |lines| && lines[first].start <= lines[past - 1].next <= |text|
      && Shaped(rules, TextLines(text), first, past, b.kind)
      && b.text == Strip(text[lines[first].start..lines[past - 1].next])
      && lines[first].start <= b.charStart < lines[first].stop && b.charEnd <= lines[past - 1].next
  {
    hide Regions, Shaped, Strip, Lines, Lead, Trail;
    BlockCount(rules, text);
    BlockOfRegion(rules, text, k);
    var r := RegionsOf(rules, text)[k];
    RegionBegins(rules, text, k);
    first, past := r.first, r.past;
    SpanIsOrdered(text, Lines(text, 0), first, past - 1);
    StartsClear(rules, TextLines(text));
    RegionsAreShaped(rules, TextLines(text), 0, Nothing, []);
  }

  lemma StartsClear(rules: Rules, texts: seq<string>)
    ensures Clear(rules, texts, 0) && GatheredOk(rules, texts, 0, Nothing)
  {
  }

  /** A fence that opens outside any other is one paragraph: it begins on the line that opens it,
      holds all its lines and no other, and none of them is a heading or begins a block. */
  lemma FenceIsOneBlock(rules: Rules, text: string, l: nat) returns (k: nat, past: nat)
    requires Sound(rules) && OpensFence(rules, TextLines(text), l)
    ensures var lines := Lines(text, 0);
      && k < |Blocks(rules, text)| && |lines| == |TextLines(text)|
      && IsFence(rules, TextLines(text), l, past) && lines[l].start <= lines[past - 1].next <= |text|
      && Blocks(rules, text)[k].kind == Paragraph
      && Blocks(rules, text)[k].text == Strip(text[lines[l].start..lines[past - 1].next])
      && lines[l].start <= Blocks(rules, text)[k].charStart < lines[l].stop
      && (forall p :: lines[l].start <= p < lines[past - 1].next && !IsSpace(text[p])
            ==> Holds(Blocks(rules, text)[k], p))
      && Blocks(rules, text)[k].charEnd <= lines[past - 1].next
      && (forall m :: l < m < past ==> !Titled(rules, TextLines(text), m) && !OpensFence(rules, TextLines(text), m))
  {
    hide Regions, Strip, Lines, Lead, Trail, InFence, IsSpace, Blank, Blocks;
    var texts, lines := TextLines(text), Lines(text, 0);
    FenceLineHasText(rules, text, l);
    k := RegionOfLine(rules, text, l);
    var r := RegionsOf(rules, text)[k];
    StartsClear(rules, texts);
    RegionsAreShaped(rules, texts, 0, Nothing, []);
    FenceBegins(rules, texts, r, l);
    past := r.past;
    BlockOfRegion(rules, text, k);
    LinesAreLaid(text, 0);
    SpanIsOrdered(text, lines, l, past - 1);
    forall p | lines[l].start <= p < lines[past - 1].next && !IsSpace(text[p])
      ensures Holds(Blocks(rules, text)[k], p)
    {
      RegionHolds(text, lines, r, p);
    }
    AfterFence(rules, texts, l, past);
  }

  lemma FenceLineHasText(rules: Rules, text: string, l: nat)
    requires Sound(rules) && l < |TextLines(text)| && rules.fence(TextLines(text)[l]).Some?
    ensures l < |Lines(text, 0)| && !Blank(LineText(text, Lines(text, 0)[l]))
  {
    hide Blank;
  }

  lemma FenceBegins(rules: Rules, texts: seq<string>, r: Region, l: nat)
    requires OpensFence(rules, texts, l) && r.first <= l < r.past
    requires Shaped(rules, texts, r.first, r.past, r.kind)
    ensures r.first == l && r.kind == Paragraph && IsFence(rules, texts, l, r.past)
  {
    hide Ends, Blank;
    assert !Runs(rules, texts, l, r.kind) && !Titled(rules, texts, l);
    if IsFence(rules, texts, r.first, r.past) {
      AfterFence(rules, texts, r.first, r.past);
    }
  }

  /** The headings blocks are filed under are just the heading lines outside of fences. */
  lemma HeadingsAreTitled(rules: Rules, text: string)
    ensures HeadsOf(rules, TextLines(text), 0, Headings(rules, text))
  {
    StartsClear(rules, TextLines(text));
    HeadsAreTitled(rules, TextLines(text), 0);
  }
}
