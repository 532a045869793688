/** Structure recovery for text that has no layout: markdown split into blocks with
    exact offsets, each filed under its heading trail. */
module FlowText {
  import opened Wrappers
  import opened Texts

  datatype Kind = Paragraph | Heading | Table | List

  datatype FlowBlock = FlowBlock(kind: Kind, text: string, charStart: nat, charEnd: nat, sectionPath: seq<string>)

  // ---------------------------------------------------------------- lines

  predicate IsBreak(c: char) {
    || '\U{000A}' <= c <= '\U{000D}'
    || '\U{001C}' <= c <= '\U{001E}'
    || c == '\U{0085}' || c == '\U{2028}' || c == '\U{2029}'
  }

  /** A line: its text, and where its terminator ends. */
  datatype Line = Line(start: nat, stop: nat, next: nat)

  /** First line break at or after `i`, or the end of the text. */
  function BreakAt(text: string, i: nat): (r: nat)
    requires i <= |text|
    ensures i <= r <= |text| && (forall k :: i <= k < r ==> !IsBreak(text[k])) && (r < |text| ==> IsBreak(text[r]))
    decreases |text| - i
  {
    if i == |text| || IsBreak(text[i]) then i else BreakAt(text, i + 1)
  }

  /** A carriage return followed by a line feed is one break. */
  function AfterBreak(text: string, i: nat): (r: nat)
    requires i <= |text| && (i < |text| ==> IsBreak(text[i]))
    ensures i <= r <= |text| && (i < |text| ==> i < r) && forall k :: i <= k < r ==> IsSpace(text[k])
  {
    if i == |text| then i
    else if text[i] == '\r' && i + 1 < |text| && text[i + 1] == '\n' then i + 2
    else i + 1
  }

  function Lines(text: string, i: nat): (r: seq<Line>)
    requires i <= |text|
    ensures forall k :: 0 <= k < |r| ==> r[k].start <= r[k].stop <= r[k].next <= |text|
    decreases |text| - i
  {
    if i == |text| then []
    else
      var stop := BreakAt(text, i);
      var next := AfterBreak(text, stop);
      [Line(i, stop, next)] + Lines(text, next)
  }

  function LineText(text: string, line: Line): string
    requires line.start <= line.stop <= |text|
  {
    text[line.start..line.stop]
  }

  function LineTexts(text: string, lines: seq<Line>): (r: seq<string>)
    requires forall k :: 0 <= k < |lines| ==> lines[k].start <= lines[k].stop <= |text|
    ensures |r| == |lines| && forall k :: 0 <= k < |r| ==> r[k] == LineText(text, lines[k])
  {
    if lines == [] then [] else [LineText(text, lines[0])] + LineTexts(text, lines[1..])
  }

  /** What lies between a line's text and the next line is whitespace. */
  lemma {:induction false} TerminatorsAreSpace(text: string, i: nat, k: nat, p: nat)
    requires i <= |text| && k < |Lines(text, i)|
    requires Lines(text, i)[k].stop <= p < Lines(text, i)[k].next
    ensures IsSpace(text[p])
    decreases k
  {
    var stop := BreakAt(text, i);
    var next := AfterBreak(text, stop);
    if k > 0 {
      TerminatorsAreSpace(text, next, k - 1, p);
    }
  }

  // ---------------------------------------------------------------- line classes

  /** The patterns that tell lines apart. The results hold whatever they match, as long
      as neither a heading nor a fence is blank. */
  datatype Rules = Rules(
    fence: string -> Option<string>,
    heading: string -> Option<(nat, string)>,
    isTable: string -> bool,
    isList: string -> bool)

  ghost predicate Sound(rules: Rules) {
    forall s :: rules.heading(s).Some? || rules.fence(s).Some? ==> !Blank(s)
  }

  function KindOf(rules: Rules, line: string): Kind {
    if rules.isTable(line) then Table else if rules.isList(line) then List else Paragraph
  }

  predicate StartsWith(s: string, prefix: string) {
    prefix <= s
  }

  /** The line that closes a fence opened before `j`, or the number of lines. */
  function FenceClose(texts: seq<string>, j: nat, marker: string): (r: nat)
    requires j <= |texts|
    ensures j <= r <= |texts|
    decreases |texts| - j
  {
    if j == |texts| || StartsWith(Strip(texts[j]), marker) then j else FenceClose(texts, j + 1, marker)
  }

  // ---------------------------------------------------------------- headings

  datatype Head = Head(level: nat, title: string, line: nat)

  /** No later heading is as shallow: heading `k` still governs the text. */
  ghost predicate Open(heads: seq<Head>, k: nat) {
    k < |heads| && forall m :: k < m < |heads| ==> heads[m].level > heads[k].level
  }

  /** The headings that govern the text after all of `heads`, outermost first. */
  ghost function OpenFrom(heads: seq<Head>, k: nat): seq<Head>
    requires k <= |heads|
    decreases |heads| - k
  {
    if k == |heads| then []
    else (if Open(heads, k) then [heads[k]] else []) + OpenFrom(heads, k + 1)
  }

  function Titles(heads: seq<Head>): seq<string> {
    if heads == [] then [] else [heads[0].title] + Titles(heads[1..])
  }

  /** The trail a block is filed under, once `heads` have been seen. */
  ghost function HeadingTrail(heads: seq<Head>): seq<string> {
    Titles(OpenFrom(heads, 0))
  }

  ghost predicate Deepening(stack: seq<Head>) {
    forall i, j :: 0 <= i < j < |stack| ==> stack[i].level < stack[j].level
  }

  /** Pop while the top is not shallower, then push. */
  method PushHeading(stack: seq<Head>, h: Head) returns (r: seq<Head>)
    requires Deepening(stack)
    ensures Deepening(r)
    ensures r == Shallower(stack, h.level) + [h]
  {
    r := stack;
    while r != [] && r[|r| - 1].level >= h.level
      invariant |r| <= |stack| && r == stack[..|r|]
      invariant forall i :: |r| <= i < |stack| ==> stack[i].level >= h.level
      decreases |r|
    {
      r := r[..|r| - 1];
    }
    ShallowerPrefix(stack, h.level, |r|);
    r := r + [h];
  }

  function Shallower(stack: seq<Head>, level: nat): (r: seq<Head>) {
    if stack == [] then []
    else (if stack[0].level < level then [stack[0]] else []) + Shallower(stack[1..], level)
  }

  lemma {:induction false} ShallowerPrefix(stack: seq<Head>, level: nat, n: nat)
    requires n <= |stack|
    requires forall i :: 0 <= i < n ==> stack[i].level < level
    requires forall i :: n <= i < |stack| ==> stack[i].level >= level
    ensures Shallower(stack, level) == stack[..n]
  {
    if stack != [] {
      ShallowerPrefix(stack[1..], level, if n == 0 then 0 else n - 1);
      if n > 0 {
        assert stack[..n] == [stack[0]] + stack[1..][..n - 1];
      }
    }
  }

  lemma {:induction false} ShallowerAppend(a: seq<Head>, b: seq<Head>, level: nat)
    ensures Shallower(a + b, level) == Shallower(a, level) + Shallower(b, level)
  {
    if a == [] {
      assert a + b == b;
    } else {
      assert (a + b)[1..] == a[1..] + b;
      ShallowerAppend(a[1..], b, level);
    }
  }

  /** A heading stays open under a new one that is deeper. */
  lemma OpenStays(heads: seq<Head>, h: Head, k: nat)
    requires k < |heads|
    ensures Open(heads + [h], k) <==> Open(heads, k) && heads[k].level < h.level
  {
    var more := heads + [h];
    if Open(more, k) {
      assert more[|heads|].level > more[k].level;
      forall m | k < m < |heads| ensures heads[m].level > heads[k].level {
        assert more[m] == heads[m];
      }
    }
  }

  /** One more heading closes the ones that are not shallower and opens itself. */
  lemma {:induction false} OpenAppend(heads: seq<Head>, h: Head, k: nat)
    requires k <= |heads|
    ensures OpenFrom(heads + [h], k) == Shallower(OpenFrom(heads, k), h.level) + [h]
    decreases |heads| - k
  {
    var more := heads + [h];
    if k == |heads| {
      assert Open(more, k);
      assert OpenFrom(more, k + 1) == [];
    } else {
      OpenAppend(heads, h, k + 1);
      OpenStays(heads, h, k);
      hide Open;
      ShallowerAppend(if Open(heads, k) then [heads[k]] else [], OpenFrom(heads, k + 1), h.level);
    }
  }

  // ---------------------------------------------------------------- regions

  /** A run of lines that becomes one block, and the headings seen by then. */
  datatype Region = Region(kind: Kind, first: nat, past: nat, heads: seq<Head>)

  /** Lines gathered so far for the block being built. */
  datatype Pending = Nothing | Since(first: nat, kind: Kind)

  predicate Behind(pending: Pending, i: nat) {
    pending.Since? ==> pending.first < i
  }

  predicate Within(regions: seq<Region>, lines: nat) {
    forall k :: 0 <= k < |regions| ==> regions[k].first < regions[k].past <= lines
  }

  function Close(pending: Pending, past: nat, heads: seq<Head>): seq<Region> {
    if pending.Nothing? then [] else [Region(pending.kind, pending.first, past, heads)]
  }

  function FenceEnd(texts: seq<string>, i: nat, marker: string): (past: nat)
    requires i < |texts|
    ensures i < past <= |texts|
  {
    var j := FenceClose(texts, i + 1, marker);
    if j == |texts| then j else j + 1
  }

  /** What looking at line `i` produces, and where the scan goes on. */
  datatype Progress = Progress(emitted: seq<Region>, next: nat, pending: Pending, heads: seq<Head>)

  function ScanLine(rules: Rules, texts: seq<string>, i: nat, pending: Pending, heads: seq<Head>): (r: Progress)
    requires i < |texts| && Behind(pending, i)
    ensures i < r.next <= |texts| && Behind(r.pending, r.next) && Within(r.emitted, |texts|)
  {
    var line := texts[i];
    var closed := Close(pending, i, heads);
    if rules.fence(line).Some? then
      var past := FenceEnd(texts, i, rules.fence(line).value);
      Progress(closed + [Region(Paragraph, i, past, heads)], past, Nothing, heads)
    else if rules.heading(line).Some? then
      var heads' := heads + [HeadOf(rules, line, i)];
      Progress(closed + [Region(Heading, i, i + 1, heads')], i + 1, Nothing, heads')
    else if Strip(line) == "" then
      Progress(closed, i + 1, Nothing, heads)
    else
      var kind := KindOf(rules, line);
      if pending.Nothing? then Progress([], i + 1, Since(i, kind), heads)
      else if kind != pending.kind then Progress(closed, i + 1, Since(i, kind), heads)
      else Progress([], i + 1, pending, heads)
  }

  /** The regions that the lines from `i` on fall into. */
  function Regions(rules: Rules, texts: seq<string>, i: nat, pending: Pending, heads: seq<Head>): (r: seq<Region>)
    requires i <= |texts| && Behind(pending, i)
    ensures Within(r, |texts|)
    decreases |texts| - i
  {
    if i == |texts| then Close(pending, i, heads)
    else
      var p := ScanLine(rules, texts, i, pending, heads);
      p.emitted + Regions(rules, texts, p.next, p.pending, p.heads)
  }

  function HeadOf(rules: Rules, line: string, i: nat): Head
    requires rules.heading(line).Some?
  {
    Head(rules.heading(line).value.0, Strip(rules.heading(line).value.1), i)
  }

  /** The headings of the text from line `i` on, fenced lines skipped. */
  function HeadsFrom(rules: Rules, texts: seq<string>, i: nat): seq<Head>
    requires i <= |texts|
    decreases |texts| - i
  {
    if i == |texts| then []
    else if rules.fence(texts[i]).Some? then
      HeadsFrom(rules, texts, FenceEnd(texts, i, rules.fence(texts[i]).value))
    else if rules.heading(texts[i]).Some? then
      [HeadOf(rules, texts[i], i)] + HeadsFrom(rules, texts, i + 1)
    else HeadsFrom(rules, texts, i + 1)
  }

  /** The headings on lines up to `line`. */
  function Until(heads: seq<Head>, line: nat): seq<Head> {
    if heads == [] then []
    else (if heads[0].line <= line then [heads[0]] else []) + Until(heads[1..], line)
  }

  lemma {:induction false} UntilAppend(a: seq<Head>, b: seq<Head>, line: nat)
    ensures Until(a + b, line) == Until(a, line) + Until(b, line)
  {
    if a == [] {
      assert a + b == b;
    } else {
      assert (a + b)[1..] == a[1..] + b;
      UntilAppend(a[1..], b, line);
    }
  }

  lemma {:induction false} UntilAll(heads: seq<Head>, line: nat)
    requires forall h :: h in heads ==> h.line <= line
    ensures Until(heads, line) == heads
  {
    if heads != [] {
      assert heads[0] in heads;
      UntilAll(heads[1..], line);
    }
  }

  lemma {:induction false} UntilNone(heads: seq<Head>, line: nat)
    requires forall h :: h in heads ==> h.line > line
    ensures Until(heads, line) == []
  {
    if heads != [] {
      assert heads[0] in heads;
      UntilNone(heads[1..], line);
    }
  }

  lemma {:induction false} HeadsAreLater(rules: Rules, texts: seq<string>, i: nat)
    requires i <= |texts|
    ensures forall h :: h in HeadsFrom(rules, texts, i) ==> i <= h.line < |texts|
    decreases |texts| - i
  {
    if i < |texts| {
      if rules.fence(texts[i]).Some? {
        HeadsAreLater(rules, texts, FenceEnd(texts, i, rules.fence(texts[i]).value));
      } else {
        HeadsAreLater(rules, texts, i + 1);
      }
    }
  }

  /** Where the block being built began, or where the next may begin. */
  function From(pending: Pending, i: nat): nat {
    if pending.Since? then pending.first else i
  }

  ghost predicate PendingOk(rules: Rules, texts: seq<string>, i: nat, pending: Pending) {
    pending.Since? ==> pending.first < i <= |texts| && !Blank(texts[pending.first])
  }

  /** Regions follow each other, stay within the text, and begin with a line that is not blank. */
  ghost predicate Ordered(texts: seq<string>, from: nat, regions: seq<Region>) {
    && (forall k :: 0 <= k < |regions| ==>
          from <= regions[k].first < regions[k].past <= |texts| && !Blank(texts[regions[k].first]))
    && (forall k, l :: 0 <= k < l < |regions| ==> regions[k].past <= regions[l].first)
  }

  ghost predicate InSome(regions: seq<Region>, l: nat) {
    exists k :: 0 <= k < |regions| && regions[k].first <= l < regions[k].past
  }

  /** Every line that is not blank is in some region. */
  ghost predicate CoversLines(texts: seq<string>, from: nat, regions: seq<Region>) {
    forall l :: from <= l < |texts| && !Blank(texts[l]) ==> InSome(regions, l)
  }

  lemma Prepend(texts: seq<string>, from: nat, mid: nat, front: seq<Region>, rest: seq<Region>)
    requires from <= mid <= |texts|
    requires Ordered(texts, from, front) && (forall k :: 0 <= k < |front| ==> front[k].past <= mid)
    requires forall l :: from <= l < mid && !Blank(texts[l]) ==> InSome(front, l)
    requires Ordered(texts, mid, rest) && CoversLines(texts, mid, rest)
    ensures Ordered(texts, from, front + rest) && CoversLines(texts, from, front + rest)
  {
    forall l | from <= l < |texts| && !Blank(texts[l]) ensures InSome(front + rest, l) {
      if l < mid {
        var k :| 0 <= k < |front| && front[k].first <= l < front[k].past;
        assert (front + rest)[k] == front[k];
      } else {
        var k :| 0 <= k < |rest| && rest[k].first <= l < rest[k].past;
        assert (front + rest)[|front| + k] == rest[k];
      }
    }
  }

  lemma ClosedCovers(texts: seq<string>, i: nat, pending: Pending, heads: seq<Head>, l: nat)
    requires From(pending, i) <= l < i
    ensures InSome(Close(pending, i, heads), l)
  {
    assert Close(pending, i, heads)[0].first <= l;
  }

  lemma ScanLineCovers(rules: Rules, texts: seq<string>, i: nat, pending: Pending, heads: seq<Head>, l: nat)
    requires i < |texts| && Behind(pending, i)
    ensures var p := ScanLine(rules, texts, i, pending, heads);
      From(pending, i) <= l < From(p.pending, p.next) && !Blank(texts[l]) ==> InSome(p.emitted, l)
  {
    var p := ScanLine(rules, texts, i, pending, heads);
    var closed := Close(pending, i, heads);
    StripEmptyIffBlank(texts[i]);
    if From(pending, i) <= l < From(p.pending, p.next) && !Blank(texts[l]) {
      if l < i {
        ClosedCovers(texts, i, pending, heads, l);
        var k :| 0 <= k < |closed| && closed[k].first <= l < closed[k].past;
        assert p.emitted[k] == closed[k];
      } else {
        assert p.emitted[|closed|].first <= l < p.emitted[|closed|].past;
      }
    }
  }

  lemma ScanLineOrdered(rules: Rules, texts: seq<string>, i: nat, pending: Pending, heads: seq<Head>)
    requires Sound(rules) && i < |texts| && PendingOk(rules, texts, i, pending)
    ensures var p := ScanLine(rules, texts, i, pending, heads);
      && PendingOk(rules, texts, p.next, p.pending)
      && Ordered(texts, From(pending, i), p.emitted)
      && (forall k :: 0 <= k < |p.emitted| ==> p.emitted[k].past <= From(p.pending, p.next))
  {
    hide Strip, Blank, HeadOf, KindOf;
    StripEmptyIffBlank(texts[i]);
  }

  /** What one line produces is in order and leaves no line behind. */
  lemma ScanLineSound(rules: Rules, texts: seq<string>, i: nat, pending: Pending, heads: seq<Head>)
    requires Sound(rules) && i < |texts| && PendingOk(rules, texts, i, pending)
    ensures var p := ScanLine(rules, texts, i, pending, heads);
      var from, mid := From(pending, i), From(p.pending, p.next);
      && from <= mid && PendingOk(rules, texts, p.next, p.pending)
      && Ordered(texts, from, p.emitted)
      && (forall k :: 0 <= k < |p.emitted| ==> p.emitted[k].past <= mid)
      && (forall l :: from <= l < mid && !Blank(texts[l]) ==> InSome(p.emitted, l))
  {
    var p := ScanLine(rules, texts, i, pending, heads);
    ScanLineOrdered(rules, texts, i, pending, heads);
    forall l | From(pending, i) <= l < From(p.pending, p.next) && !Blank(texts[l]) ensures InSome(p.emitted, l) {
      ScanLineCovers(rules, texts, i, pending, heads, l);
    }
  }

  lemma {:induction false} RegionsSound(rules: Rules, texts: seq<string>, i: nat, pending: Pending, heads: seq<Head>)
    requires Sound(rules) && i <= |texts| && PendingOk(rules, texts, i, pending)
    ensures var regions := Regions(rules, texts, i, pending, heads);
      Ordered(texts, From(pending, i), regions) && CoversLines(texts, From(pending, i), regions)
    decreases |texts| - i
  {
    if i == |texts| {
      forall l | From(pending, i) <= l < i ensures InSome(Close(pending, i, heads), l) {
        ClosedCovers(texts, i, pending, heads, l);
      }
    } else {
      var p := ScanLine(rules, texts, i, pending, heads);
      ScanLineSound(rules, texts, i, pending, heads);
      RegionsSound(rules, texts, p.next, p.pending, p.heads);
      Prepend(texts, From(pending, i), From(p.pending, p.next), p.emitted,
              Regions(rules, texts, p.next, p.pending, p.heads));
    }
  }

  ghost predicate HasHead(heads: seq<Head>, line: nat) {
    exists h :: h in heads && h.line == line
  }

  /** A region knows exactly the headings up to its first line, and is a heading itself
      exactly when one stands there. */
  ghost predicate FiledRight(all: seq<Head>, r: Region) {
    r.heads == Until(all, r.first) && (r.kind == Heading <==> HasHead(all, r.first))
  }

  lemma FiledBetween(before: seq<Head>, after: seq<Head>, r: Region)
    requires r.heads == before && r.kind != Heading
    requires (forall h :: h in before ==> h.line < r.first) && (forall h :: h in after ==> h.line > r.first)
    ensures FiledRight(before + after, r)
  {
    UntilAppend(before, after, r.first);
    UntilAll(before, r.first);
    UntilNone(after, r.first);
  }

  /** The headings one line adds. */
  function NewHeads(rules: Rules, line: string, i: nat): seq<Head> {
    if rules.fence(line).None? && rules.heading(line).Some? then [HeadOf(rules, line, i)] else []
  }

  lemma {:induction false} HeadsStep(rules: Rules, texts: seq<string>, i: nat, pending: Pending, heads: seq<Head>)
    requires i < |texts| && Behind(pending, i)
    ensures var p := ScanLine(rules, texts, i, pending, heads);
      && p.heads == heads + NewHeads(rules, texts[i], i)
      && HeadsFrom(rules, texts, i) == NewHeads(rules, texts[i], i) + HeadsFrom(rules, texts, p.next)
  {
  }

  lemma ClosedFiled(pending: Pending, i: nat, heads: seq<Head>, after: seq<Head>)
    requires pending.Since? ==> pending.first < i && pending.kind != Heading
    requires (forall h :: h in heads ==> h.line < From(pending, i)) && (forall h :: h in after ==> h.line >= i)
    ensures forall r :: r in Close(pending, i, heads) ==> FiledRight(heads + after, r)
  {
    if pending.Since? {
      FiledBetween(heads, after, Region(pending.kind, pending.first, i, heads));
    }
  }

  lemma HeadingFiled(heads: seq<Head>, h: Head, after: seq<Head>)
    requires (forall g :: g in heads ==> g.line < h.line) && (forall g :: g in after ==> g.line > h.line)
    ensures FiledRight(heads + [h] + after, Region(Heading, h.line, h.line + 1, heads + [h]))
  {
    UntilAppend(heads + [h], after, h.line);
    UntilAll(heads + [h], h.line);
    UntilNone(after, h.line);
    assert (heads + [h] + after)[|heads|] == h;
  }

  /** What one line produces is filed under the headings seen so far. */
  lemma ScanLineFiled(rules: Rules, texts: seq<string>, i: nat, pending: Pending, heads: seq<Head>, after: seq<Head>)
    requires i < |texts| && (pending.Since? ==> pending.first < i && pending.kind != Heading)
    requires forall h :: h in heads ==> h.line < From(pending, i)
    requires forall h :: h in after ==> h.line > i
    ensures forall r :: r in ScanLine(rules, texts, i, pending, heads).emitted ==>
              FiledRight(heads + NewHeads(rules, texts[i], i) + after, r)
  {
    var line := texts[i];
    var added := NewHeads(rules, line, i);
    ClosedFiled(pending, i, heads, added + after);
    assert heads + added + after == heads + (added + after);
    if rules.fence(line).Some? {
      FiledBetween(heads, added + after, Region(Paragraph, i, FenceEnd(texts, i, rules.fence(line).value), heads));
    } else if rules.heading(line).Some? {
      HeadingFiled(heads, added[0], after);
    }
  }

  lemma {:induction false} RegionsFiled(rules: Rules, texts: seq<string>, i: nat, pending: Pending, heads: seq<Head>)
    requires i <= |texts| && (pending.Since? ==> pending.first < i && pending.kind != Heading)
    requires forall h :: h in heads ==> h.line < From(pending, i)
    ensures forall r :: r in Regions(rules, texts, i, pending, heads) ==>
              FiledRight(heads + HeadsFrom(rules, texts, i), r)
    decreases |texts| - i
  {
    if i == |texts| {
      if pending.Since? {
        FiledBetween(heads, [], Region(pending.kind, pending.first, i, heads));
      }
    } else {
      var p := ScanLine(rules, texts, i, pending, heads);
      var after := HeadsFrom(rules, texts, p.next);
      HeadsStep(rules, texts, i, pending, heads);
      HeadsAreLater(rules, texts, p.next);
      ScanLineFiled(rules, texts, i, pending, heads, after);
      RegionsFiled(rules, texts, p.next, p.pending, p.heads);
      assert heads + HeadsFrom(rules, texts, i) == heads + NewHeads(rules, texts[i], i) + after;
      assert p.heads + after == heads + NewHeads(rules, texts[i], i) + after;
    }
  }
}
