/** Preparing, flattening and assembling said outright: which blocks stay, where their texts stand,
    and what a chunk of a stretch of text holds. */
module ChunkShape {
  import opened Wrappers
  import opened Texts
  import opened Sorting
  import opened Passages
  import opened Ranges
  import opened Chunks

  // ---------------------------------------------------------------- prepared blocks

  /** Blocks with text that are neither header, footer nor page number. */
  ghost predicate Stays(b: SourceBlock) {
    b.kind !in {"header", "footer", "page_number"} && exists p :: 0 <= p < |b.text| && !IsSpace(b.text[p])
  }

  ghost predicate ReadsBefore(a: SourceBlock, b: SourceBlock) {
    a.pageNo < b.pageNo || (a.pageNo == b.pageNo && a.readingOrder < b.readingOrder)
  }

  /** The blocks of one place that stay, in order. */
  ghost function StayingAt(blocks: seq<SourceBlock>, page: int, order: int): seq<SourceBlock> {
    if blocks == [] then []
    else
      (if Stays(blocks[0]) && blocks[0].pageNo == page && blocks[0].readingOrder == order then [blocks[0]] else [])
      + StayingAt(blocks[1..], page, order)
  }

  /** Those that stay, by page and reading order; blocks of one place in the order they came. */
  ghost predicate IsPrepared(blocks: seq<SourceBlock>, r: seq<SourceBlock>) {
    && (forall b :: b in r ==> Stays(b))
    && (forall i, j :: 0 <= i < j < |r| ==> !ReadsBefore(r[j], r[i]))
    && forall page, order :: StayingAt(r, page, order) == StayingAt(blocks, page, order)
  }

  lemma StaysIff(b: SourceBlock)
    ensures Stays(b) <==> Strip(b.text) != "" && !b.IsFurniture()
  {
    StripEmptyIffBlank(b.text);
  }

  lemma {:induction false} StayingIsClass(blocks: seq<SourceBlock>, x: SourceBlock)
    ensures StayingAt(blocks, x.pageNo, x.readingOrder) == Class(Kept(blocks), x, Earlier)
  {
    hide Stays, Strip;
    if blocks != [] {
      StayingIsClass(blocks[1..], x);
      StaysIff(blocks[0]);
      assert Alike(blocks[0], x, Earlier)
        <==> blocks[0].pageNo == x.pageNo && blocks[0].readingOrder == x.readingOrder;
      assert ([blocks[0]] + Kept(blocks[1..]))[1..] == Kept(blocks[1..]) == [] + Kept(blocks[1..]);
    }
  }

  lemma {:induction false} KeptAgain(r: seq<SourceBlock>)
    requires forall b :: b in r ==> Stays(b)
    ensures Kept(r) == r
  {
    hide Stays, Strip;
    if r != [] {
      StaysIff(r[0]);
      assert r[0] in r;
      KeptAgain(r[1..]);
    }
  }

  lemma {:induction false} InStaying(blocks: seq<SourceBlock>, b: SourceBlock)
    ensures multiset(StayingAt(blocks, b.pageNo, b.readingOrder))[b] == if Stays(b) then multiset(blocks)[b] else 0
  {
    hide Stays;
    if blocks != [] {
      InStaying(blocks[1..], b);
      assert blocks == [blocks[0]] + blocks[1..];
    }
  }

  /** This says what preparing returns. */
  lemma {:induction false} PreparedIff(blocks: seq<SourceBlock>, r: seq<SourceBlock>)
    ensures IsPrepared(blocks, r) <==> r == Prepare(blocks)
  {
    hide Stays, Kept, Class, StayingAt, Strip, Sort;
    var all := Prepare(blocks);
    assert WeakOrder(Earlier);
    PreparedStays(blocks);
    KeptAgain(all);
    SortSorts(Kept(blocks), Earlier);
    assert forall a, b :: Earlier(a, b) <==> ReadsBefore(a, b);
    forall page, order ensures StayingAt(all, page, order) == StayingAt(blocks, page, order) {
      var x := SourceBlock("", page, order, "", "", false, None, []);
      StayingIsClass(all, x);
      StayingIsClass(blocks, x);
      SortIsStable(Kept(blocks), x, Earlier);
    }
    if IsPrepared(blocks, r) {
      OnlyPrepared(blocks, r, all);
    }
  }

  lemma PreparedStays(blocks: seq<SourceBlock>)
    ensures forall b :: b in Prepare(blocks) ==> Stays(b)
  {
    hide Stays, Prepare;
    forall b | b in Prepare(blocks) ensures Stays(b) {
      PrepareKeeps(blocks, b);
      StaysIff(b);
      assert b in multiset(Prepare(blocks));
    }
  }

  lemma {:induction false} OnlyPrepared(blocks: seq<SourceBlock>, r: seq<SourceBlock>, s: seq<SourceBlock>)
    requires IsPrepared(blocks, r) && IsPrepared(blocks, s)
    ensures r == s
  {
    hide Stays, StayingAt, Class;
    assert WeakOrder(Earlier);
    KeptAgain(r);
    KeptAgain(s);
    forall x ensures Class(r, x, Earlier) == Class(s, x, Earlier) {
      StayingIsClass(r, x);
      StayingIsClass(s, x);
    }
    forall b ensures multiset(r)[b] == multiset(s)[b] {
      InStaying(r, b);
      InStaying(s, b);
    }
    assert multiset(r) == multiset(s);
    StableIsUnique(r, s, Earlier);
  }

  // ---------------------------------------------------------------- flattened text

  /** Span `k` holds the text of block `k`, and an empty line leads to it from the span before. */
  ghost predicate LaidAt(blocks: seq<SourceBlock>, doc: string, spans: seq<Span>, k: nat)
    requires k < |spans| == |blocks|
  {
    && spans[k].start <= spans[k].end <= |doc| && spans[k].block == blocks[k]
    && doc[spans[k].start..spans[k].end] == Strip(blocks[k].text)
    && (k > 0 ==>
          spans[k].start == spans[k - 1].end + 2 <= |doc| && doc[spans[k - 1].end..spans[k].start] == "\n\n")
  }

  /** The trimmed texts from the first on, an empty line between two, and nothing else. */
  ghost predicate Laid(blocks: seq<SourceBlock>, doc: string, spans: seq<Span>) {
    && |spans| == |blocks|
    && (forall k :: 0 <= k < |spans| ==> LaidAt(blocks, doc, spans, k))
    && (if spans == [] then doc == "" else spans[0].start == 0 && spans[|spans| - 1].end == |doc|)
  }

  lemma LaidBefore(blocks: seq<SourceBlock>, doc: string, spans: seq<Span>, k: nat, b: SourceBlock, more: string,
                   s: Span)
    requires k < |spans| == |blocks| && LaidAt(blocks, doc, spans, k)
    ensures LaidAt(blocks + [b], doc + more, spans + [s], k)
  {
    hide Strip;
    var doc' := doc + more;
    assert doc'[spans[k].start..spans[k].end] == doc[spans[k].start..spans[k].end];
    if k > 0 {
      assert doc'[spans[k - 1].end..spans[k].start] == doc[spans[k - 1].end..spans[k].start];
    }
  }

  lemma LaidLast(blocks: seq<SourceBlock>, doc: string, spans: seq<Span>, b: SourceBlock, text: string)
    requires |spans| == |blocks| && text == Strip(b.text)
    requires spans != [] ==> spans[|spans| - 1].end == |doc|
    ensures var gap := if spans == [] then "" else "\n\n";
      var s := Span(|doc| + |gap|, |doc| + |gap| + |text|, b);
      LaidAt(blocks + [b], doc + gap + text, spans + [s], |spans|)
  {
    hide Strip;
    var gap := if spans == [] then "" else "\n\n";
    ThreeParts(doc, gap, text);
  }

  lemma ThreeParts(a: string, b: string, c: string)
    ensures var s := a + b + c;
      s[|a|..|a| + |b|] == b && s[|a| + |b|..|a| + |b| + |c|] == c
  {
    var s, t := a + b + c, a + b;
    assert s == t + c && s[|t|..|t| + |c|] == c;
    assert s[..|t|] == t && t[|a|..] == b;
    assert s[|a|..|t|] == s[..|t|][|a|..];
  }

  lemma LaidOneMore(blocks: seq<SourceBlock>, doc: string, spans: seq<Span>, b: SourceBlock)
    requires Laid(blocks, doc, spans)
    ensures var gap := if spans == [] then "" else "\n\n";
      Laid(blocks + [b], doc + gap + Strip(b.text),
           spans + [Span(|doc| + |gap|, |doc| + |gap| + |Strip(b.text)|, b)])
  {
    hide Strip, LaidAt;
    var gap := if spans == [] then "" else "\n\n";
    var text := Strip(b.text);
    var s := Span(|doc| + |gap|, |doc| + |gap| + |text|, b);
    assert doc + gap + text == doc + (gap + text);
    forall k | 0 <= k < |spans| ensures LaidAt(blocks + [b], doc + gap + text, spans + [s], k) {
      LaidBefore(blocks, doc, spans, k, b, gap + text, s);
    }
    LaidLast(blocks, doc, spans, b, text);
  }

  lemma {:induction false} FlatIsLaid(blocks: seq<SourceBlock>)
    requires Texted(blocks)
    ensures Laid(blocks, FlatText(blocks), FlatSpans(blocks))
  {
    hide Strip, Laid;
    if blocks == [] {
      assert Laid([], "", []) by { NothingLaid(); }
    } else {
      var front, b := blocks[..|blocks| - 1], blocks[|blocks| - 1];
      FlatIsLaid(front);
      assert blocks == front + [b] && b in blocks;
      FlatIsFlattened(front);
      LaidOneMore(front, FlatText(front), FlatSpans(front), b);
      assert FlatText(front) == "" ==> "" + "" + Strip(b.text) == Strip(b.text);
    }
  }

  lemma NothingLaid()
    ensures Laid([], "", [])
  {
  }

  // ---------------------------------------------------------------- what a chunk holds

  ghost predicate TouchedBy(s: Span, r: Range) {
    s.start < r.1 && r.0 < s.end
  }

  /** The range touches exactly the spans from `lo` up to `hi`. */
  ghost predicate Touches(spans: seq<Span>, r: Range, lo: nat, hi: nat) {
    lo <= hi <= |spans| && forall k :: 0 <= k < |spans| ==> (TouchedBy(spans[k], r) <==> lo <= k < hi)
  }

  lemma TouchesOneMore(s: Span, rest: seq<Span>, r: Range, lo: nat, hi: nat)
    requires Touches(rest, r, lo, hi) && (TouchedBy(s, r) ==> lo == hi || lo == 0)
    ensures TouchedBy(s, r) ==> Touches([s] + rest, r, 0, if lo == hi then 1 else hi + 1)
    ensures !TouchedBy(s, r) ==> Touches([s] + rest, r, lo + 1, hi + 1)
  {
    hide TouchedBy;
    var all := [s] + rest;
    forall k | 0 < k < |all| ensures TouchedBy(all[k], r) <==> lo <= k - 1 < hi {
      assert all[k] == rest[k - 1];
    }
  }

  lemma InRangeOne(spans: seq<Span>, r: Range)
    requires spans != []
    ensures InRange(spans, r.0, r.1)
      == (if TouchedBy(spans[0], r) then [spans[0].block] else []) + InRange(spans[1..], r.0, r.1)
  {
  }

  /** The blocks whose spans the range overlaps, in order: adjacent ones, since spans do not overlap. */
  lemma {:induction false} TouchedAreAdjacent(spans: seq<Span>, r: Range) returns (lo: nat, hi: nat)
    requires SpansApart(spans) && forall k :: 0 <= k < |spans| ==> spans[k].start < spans[k].end
    ensures Touches(spans, r, lo, hi) && InRange(spans, r.0, r.1) == BlocksOf(spans[lo..hi])
  {
    hide InRange, Touches;
    if spans == [] {
      lo, hi := 0, 0;
      NothingTouched(r);
    } else {
      var rest := spans[1..];
      assert spans == [spans[0]] + rest;
      lo, hi := TouchedAreAdjacent(rest, r);
      InRangeOne(spans, r);
      FirstTouched(spans, r, lo, hi);
      TouchesOneMore(spans[0], rest, r, lo, hi);
      if !TouchedBy(spans[0], r) {
        assert spans[lo + 1..hi + 1] == rest[lo..hi];
        lo, hi := lo + 1, hi + 1;
      } else {
        assert spans[0..if lo == hi then 1 else hi + 1] == [spans[0]] + rest[lo..hi];
        lo, hi := 0, if lo == hi then 1 else hi + 1;
      }
    }
  }

  lemma NothingTouched(r: Range)
    ensures Touches([], r, 0, 0) && InRange([], r.0, r.1) == []
  {
  }

  lemma FirstTouched(spans: seq<Span>, r: Range, lo: nat, hi: nat)
    requires SpansApart(spans) && (forall k :: 0 <= k < |spans| ==> spans[k].start < spans[k].end)
    requires spans != [] && Touches(spans[1..], r, lo, hi)
    ensures hi <= |spans[1..]| && lo <= hi
    ensures TouchedBy(spans[0], r) ==> lo == hi || lo == 0
  {
    var rest := spans[1..];
    if lo < hi {
      assert rest[0] == spans[1] && rest[lo] == spans[lo + 1];
      assert lo > 0 ==> spans[1].end <= spans[lo + 1].start;
      assert TouchedBy(rest[lo], r) && (lo > 0 ==> !TouchedBy(rest[0], r));
    }
  }

  /** The text of the range from its first to its last character that is not whitespace. */
  ghost predicate TrimmedTo(doc: string, r: Range, text: string)
    requires RangeIn(doc, r)
  {
    exists from: nat, past: nat :: TrimmedAt(doc, r, text, from, past)
  }

  ghost predicate TrimmedAt(doc: string, r: Range, text: string, from: nat, past: nat)
    requires RangeIn(doc, r)
  {
    && r.0 <= from < past <= r.1 && text == doc[from..past]
    && !IsSpace(doc[from]) && !IsSpace(doc[past - 1])
    && forall p :: r.0 <= p < from || past <= p < r.1 ==> IsSpace(doc[p])
  }

  ghost predicate PagesWithin(blocks: seq<SourceBlock>, lo: int, hi: int) {
    forall b :: b in blocks && b.paged ==> lo <= b.pageNo <= hi
  }

  ghost predicate CharsWithin(blocks: seq<SourceBlock>, lo: int, hi: int) {
    forall b :: b in blocks && b.chars.Some? ==> lo <= b.chars.value.0 && b.chars.value.1 <= hi
  }

  /** First and last page of the blocks that have one, if any has. */
  ghost predicate PagesOf(blocks: seq<SourceBlock>, pages: Option<(int, int)>) {
    match pages
    case None => forall b :: b in blocks ==> !b.paged
    case Some(p) =>
      && (exists b :: b in blocks && b.paged)
      && forall lo, hi :: PagesWithin(blocks, lo, hi) <==> lo <= p.0 && p.1 <= hi
  }

  /** Least start and greatest end of the blocks that know their characters, if any does. */
  ghost predicate CharsOf(blocks: seq<SourceBlock>, chars: Option<(int, int)>) {
    match chars
    case None => forall b :: b in blocks ==> b.chars.None?
    case Some(c) =>
      && (exists b :: b in blocks && b.chars.Some?)
      && forall lo, hi :: CharsWithin(blocks, lo, hi) <==> lo <= c.0 && c.1 <= hi
  }

  /** The longest heading trail, of several the first. */
  ghost predicate PathOf(blocks: seq<SourceBlock>, path: seq<string>) {
    exists k :: 0 <= k < |blocks| && PathAt(blocks, path, k)
  }

  ghost predicate PathAt(blocks: seq<SourceBlock>, path: seq<string>, k: nat)
    requires k < |blocks|
  {
    && path == blocks[k].sectionPath
    && forall j :: 0 <= j < |blocks| ==>
         |blocks[j].sectionPath| < |path| || (j >= k && |blocks[j].sectionPath| == |path|)
  }

  ghost predicate IsChunk(doc: string, r: Range, blocks: seq<SourceBlock>, seqNo: nat, count: string -> nat, c: Chunk)
    requires RangeIn(doc, r)
  {
    && c.seqNo == seqNo && !c.atomic && TrimmedTo(doc, r, c.text) && c.tokenCount == count(c.text)
    && |c.blockIds| == |blocks| && (forall k :: 0 <= k < |blocks| ==> c.blockIds[k] == blocks[k].id)
    && PagesOf(blocks, c.pages) && CharsOf(blocks, c.chars) && PathOf(blocks, c.sectionPath)
  }

  lemma {:induction false} TrimmedIff(doc: string, r: Range, text: string)
    requires RangeIn(doc, r)
    ensures TrimmedTo(doc, r, text) <==> text != "" && text == Strip(doc[r.0..r.1])
  {
    hide IsSpace, Strip, TrimmedAt;
    var part := doc[r.0..r.1];
    if text != "" && text == Strip(part) {
      StripIsTrimmed(doc, r);
    }
    if TrimmedTo(doc, r, text) {
      var from: nat, past: nat :| TrimmedAt(doc, r, text, from, past);
      TrimmedIsStrip(doc, r, text, from, past);
    }
  }

  lemma TrimmedIsStrip(doc: string, r: Range, text: string, from: nat, past: nat)
    requires RangeIn(doc, r) && TrimmedAt(doc, r, text, from, past)
    ensures text != "" && text == Strip(doc[r.0..r.1])
  {
    hide IsSpace, Strip;
    var part := doc[r.0..r.1];
    assert forall k :: 0 <= k < |part| ==> part[k] == doc[r.0 + k];
    assert doc[from..past] == part[from - r.0..past - r.0];
    TrimmedBy(part, from - r.0, past - r.0);
  }

  lemma PartOfPart(doc: string, r: Range, i: nat, j: nat)
    requires RangeIn(doc, r) && i <= j <= r.1 - r.0
    ensures doc[r.0..r.1][i..j] == doc[r.0 + i..r.0 + j]
  {
    var a, b := doc[r.0..r.1][i..j], doc[r.0 + i..r.0 + j];
    assert |a| == |b| && forall k :: 0 <= k < |a| ==> a[k] == doc[r.0..r.1][i + k] == doc[r.0 + (i + k)] == b[k];
  }

  lemma StripIsTrimmed(doc: string, r: Range)
    requires RangeIn(doc, r) && Strip(doc[r.0..r.1]) != ""
    ensures TrimmedTo(doc, r, Strip(doc[r.0..r.1]))
  {
    hide Strip, Lead, Trail, IsSpace;
    var part := doc[r.0..r.1];
    StripEmptyIffBlank(part);
    StripSlice(part);
    LeadSpec(part);
    TrailSpec(part);
    var from, past := r.0 + Lead(part), r.1 - Trail(part);
    assert forall k :: 0 <= k < |part| ==> part[k] == doc[r.0 + k];
    PartOfPart(doc, r, Lead(part), |part| - Trail(part));
    forall p | r.0 <= p < from || past <= p < r.1 ensures IsSpace(doc[p]) {
      assert doc[p] == part[p - r.0];
    }
    assert TrimmedAt(doc, r, Strip(part), from, past);
  }

  lemma TrimmedBy(s: string, from: nat, past: nat)
    requires from < past <= |s| && !IsSpace(s[from]) && !IsSpace(s[past - 1])
    requires forall p :: 0 <= p < from || past <= p < |s| ==> IsSpace(s[p])
    ensures Strip(s) == s[from..past]
  {
    hide IsSpace;
    assert !Blank(s);
    StripSlice(s);
    LeadSpec(s);
    TrailSpec(s);
  }

  lemma {:induction false} PagesIff(blocks: seq<SourceBlock>, pages: Option<(int, int)>)
    ensures PagesOf(blocks, pages) <==> pages == PageRange(blocks)
  {
    var range := PageRange(blocks);
    forall lo, hi
      ensures range.Some? ==> (PagesWithin(blocks, lo, hi) <==> lo <= range.value.0 && range.value.1 <= hi)
    {
      RangesAreLeast(blocks, lo, hi);
    }
    RangesAreLeast(blocks, 0, 0);
    if PagesOf(blocks, pages) && pages.Some? {
      assert PagesWithin(blocks, pages.value.0, pages.value.1) && PagesWithin(blocks, range.value.0, range.value.1);
    }
  }

  lemma {:induction false} CharsIff(blocks: seq<SourceBlock>, chars: Option<(int, int)>)
    ensures CharsOf(blocks, chars) <==> chars == CharRange(blocks)
  {
    var range := CharRange(blocks);
    forall lo, hi
      ensures range.Some? ==> (CharsWithin(blocks, lo, hi) <==> lo <= range.value.0 && range.value.1 <= hi)
    {
      RangesAreLeast(blocks, lo, hi);
    }
    RangesAreLeast(blocks, 0, 0);
    if CharsOf(blocks, chars) && chars.Some? {
      assert CharsWithin(blocks, chars.value.0, chars.value.1) && CharsWithin(blocks, range.value.0, range.value.1);
    }
  }

  lemma PathOneMore(front: seq<SourceBlock>, path: seq<string>, k: nat, last: SourceBlock)
    requires k < |front| && PathAt(front, path, k)
    ensures PathOf(front + [last], if |last.sectionPath| > |path| then last.sectionPath else path)
  {
    if |last.sectionPath| > |path| {
      assert PathAt(front + [last], last.sectionPath, |front|);
    } else {
      assert PathAt(front + [last], path, k);
    }
  }

  lemma {:induction false} PathIs(blocks: seq<SourceBlock>)
    requires blocks != []
    ensures PathOf(blocks, DeepestPath(blocks))
  {
    var front, last := blocks[..|blocks| - 1], blocks[|blocks| - 1];
    if front == [] {
      assert DeepestPath(front) == [];
      assert DeepestPath(blocks) == blocks[0].sectionPath && PathAt(blocks, DeepestPath(blocks), 0);
    } else {
      PathIs(front);
      assert DeepestPath(blocks)
        == if |last.sectionPath| > |DeepestPath(front)| then last.sectionPath else DeepestPath(front);
      hide DeepestPath;
      var k :| 0 <= k < |front| && PathAt(front, DeepestPath(front), k);
      assert blocks == front + [last];
      PathOneMore(front, DeepestPath(front), k, last);
    }
  }

  lemma OnlyPath(blocks: seq<SourceBlock>, a: seq<string>, b: seq<string>)
    requires PathOf(blocks, a) && PathOf(blocks, b)
    ensures a == b
  {
    var j :| 0 <= j < |blocks| && PathAt(blocks, a, j);
    var k :| 0 <= k < |blocks| && PathAt(blocks, b, k);
  }

  /** What the chunk of a range is: the range's text, trimmed and counted, its number, the blocks in
      order, the least ranges around their pages and characters, and their deepest heading trail. */
  lemma {:induction false} AssembledIff(doc: string, r: Range, blocks: seq<SourceBlock>, seqNo: nat,
                                        count: string -> nat, c: Chunk)
    requires RangeIn(doc, r)
    ensures Some(c) == Assemble(seqNo, doc[r.0..r.1], blocks, count)
       <==> blocks != [] && IsChunk(doc, r, blocks, seqNo, count, c)
  {
    hide Strip, PagesOf, CharsOf, PathOf, TrimmedTo, PageRange, CharRange, DeepestPath;
    TrimmedIff(doc, r, c.text);
    PagesIff(blocks, c.pages);
    CharsIff(blocks, c.chars);
    assert (|c.blockIds| == |blocks| && forall k :: 0 <= k < |blocks| ==> c.blockIds[k] == blocks[k].id)
      <==> c.blockIds == Ids(blocks);
    if blocks != [] {
      PathIs(blocks);
      if PathOf(blocks, c.sectionPath) {
        OnlyPath(blocks, c.sectionPath, DeepestPath(blocks));
      }
    }
  }

  // ---------------------------------------------------------------- the chunks of several ranges

  /** The places of the ranges that have text. */
  ghost predicate TextAt(doc: string, ranges: seq<Range>, at: seq<nat>)
    requires RangesIn(doc, ranges)
  {
    && (forall j, k :: 0 <= j < k < |at| ==> at[j] < at[k])
    && forall i: nat :: i in at <==> i < |ranges| && HasText(doc, ranges[i])
  }

  /** One chunk for each range with text, numbered in order, with the blocks that overlap it. */
  ghost predicate ChunksAt(doc: string, spans: seq<Span>, ranges: seq<Range>, at: seq<nat>, count: string -> nat,
                           chunks: seq<Chunk>)
    requires RangesIn(doc, ranges)
  {
    && TextAt(doc, ranges, at) && |chunks| == |at|
    && forall k :: 0 <= k < |at| ==> ChunkAt(doc, spans, ranges, at[k], k, count, chunks[k])
  }

  ghost predicate ChunkAt(doc: string, spans: seq<Span>, ranges: seq<Range>, i: nat, k: nat, count: string -> nat,
                          c: Chunk)
    requires RangesIn(doc, ranges)
  {
    i < |ranges| && IsChunk(doc, ranges[i], InRange(spans, ranges[i].0, ranges[i].1), k, count, c)
  }

  ghost predicate AreChunks(doc: string, spans: seq<Span>, ranges: seq<Range>, count: string -> nat, chunks: seq<Chunk>)
    requires RangesIn(doc, ranges)
  {
    exists at :: ChunksAt(doc, spans, ranges, at, count, chunks)
  }

  lemma {:induction false} WithTextAt(doc: string, ranges: seq<Range>) returns (at: seq<nat>)
    requires RangesIn(doc, ranges)
    ensures TextAt(doc, ranges, at) && |WithText(doc, ranges)| == |at|
    ensures forall k :: 0 <= k < |at| ==> at[k] < |ranges| && WithText(doc, ranges)[k] == ranges[at[k]]
  {
    hide HasText;
    if ranges == [] {
      at := [];
    } else {
      var front := ranges[..|ranges| - 1];
      at := WithTextAt(doc, front);
      forall k | 0 <= k < |at| ensures at[k] < |front| {
        assert at[k] in at;
      }
      if HasText(doc, ranges[|ranges| - 1]) {
        at := at + [|front|];
      }
    }
  }

  lemma CitedIsChunk(doc: string, spans: seq<Span>, r: Range, c: Chunk, k: nat, count: string -> nat)
    requires RangeIn(doc, r) && Cites(doc, spans, r, c, k, count)
    ensures IsChunk(doc, r, InRange(spans, r.0, r.1), k, count, c)
  {
    AssembledIff(doc, r, InRange(spans, r.0, r.1), k, count, c);
  }

  /** What ranges of a flattened document become. */
  lemma {:induction false} ChunksAre(doc: string, spans: seq<Span>, ranges: seq<Range>, count: string -> nat)
    requires Flattened(doc, spans) && RangesIn(doc, ranges)
    ensures AreChunks(doc, spans, ranges, count, ChunksOf(doc, spans, ranges, count))
  {
    hide Flattened, ChunksOf, Cites, IsChunk, TextAt, WithText, InRange;
    var chunks := ChunksOf(doc, spans, ranges, count);
    ChunksCiteRanges(doc, spans, ranges, count);
    var at := WithTextAt(doc, ranges);
    forall k | 0 <= k < |at| ensures ChunkAt(doc, spans, ranges, at[k], k, count, chunks[k]) {
      assert Cites(doc, spans, WithText(doc, ranges)[k], chunks[k], k, count);
      CitedIsChunk(doc, spans, ranges[at[k]], chunks[k], k, count);
    }
    assert ChunksAt(doc, spans, ranges, at, count, chunks);
  }
}
