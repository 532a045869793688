/** A printer for table cells, and the proof that parsing what it prints recovers the number. */
module NumericRoundTrip {
  import opened Wrappers
  import opened Texts
  import opened Digits
  import opened Rounding
  import opened Numeric

  // ---------------------------------------------------------------- the printer

  /** A bracketed reference of one or two digits, with any spacing. */
  datatype Note = Note(gap: nat, open: char, left: nat, digits: string, right: nat, close: char) {
    predicate Valid() {
      IsOpen(open) && IsClose(close) && 1 <= |digits| <= 2 && AllDigits(digits)
    }
  }

  /** The minus of a keyboard, or the one of mathematics. */
  datatype Sign = Unsigned | Plus | Minus | MathMinus

  /** A numeral: digits, perhaps a point, perhaps digits after it. */
  datatype Decimal = Decimal(whole: string, point: bool, part: string) {
    predicate Valid() {
      AllDigits(whole) && AllDigits(part) && whole + part != "" && (part != "" ==> point)
    }

    function Coefficient(): nat
      requires Valid()
    {
      ReadNat(whole + part)
    }
  }

  function Numeral(d: Decimal): string {
    d.whole + (if d.point then "." else "") + d.part
  }

  /** How a number is laid out in a cell: currency outside and inside nested parentheses, a sign,
      the digits with a multiple marker or none, a unit, bracketed notes and superscript marks. */
  datatype Cell = Cell(outer: string, layers: nat, sign: Sign, inner: string, body: string, times: string,
                       tail: string, gap: nat, unit: string, notes: seq<Note>, marks: string)

  function Repeat(c: char, n: nat): (r: string)
    ensures |r| == n && forall i :: 0 <= i < n ==> r[i] == c
  {
    if n == 0 then "" else Repeat(c, n - 1) + [c]
  }

  function PrintNote(note: Note): string {
    Repeat(' ', note.gap) + [note.open] + Repeat(' ', note.left) + note.digits + Repeat(' ', note.right) + [note.close]
  }

  function PrintNotes(notes: seq<Note>): string {
    if notes == [] then "" else PrintNotes(notes[..|notes| - 1]) + PrintNote(notes[|notes| - 1])
  }

  function PrintSign(sign: Sign): string {
    match sign
    case Unsigned => ""
    case Plus => "+"
    case Minus => "-"
    case MathMinus => "\U{2212}"
  }

  function Content(cell: Cell): string {
    PrintSign(cell.sign) + cell.inner + cell.body + cell.tail
  }

  function Wrap(layers: nat, s: string): string {
    if layers == 0 then s else "(" + Wrap(layers - 1, s) + ")"
  }

  function Core(cell: Cell): string {
    cell.outer + Wrap(cell.layers, Content(cell))
  }

  function WithUnit(cell: Cell): string {
    Core(cell) + Repeat(' ', cell.gap) + cell.unit
  }

  function PrintCell(cell: Cell): string {
    WithUnit(cell) + PrintNotes(cell.notes) + cell.marks
  }

  /** `n / 10^scale` in full. */
  function InFull(n: nat, scale: nat): (d: Decimal)
    ensures d.Valid()
  {
    Decimal(PrintNat(Upper(n, scale)), scale > 0, PrintPadded(n, scale))
  }

  // ---------------------------------------------------------------- what may be printed

  predicate All(s: string, p: char -> bool) {
    forall i :: 0 <= i < |s| ==> p(s[i])
  }

  /** Currency symbols and spaces, a symbol first. */
  predicate Money(s: string) {
    All(s, IsMoney) && (s == "" || IsCurrency(s[0]))
  }

  predicate InBody(c: char) { IsDigit(c) || c in ",.xX" }

  predicate IsUnit(unit: string) {
    || unit in ["", "%"]
    || (|unit| == 2 && unit[0] in "bB" && unit[1] in "pP")
    || (|unit| == 3 && unit[0] in "bB" && unit[1] in "pP" && unit[2] in "sS")
  }

  /** The cell shows the numeral, its digits grouped by commas in any way. */
  predicate Shows(cell: Cell, d: Decimal) {
    && d.Valid() && cell.sign != MathMinus && cell.times in ["", "x", "X"]
    && IsUnit(cell.unit) && (cell.unit == "" ==> cell.gap == 0)
    && Money(cell.outer) && Money(cell.inner)
    && All(cell.tail, IsMoney) && (cell.layers == 0 && cell.tail != "" ==> IsCurrency(cell.tail[|cell.tail| - 1]))
    && All(cell.body, InBody) && Without(cell.body, ',') == Numeral(d) + cell.times
    && (forall i :: 0 <= i < |cell.notes| ==> cell.notes[i].Valid())
    && All(cell.marks, IsMarker) && (cell.marks != "" ==> IsSuperscript(cell.marks[|cell.marks| - 1]))
  }

  predicate IsPlain(c: char) {
    c < '\U{0080}' || IsCurrency(c)
  }

  /** Characters that compatibility folding leaves alone. */
  predicate IsKept(c: char) {
    IsPlain(c) || c == '\U{2212}'
  }

  /** All that is asked of the folding: text of such characters stays as it is. */
  ghost predicate FoldsPlainToItself(nfkc: string -> string) {
    forall s :: All(s, IsKept) ==> nfkc(s) == s
  }

  // ---------------------------------------------------------------- the same with the characters spelled out

  const SYMBOLS := "$\U{20AC}\U{00A3}\U{00A5}\U{20B9}"

  const SUPERSCRIPTS :=
    "\U{2070}\U{00B9}\U{00B2}\U{00B3}\U{2074}\U{2075}\U{2076}\U{2077}\U{2078}\U{2079}"

  /** The dollar, euro, pound, yen and rupee; the ten digits set as superscripts, with the three
      unassigned places among them; three kinds of brackets. */
  lemma Classes(c: char)
    ensures IsCurrency(c) <==> c in SYMBOLS
    ensures IsSuperscript(c) <==> c in SUPERSCRIPTS || c in "\U{2071}\U{2072}\U{2073}"
    ensures (IsMoney(c) <==> IsCurrency(c) || c == ' ') && (IsMarker(c) <==> IsSuperscript(c) || c == ' ')
    ensures (IsOpen(c) <==> c in "([{") && (IsClose(c) <==> c in ")]}")
    ensures IsDigit(c) <==> c in "0123456789"
  {
  }

  ghost predicate Among(s: string, chars: string) {
    forall i :: 0 <= i < |s| ==> s[i] in chars
  }

  ghost predicate PrintedNote(note: Note) {
    note.open in "([{" && note.close in ")]}" && |note.digits| in {1, 2} && Among(note.digits, "0123456789")
  }

  ghost predicate PrintedMoney(s: string) {
    Among(s, SYMBOLS + " ") && (s == "" || s[0] in SYMBOLS)
  }

  ghost predicate PrintedTail(s: string, open: bool) {
    Among(s, SYMBOLS + " ") && (open && s != "" ==> s[|s| - 1] in SYMBOLS)
  }

  ghost predicate PrintedMarks(s: string) {
    Among(s, SUPERSCRIPTS + " ") && (s != "" ==> s[|s| - 1] in SUPERSCRIPTS)
  }

  ghost predicate PrintedDigits(d: Decimal) {
    Among(d.whole, "0123456789") && Among(d.part, "0123456789") && d.whole + d.part != "" && (d.part != "" ==> d.point)
  }

  ghost predicate PrintedBody(body: string, numeral: string, times: string) {
    && times in ["", "x", "X"] && Among(body, "0123456789.,xX") && Without(body, ',') == numeral + times
  }

  /** A cell that shows a numeral: currency symbols and spaces around it, commas within it anywhere,
      an `x` after it or none, a percent sign or basis points or neither, and any notes and marks. */
  ghost predicate Printed(cell: Cell, d: Decimal) {
    && PrintedDigits(d) && PrintedBody(cell.body, Numeral(d), cell.times)
    && IsUnit(cell.unit) && (cell.unit == "" ==> cell.gap == 0)
    && PrintedMoney(cell.outer) && PrintedMoney(cell.inner) && PrintedTail(cell.tail, cell.layers == 0)
    && (forall i :: 0 <= i < |cell.notes| ==> PrintedNote(cell.notes[i]))
    && PrintedMarks(cell.marks)
  }

  function Folded(cell: Cell): Cell {
    if cell.sign == MathMinus then cell.(sign := Minus) else cell
  }

  lemma AllMoney(s: string)
    requires Among(s, SYMBOLS + " ")
    ensures All(s, IsMoney)
  {
    forall i | 0 <= i < |s| ensures IsMoney(s[i]) {
      Classes(s[i]);
    }
  }

  lemma MoneyPrinted(s: string)
    requires PrintedMoney(s)
    ensures Money(s)
  {
    AllMoney(s);
    if s != "" {
      Classes(s[0]);
    }
  }

  lemma TailPrinted(s: string, open: bool)
    requires PrintedTail(s, open)
    ensures All(s, IsMoney) && (open && s != "" ==> IsCurrency(s[|s| - 1]))
  {
    AllMoney(s);
    if open && s != "" {
      Classes(s[|s| - 1]);
    }
  }

  lemma MarksPrinted(s: string)
    requires PrintedMarks(s)
    ensures All(s, IsMarker) && (s != "" ==> IsSuperscript(s[|s| - 1]))
  {
    forall i | 0 <= i < |s| ensures IsMarker(s[i]) {
      Classes(s[i]);
    }
    if s != "" {
      Classes(s[|s| - 1]);
    }
  }

  lemma AllDigitsPrinted(s: string)
    requires Among(s, "0123456789")
    ensures AllDigits(s)
  {
  }

  lemma DigitsPrinted(d: Decimal)
    requires PrintedDigits(d)
    ensures d.Valid()
  {
    AllDigitsPrinted(d.whole);
    AllDigitsPrinted(d.part);
  }

  lemma BodyPrinted(body: string, numeral: string, times: string)
    requires PrintedBody(body, numeral, times)
    ensures All(body, InBody) && Without(body, ',') == numeral + times && times in ["", "x", "X"]
  {
    hide Without;
  }

  lemma NotesPrinted(notes: seq<Note>)
    requires forall i :: 0 <= i < |notes| ==> PrintedNote(notes[i])
    ensures forall i :: 0 <= i < |notes| ==> notes[i].Valid()
  {
    forall i | 0 <= i < |notes| ensures notes[i].Valid() {
      AllDigitsPrinted(notes[i].digits);
    }
  }

  lemma PrintedShows(cell: Cell, d: Decimal)
    requires Printed(cell, d)
    ensures Shows(Folded(cell), d)
  {
    hide Without, IsUnit, Among, Numeral, PrintedMoney, PrintedTail, PrintedMarks, PrintedDigits, PrintedBody,
         PrintedNote, All, Money, IsCurrency, IsSuperscript;
    MoneyPrinted(cell.outer);
    MoneyPrinted(cell.inner);
    TailPrinted(cell.tail, cell.layers == 0);
    DigitsPrinted(d);
    BodyPrinted(cell.body, Numeral(d), cell.times);
    NotesPrinted(cell.notes);
    MarksPrinted(cell.marks);
  }

  // ---------------------------------------------------------------- trimming

  predicate Solid(s: string) {
    s != "" && !IsSpace(s[0]) && !IsSpace(s[|s| - 1])
  }

  lemma RStripOf(a: string, b: string)
    requires a != "" && !IsSpace(a[|a| - 1]) && All(b, IsSpace)
    ensures RStrip(a + b) == a
  {
    TrailUnique(a + b, |b|);
    assert (a + b)[..|a|] == a;
  }

  lemma StripSolid(s: string)
    requires Solid(s)
    ensures Strip(s) == s && RStrip(s) == s
  {
    assert s + "" == s;
    RStripOf(s, "");
    assert s[0..] == s;
  }

  lemma StripStart(a: string, b: string)
    requires Solid(a) && All(b, IsSpace)
    ensures Strip(a + b) == a
  {
    assert (a + b)[0] == a[0];
    assert LStrip(a + b) == a + b;
    RStripOf(a, b);
  }

  lemma {:induction false} DropRightOf(a: string, b: string, p: char -> bool)
    requires All(b, p) && (a == "" || !p(a[|a| - 1]))
    ensures DropRight(a + b, p) == a
  {
    if b == "" {
      assert a + b == a;
    } else {
      assert (a + b)[..|a + b| - 1] == a + b[..|b| - 1];
      DropRightOf(a, b[..|b| - 1], p);
    }
  }

  lemma {:induction false} DropLeftOf(a: string, b: string, p: char -> bool)
    requires All(a, p) && (b == "" || !p(b[0]))
    ensures DropLeft(a + b, p) == b
  {
    if a == "" {
      assert a + b == b;
    } else {
      assert (a + b)[1..] == a[1..] + b;
      DropLeftOf(a[1..], b, p);
    }
  }

  // ---------------------------------------------------------------- notes

  lemma {:induction false} DigitsAtEndOf(a: string, d: string)
    requires AllDigits(d) && (a == "" || !IsDigit(a[|a| - 1]))
    ensures DigitsAtEnd(a + d) == |d|
  {
    if d == "" {
      assert a + d == a;
    } else {
      assert (a + d)[..|a + d| - 1] == a + d[..|d| - 1];
      DigitsAtEndOf(a, d[..|d| - 1]);
    }
  }

  lemma {:induction false} TrimBracket(u: string, right: nat, close: char)
    requires EndsSolid(u) && IsClose(close)
    ensures var t := u + Repeat(' ', right) + [close];
      t != "" && t[|t| - 1] == close && RStrip(t) == t && RStrip(t[..|t| - 1]) == u
  {
    var t := u + Repeat(' ', right) + [close];
    assert t + "" == t;
    RStripOf(t, "");
    assert t[..|t| - 1] == u + Repeat(' ', right);
    RStripOf(u, Repeat(' ', right));
  }

  lemma {:induction false} TrimDigits(v: string, left: nat, digits: string)
    requires v != "" && IsOpen(v[|v| - 1]) && AllDigits(digits) && digits != ""
    ensures var u := v + Repeat(' ', left) + digits;
      && |u| >= |digits| && DigitsAtEnd(u) == |digits| && RStrip(u[..|u| - |digits|]) == v && EndsSolid(u)
  {
    var w := v + Repeat(' ', left);
    DigitsAtEndOf(w, digits);
    assert (w + digits)[..|w|] == w;
    RStripOf(v, Repeat(' ', left));
  }

  /** The note at the end is found, and nothing ahead of it. */
  lemma NoteIsFound(x: string, note: Note)
    requires note.Valid()
    ensures NoteAt(x + PrintNote(note)) == Some(|x| + note.gap)
  {
    NoteSplits(x, note);
    NoteAfter(x + Repeat(' ', note.gap) + [note.open], note);
  }

  lemma NoteAfter(v: string, note: Note)
    requires note.Valid() && v != "" && v[|v| - 1] == note.open
    ensures NoteAt(v + Repeat(' ', note.left) + note.digits + Repeat(' ', note.right) + [note.close]) == Some(|v| - 1)
  {
    var u := v + Repeat(' ', note.left) + note.digits;
    TrimDigits(v, note.left, note.digits);
    TrimBracket(u, note.right, note.close);
    NoteIn(u + Repeat(' ', note.right) + [note.close], u, |note.digits|, v);
  }

  lemma NoteSplits(x: string, note: Note)
    ensures x + PrintNote(note)
      == x + Repeat(' ', note.gap) + [note.open] + Repeat(' ', note.left)
         + note.digits + Repeat(' ', note.right) + [note.close]
  {
  }

  lemma {:induction false} NoteIn(t: string, u: string, n: nat, v: string)
    requires RStrip(t) == t && t != "" && IsClose(t[|t| - 1]) && RStrip(t[..|t| - 1]) == u
    requires DigitsAtEnd(u) == n && 1 <= n <= 2 && RStrip(u[..|u| - n]) == v && v != "" && IsOpen(v[|v| - 1])
    ensures NoteAt(t) == Some(|v| - 1)
  {
    hide RStrip, DigitsAtEnd, IsClose, IsOpen;
  }

  lemma Associate(a: string, b: string, c: string)
    ensures a + (b + c) == a + b + c
  {
  }

  predicate EndsSolid(s: string) {
    s != "" && !IsSpace(s[|s| - 1])
  }

  lemma {:induction false} NotesEndSolid(x: string, notes: seq<Note>)
    requires EndsSolid(x) && forall i :: 0 <= i < |notes| ==> notes[i].Valid()
    ensures EndsSolid(x + PrintNotes(notes))
  {
    if notes == [] {
      assert x + PrintNotes(notes) == x;
    }
  }

  lemma DigitsStay(x: string, y: string)
    requires HasDigit(x)
    ensures HasDigit(x + y)
  {
    var i :| 0 <= i < |x| && IsDigit(x[i]);
    assert (x + y)[i] == x[i];
  }

  lemma {:induction false} OneNoteOff(x: string, note: Note)
    requires EndsSolid(x) && HasDigit(x) && note.Valid()
    ensures NotesOff(x + PrintNote(note)) == NotesOff(x)
  {
    hide NoteAt, RStrip, Repeat, IsDigit;
    var text, head := x + PrintNote(note), x + Repeat(' ', note.gap);
    NoteIsFound(x, note);
    assert text[..|head|] == head;
    DigitsStay(x, Repeat(' ', note.gap));
    RStripOf(x, Repeat(' ', note.gap));
  }

  /** Any number of notes come off a text that has a digit ahead of them. */
  lemma {:induction false} NotesComeOff(x: string, notes: seq<Note>)
    requires EndsSolid(x) && HasDigit(x) && forall i :: 0 <= i < |notes| ==> notes[i].Valid()
    ensures NotesOff(x + PrintNotes(notes)) == NotesOff(x)
  {
    if notes == [] {
      assert x + PrintNotes(notes) == x;
    } else {
      var front := notes[..|notes| - 1];
      NotesComeOff(x, front);
      NotesEndSolid(x, front);
      DigitsStay(x, PrintNotes(front));
      OneNoteOff(x + PrintNotes(front), notes[|notes| - 1]);
      Associate(x, PrintNotes(front), PrintNote(notes[|notes| - 1]));
    }
  }

  lemma NoteBeginsWithBracket(text: string)
    requires NoteAt(text).Some?
    ensures IsOpen(text[NoteAt(text).value])
  {
  }

  /** A bracketed number with no digit ahead of its bracket is never taken for a note. */
  lemma {:induction false} LoneValueStays(a: string, b: string)
    requires !HasDigit(a) && forall i :: 0 <= i < |b| ==> !IsOpen(b[i])
    ensures NotesOff(a + b) == a + b
  {
    hide NoteAt, IsOpen;
    var at := NoteAt(a + b);
    if at.Some? {
      NoteBeginsWithBracket(a + b);
      assert at.value < |a|;
      assert forall i :: 0 <= i < at.value ==> (a + b)[i] == a[i];
    }
  }

  // ---------------------------------------------------------------- the digits

  lemma {:induction false} WithoutKeeps(s: string, c: char)
    ensures forall x :: x in Without(s, c) <==> x in s && x != c
  {
    if s != "" {
      WithoutKeeps(s[1..], c);
      assert s == [s[0]] + s[1..];
    }
  }

  lemma {:induction false} WithoutNothing(s: string, c: char)
    requires c !in s
    ensures Without(s, c) == s
  {
    if s != "" {
      assert s == [s[0]] + s[1..];
      WithoutNothing(s[1..], c);
    }
  }

  lemma {:induction false} PointAfter(a: string, b: string)
    requires AllDigits(a) && (b == "" || b[0] == '.')
    ensures PointAt(a + b) == |a|
  {
    if a == "" {
      assert a + b == b;
    } else {
      assert (a + b)[1..] == a[1..] + b;
      PointAfter(a[1..], b);
    }
  }

  /** A numeral is one to the parser, and reads as its digits. */
  lemma NumeralReads(d: Decimal)
    requires d.Valid()
    ensures var s := Numeral(d);
      && IsNumeral(s) && HasDigit(s) && Coefficient(s) == d.Coefficient() && Scale(s) == |d.part|
      && s != "" && All(s, InNumeral)
  {
    hide ReadNat;
    var s, rest := Numeral(d), (if d.point then "." else "") + d.part;
    assert s == d.whole + rest;
    PointAfter(d.whole, rest);
    assert s[..|d.whole|] == d.whole;
    if d.point {
      assert s[|d.whole| + 1..] == d.part;
    } else {
      assert d.whole + "" == d.whole;
    }
    assert IsDigit(s[if d.whole != "" then 0 else 1]);
  }

  predicate InNumeral(c: char) { IsDigit(c) || c == '.' }

  /** The body of a cell: digits and punctuation, at least one digit. */
  lemma BodyIsDigits(cell: Cell, d: Decimal)
    requires Shows(cell, d)
    ensures cell.body != "" && HasDigit(cell.body)
  {
    NumeralReads(d);
    WithoutKeeps(cell.body, ',');
    var s := Numeral(d);
    var k :| 0 <= k < |s| && IsDigit(s[k]);
    assert (s + cell.times)[k] == s[k];
    assert s[k] in Without(cell.body, ',');
    var i :| 0 <= i < |cell.body| && cell.body[i] == s[k];
  }

  // ---------------------------------------------------------------- what remains after peeling

  /** What is left once currency, parentheses and padding are off: sign, currency, digits, currency. */
  predicate Peeled(signed: string, cell: Cell, pre: string, post: string) {
    && signed == PrintSign(cell.sign) + pre + cell.body + post && cell.sign != MathMinus
    && Money(pre) && All(post, IsMoney) && (post != "" ==> IsCurrency(post[|post| - 1]))
  }

  lemma PeeledEnds(signed: string, cell: Cell, pre: string, post: string)
    requires Peeled(signed, cell, pre, post) && cell.body != "" && All(cell.body, InBody)
    ensures Solid(pre + cell.body + post) && Solid(signed) && !IsWrapped(signed)
    ensures HasSign(signed, '-') <==> cell.sign == Minus
    ensures HasSign(signed, '+') <==> cell.sign == Plus
  {
    var rest := pre + cell.body + post;
    assert rest[0] == if pre != "" then pre[0] else cell.body[0];
    assert rest[|rest| - 1] == if post != "" then post[|post| - 1] else cell.body[|cell.body| - 1];
    assert signed == PrintSign(cell.sign) + rest;
  }

  lemma {:induction false} BareOf(pre: string, body: string, post: string, numeral: string)
    requires All(pre, IsMoney) && All(post, IsMoney) && body != "" && All(body, InBody)
    requires Without(body, ',') == numeral && All(numeral, InBody)
    ensures Bare(pre + body + post) == numeral
  {
    Associate(pre, body, post);
    assert (body + post)[0] == body[0];
    DropLeftOf(pre, body + post, IsMoney);
    DropRightOf(body, post, IsMoney);
    WithoutNothing(numeral, ' ');
  }

  lemma SignComesOff(signed: string, cell: Cell, pre: string, post: string)
    requires Peeled(signed, cell, pre, post) && cell.body != "" && All(cell.body, InBody)
    ensures SignOff(signed) == pre + cell.body + post
  {
    PeeledEnds(signed, cell, pre, post);
    var rest := pre + cell.body + post;
    assert signed == PrintSign(cell.sign) + rest;
    if cell.sign != Unsigned {
      assert signed[1..] == rest;
      StripSolid(rest);
    }
  }

  /** From the peeled text, the sign and the digits are read off. */
  lemma PeeledReads(signed: string, cell: Cell, pre: string, post: string, d: Decimal)
    requires Shows(cell, d) && Peeled(signed, cell, pre, post)
    ensures HasSign(signed, '-') <==> cell.sign == Minus
    ensures MultipleOff(Bare(SignOff(signed))) == Numeral(d)
  {
    BodyIsDigits(cell, d);
    assert (HasSign(signed, '-') <==> cell.sign == Minus) by {
      PeeledEnds(signed, cell, pre, post);
    }
    SignComesOff(signed, cell, pre, post);
    NoMultiple(d, cell.times);
    hide Bare, SignOff, MultipleOff, Numeral, HasSign;
    BareOf(pre, cell.body, post, Numeral(d) + cell.times);
  }

  lemma NoMultiple(d: Decimal, times: string)
    requires d.Valid() && times in ["", "x", "X"]
    ensures All(Numeral(d) + times, InBody) && ' ' !in Numeral(d) + times
    ensures MultipleOff(Numeral(d) + times) == Numeral(d)
  {
    hide Numeral;
    NumeralReads(d);
    var s := Numeral(d);
    assert InNumeral(s[|s| - 1]);
    assert (s + times)[..|s|] == s;
  }

  // ---------------------------------------------------------------- parentheses

  lemma WrapIsWrapped(layers: nat, s: string)
    requires layers > 0
    ensures IsWrapped(Wrap(layers, s)) && Solid(Wrap(layers, s))
    ensures Wrap(layers, s)[1..|Wrap(layers, s)| - 1] == Wrap(layers - 1, s)
  {
  }

  lemma InnerOfWrap(layers: nat, content: string)
    requires layers > 0
    ensures IsWrapped(Wrap(layers, content))
    ensures Inner(Wrap(layers, content)) == if layers == 1 then Strip(content) else Wrap(layers - 1, content)
  {
    WrapIsWrapped(layers, content);
    if layers > 1 {
      WrapIsWrapped(layers - 1, content);
      StripSolid(Wrap(layers - 1, content));
    }
  }

  lemma {:induction false} UnwrapOne(s: string, inner: string)
    requires IsWrapped(s) && Inner(s) == inner
    ensures Unwrapped(s) == Unwrapped(inner) && Flipped(s) == !Flipped(inner)
  {
  }

  lemma {:induction false} NothingToUnwrap(s: string)
    requires !IsWrapped(s)
    ensures Unwrapped(s) == s && !Flipped(s)
  {
  }

  /** Each pair of parentheses flips the sign, so what counts is the parity of the layers. */
  lemma {:induction false} UnwrapWrap(layers: nat, content: string, m: string)
    requires layers > 0 && Strip(content) == m && !IsWrapped(m)
    ensures Unwrapped(Wrap(layers, content)) == m
    ensures Flipped(Wrap(layers, content)) <==> layers % 2 == 1
  {
    InnerOfWrap(layers, content);
    if layers == 1 {
      UnwrapOne(Wrap(layers, content), m);
      NothingToUnwrap(m);
    } else {
      UnwrapOne(Wrap(layers, content), Wrap(layers - 1, content));
      UnwrapWrap(layers - 1, content, m);
    }
  }

  /** Trimming what the parentheses hold leaves sign, currency, digits and currency. */
  lemma ContentTrims(cell: Cell) returns (post: string)
    requires cell.body != "" && All(cell.body, InBody) && Money(cell.inner) && All(cell.tail, IsMoney)
    requires cell.sign != MathMinus
    ensures Peeled(Strip(Content(cell)), cell, cell.inner, post)
    ensures cell.tail == "" || IsCurrency(cell.tail[|cell.tail| - 1]) ==> post == cell.tail
  {
    post := MoneyTrims(cell.tail);
    var solid := PrintSign(cell.sign) + cell.inner + cell.body + post;
    PeeledEnds(solid, cell, cell.inner, post);
    var spaces := cell.tail[|post|..];
    Associate(PrintSign(cell.sign) + cell.inner + cell.body, post, spaces);
    StripStart(solid, spaces);
  }

  lemma MoneyTrims(tail: string) returns (post: string)
    requires All(tail, IsMoney)
    ensures |post| <= |tail| && tail == post + tail[|post|..] && All(tail[|post|..], IsSpace)
    ensures All(post, IsMoney) && (post != "" ==> IsCurrency(post[|post| - 1]))
    ensures tail == "" || IsCurrency(tail[|tail| - 1]) ==> post == tail
  {
    TrailSpec(tail);
    post := tail[..|tail| - Trail(tail)];
  }

  // ---------------------------------------------------------------- the whole cell

  /** The core of a cell loses its currency and parentheses. */
  lemma CorePeels(cell: Cell, d: Decimal) returns (pre: string, post: string)
    requires Shows(cell, d)
    ensures Peeled(Unwrapped(DropLeft(Core(cell), IsMoney)), cell, pre, post)
    ensures Flipped(DropLeft(Core(cell), IsMoney)) <==> cell.layers % 2 == 1
  {
    BodyIsDigits(cell, d);
    post := ContentTrims(cell);
    pre := cell.inner;
    PeeledEnds(Strip(Content(cell)), cell, pre, post);
    if cell.layers > 0 {
      WrapIsWrapped(cell.layers, Content(cell));
      DropLeftOf(cell.outer, Wrap(cell.layers, Content(cell)), IsMoney);
      UnwrapWrap(cell.layers, Content(cell), Strip(Content(cell)));
    } else {
      pre := BareCorePeels(cell, post);
    }
  }

  /** Without parentheses the leading currency goes in one step. */
  lemma BareCorePeels(cell: Cell, post: string) returns (pre: string)
    requires cell.layers == 0 && cell.body != "" && All(cell.body, InBody) && Money(cell.outer) && Money(cell.inner)
    requires cell.sign != MathMinus
    requires All(cell.tail, IsMoney) && post == cell.tail && (post != "" ==> IsCurrency(post[|post| - 1]))
    ensures Peeled(Unwrapped(DropLeft(Core(cell), IsMoney)), cell, pre, post)
    ensures !Flipped(DropLeft(Core(cell), IsMoney))
  {
    hide Unwrapped, Flipped, DropLeft, Peeled, Core, IsMoney, InBody;
    var signed: string;
    pre, signed := BareCoreEnds(cell, post);
    PeeledEnds(signed, cell, pre, post);
    NothingToUnwrap(signed);
  }

  lemma BareCoreEnds(cell: Cell, post: string) returns (pre: string, signed: string)
    requires cell.layers == 0 && cell.body != "" && All(cell.body, InBody) && Money(cell.outer) && Money(cell.inner)
    requires cell.sign != MathMinus
    requires All(cell.tail, IsMoney) && post == cell.tail && (post != "" ==> IsCurrency(post[|post| - 1]))
    ensures DropLeft(Core(cell), IsMoney) == signed && Peeled(signed, cell, pre, post)
  {
    hide DropLeft, IsSpace, IsMoney, IsCurrency, InBody, Core, Content, PrintSign;
    pre := if cell.sign == Unsigned then "" else cell.inner;
    signed := PrintSign(cell.sign) + pre + cell.body + post;
    var front := if cell.sign == Unsigned then cell.outer + cell.inner else cell.outer;
    BareCoreSplits(cell, front, signed);
    SignedBegins(cell, signed);
    BodyIsNoMoney(signed[0]);
    DropLeftOf(front, signed, IsMoney);
  }

  lemma BareCoreSplits(cell: Cell, front: string, signed: string)
    requires cell.layers == 0
    requires front == if cell.sign == Unsigned then cell.outer + cell.inner else cell.outer
    requires signed == PrintSign(cell.sign) + (if cell.sign == Unsigned then "" else cell.inner) + cell.body + cell.tail
    ensures Core(cell) == front + signed
  {
    assert PrintSign(Unsigned) == "";
  }

  lemma SignedBegins(cell: Cell, signed: string)
    requires cell.body != "" && cell.sign != MathMinus
    requires signed == PrintSign(cell.sign) + (if cell.sign == Unsigned then "" else cell.inner) + cell.body + cell.tail
    ensures signed != "" && (signed[0] == '-' || signed[0] == '+' || signed[0] == cell.body[0])
  {
    assert signed[0] == if cell.sign == Unsigned then cell.body[0] else PrintSign(cell.sign)[0];
  }

  lemma BodyIsNoMoney(c: char)
    requires InBody(c) || c == '-' || c == '+'
    ensures !IsMoney(c)
  {
  }

  /** The core begins and ends with something that is not whitespace, and is not a unit. */
  lemma CoreIsSolid(cell: Cell, d: Decimal)
    requires Shows(cell, d)
    ensures Solid(Core(cell)) && HasDigit(Core(cell))
    ensures var c := Core(cell)[|Core(cell)| - 1]; InBody(c) || c == ')' || IsCurrency(c)
  {
    BodyIsDigits(cell, d);
    var wrapped := Wrap(cell.layers, Content(cell));
    ContentHasDigit(cell);
    WrapHasDigit(cell.layers, Content(cell));
    WrapEnds(cell);
    assert Core(cell)[|Core(cell)| - 1] == wrapped[|wrapped| - 1];
    assert Core(cell)[0] == if cell.outer != "" then cell.outer[0] else wrapped[0];
    HasDigitAfter(cell.outer, wrapped);
  }

  lemma HasDigitAfter(a: string, b: string)
    requires HasDigit(b)
    ensures HasDigit(a + b)
  {
    var i :| 0 <= i < |b| && IsDigit(b[i]);
    assert (a + b)[|a| + i] == b[i];
  }

  lemma ContentHasDigit(cell: Cell)
    requires HasDigit(cell.body)
    ensures HasDigit(Content(cell))
  {
    HasDigitAfter(PrintSign(cell.sign) + cell.inner, cell.body);
    DigitsStay(PrintSign(cell.sign) + cell.inner + cell.body, cell.tail);
  }

  lemma {:induction false} WrapHasDigit(layers: nat, s: string)
    requires HasDigit(s)
    ensures HasDigit(Wrap(layers, s))
  {
    if layers > 0 {
      WrapHasDigit(layers - 1, s);
      HasDigitAfter("(", Wrap(layers - 1, s));
      DigitsStay("(" + Wrap(layers - 1, s), ")");
    }
  }

  lemma WrapEnds(cell: Cell)
    requires cell.body != "" && All(cell.body, InBody) && Money(cell.inner) && All(cell.tail, IsMoney)
    requires cell.layers == 0 && cell.tail != "" ==> IsCurrency(cell.tail[|cell.tail| - 1])
    requires cell.sign != MathMinus
    ensures var w := Wrap(cell.layers, Content(cell));
      Solid(w) && (w[|w| - 1] == ')' || IsCurrency(w[|w| - 1]) || InBody(w[|w| - 1]))
  {
    if cell.layers > 0 {
      WrapIsWrapped(cell.layers, Content(cell));
    } else {
      var content := Content(cell);
      assert Peeled(content, cell, cell.inner, cell.tail);
      PeeledEnds(content, cell, cell.inner, cell.tail);
      assert content[|content| - 1]
        == if cell.tail != "" then cell.tail[|cell.tail| - 1] else cell.body[|cell.body| - 1];
    }
  }

  lemma UnitComesOff(cell: Cell, d: Decimal)
    requires Shows(cell, d)
    ensures UnitOff(WithUnit(cell)) == Core(cell)
    ensures EndsWith(WithUnit(cell), "%") <==> cell.unit == "%"
    ensures Solid(WithUnit(cell)) && HasDigit(WithUnit(cell))
  {
    UnitApplied(cell);
    hide *;
    CoreIsSolid(cell, d);
    DigitsStay(Core(cell), Repeat(' ', cell.gap) + cell.unit);
    Associate(Core(cell), Repeat(' ', cell.gap), cell.unit);
    UnitShows(cell, d);
    UnitOfCore(Core(cell), cell.gap, cell.unit);
  }

  lemma UnitApplied(cell: Cell)
    ensures WithUnit(cell) == Core(cell) + Repeat(' ', cell.gap) + cell.unit
  {
  }

  lemma NoMarkerThere(c: char)
    requires InBody(c) || c == ')' || IsCurrency(c)
    ensures !IsMarker(c)
  {
  }

  lemma UnitOfCore(core: string, gap: nat, unit: string)
    requires Solid(core) && IsUnit(unit) && (unit == "" ==> gap == 0)
    requires var c := core[|core| - 1]; InBody(c) || c == ')' || IsCurrency(c)
    ensures var text := core + Repeat(' ', gap) + unit;
      && UnitOff(text) == core && (EndsWith(text, "%") <==> unit == "%")
      && Solid(text) && !IsMarker(text[|text| - 1])
  {
    NoMarkerThere(core[|core| - 1]);
    hide InBody, IsCurrency, IsMarker, IsSpace, IsUnit, UnitOff, EndsWith;
    var front := core + Repeat(' ', gap);
    var text := front + unit;
    assert text[0] == core[0];
    if unit == "" {
      assert text == core;
      NoUnit(core);
    } else {
      assert text[|text| - 1] == unit[|unit| - 1];
      StripStart(core, Repeat(' ', gap));
      UnitCut(front, unit, core);
      UnitEnds(unit);
    }
  }

  lemma UnitEnds(unit: string)
    requires IsUnit(unit) && unit != ""
    ensures var c := unit[|unit| - 1]; !IsSpace(c) && !IsMarker(c) && (c == '%' <==> unit == "%")
  {
  }

  lemma EndsIn(front: string, back: string)
    ensures EndsWith(front + back, back) && (front + back)[..|front|] == front
  {
  }

  lemma LowerJoins(front: string, back: string)
    ensures Lower(front + back) == Lower(front) + Lower(back)
  {
    hide LowerChar;
  }

  lemma UnitCut(front: string, unit: string, core: string)
    requires IsUnit(unit) && unit != "" && Strip(front) == core
    ensures UnitOff(front + unit) == core && (EndsWith(front + unit, "%") <==> unit == "%")
  {
    hide Strip, IsUnit, Lower, EndsWith;
    var text := front + unit;
    UnitEnds(unit);
    LowerUnit(unit);
    LowerJoins(front, unit);
    EndsIn(front, unit);
    EndsIn(Lower(front), Lower(unit));
    if unit != "%" {
      OtherEnd(text, "", '%');
      assert "" + ['%'] == "%";
    }
    if |unit| == 2 {
      assert Lower(text)[|text| - 1] == 'p';
      OtherEnd(Lower(text), "bp", 's');
      assert "bp" + ['s'] == "bps";
    }
  }

  lemma LowerLetters(c: char)
    ensures c in "bB" ==> LowerChar(c) == 'b'
    ensures c in "pP" ==> LowerChar(c) == 'p'
    ensures c in "sS" ==> LowerChar(c) == 's'
    ensures LowerChar('%') == '%'
  {
  }

  lemma LowerUnit(unit: string)
    requires IsUnit(unit)
    ensures |unit| <= 3 && (|unit| == 1 ==> unit == "%")
    ensures Lower(unit) == if |unit| < 2 then unit else if |unit| == 2 then "bp" else "bps"
  {
    hide Lower, LowerChar;
    forall i | 0 <= i < |unit|
      ensures Lower(unit)[i] == if |unit| == 1 then '%' else if i == 0 then 'b' else if i == 1 then 'p' else 's'
    {
      LowerLetters(unit[i]);
    }
  }

  lemma NoUnit(s: string)
    requires s != "" && (InBody(s[|s| - 1]) || s[|s| - 1] == ')' || IsCurrency(s[|s| - 1]))
    ensures UnitOff(s) == s && !EndsWith(s, "%")
  {
    OtherEnd(s, "", '%');
    OtherEnd(Lower(s), "bp", 's');
    OtherEnd(Lower(s), "b", 'p');
    assert "" + ['%'] == "%" && "bp" + ['s'] == "bps" && "b" + ['p'] == "bp";
  }

  lemma OtherEnd(s: string, front: string, c: char)
    requires s != "" && s[|s| - 1] != c
    ensures !EndsWith(s, front + [c])
  {
    if |s| > |front| {
      assert s[|s| - |front| - 1..][|front|] == s[|s| - 1];
    }
  }

  lemma {:induction false} WrapSplits(layers: nat, s: string)
    ensures Wrap(layers, s) == Repeat('(', layers) + s + Repeat(')', layers)
  {
    if layers > 0 {
      WrapSplits(layers - 1, s);
      RepeatTurns('(', layers - 1);
    }
  }

  lemma {:induction false} RepeatTurns(c: char, n: nat)
    ensures [c] + Repeat(c, n) == Repeat(c, n) + [c]
  {
  }

  /** The value itself is not taken for a note. */
  lemma ValueIsNoNote(cell: Cell, d: Decimal)
    requires Shows(cell, d)
    ensures NotesOff(WithUnit(cell)) == WithUnit(cell)
  {
    var front := cell.outer + Repeat('(', cell.layers);
    var unit := Repeat(' ', cell.gap) + cell.unit;
    Associate(Core(cell), Repeat(' ', cell.gap), cell.unit);
    var back := Content(cell) + Repeat(')', cell.layers) + unit;
    WrapSplits(cell.layers, Content(cell));
    Regroup(cell.outer, Repeat('(', cell.layers), Content(cell), Repeat(')', cell.layers), unit);
    NoBracketIn(Content(cell), cell);
    LoneValueStays(front, back);
  }

  lemma Regroup(a: string, b: string, c: string, d: string, e: string)
    ensures a + (b + c + d) + e == (a + b) + (c + d + e)
  {
  }

  lemma NoBracketIn(content: string, cell: Cell)
    requires content == Content(cell) && Money(cell.inner) && All(cell.tail, IsMoney) && All(cell.body, InBody)
    ensures forall i :: 0 <= i < |content| ==> !IsOpen(content[i])
  {
  }

  /** Everything before the marks. */
  function Unmarked(cell: Cell): string {
    WithUnit(cell) + PrintNotes(cell.notes)
  }

  lemma {:induction false} NotesEnd(x: string, notes: seq<Note>)
    requires x != "" && forall i :: 0 <= i < |notes| ==> notes[i].Valid()
    ensures var t := x + PrintNotes(notes);
      && t[0] == x[0] && (notes == [] ==> t == x)
      && (notes != [] ==> |t| > |x| && IsClose(t[|t| - 1]))
  {
    if notes == [] {
      assert x + PrintNotes(notes) == x;
    }
  }

  lemma UnitIsSolid(cell: Cell, d: Decimal)
    requires Shows(cell, d)
    ensures var t := WithUnit(cell);
      Solid(t) && HasDigit(t) && !IsMarker(t[|t| - 1])
  {
    UnitApplied(cell);
    hide *;
    CoreIsSolid(cell, d);
    DigitsStay(Core(cell), Repeat(' ', cell.gap) + cell.unit);
    Associate(Core(cell), Repeat(' ', cell.gap), cell.unit);
    UnitShows(cell, d);
    UnitOfCore(Core(cell), cell.gap, cell.unit);
  }

  lemma UnitShows(cell: Cell, d: Decimal)
    requires Shows(cell, d)
    ensures IsUnit(cell.unit) && (cell.unit == "" ==> cell.gap == 0)
  {
  }

  lemma UnmarkedEnds(cell: Cell, d: Decimal)
    requires Shows(cell, d)
    ensures var t := Unmarked(cell);
      Solid(t) && HasDigit(t) && !IsMarker(t[|t| - 1])
  {
    hide Shows, Solid, HasDigit, WithUnit, PrintNotes, IsMarker;
    NotesShow(cell, d);
    UnitIsSolid(cell, d);
    NotesEndMarked(WithUnit(cell), cell.notes);
  }

  lemma NotesShow(cell: Cell, d: Decimal)
    requires Shows(cell, d)
    ensures forall i :: 0 <= i < |cell.notes| ==> cell.notes[i].Valid()
  {
  }

  lemma {:induction false} NotesEndMarked(unit: string, notes: seq<Note>)
    requires Solid(unit) && HasDigit(unit) && !IsMarker(unit[|unit| - 1])
    requires forall i :: 0 <= i < |notes| ==> notes[i].Valid()
    ensures var t := unit + PrintNotes(notes);
      Solid(t) && HasDigit(t) && !IsMarker(t[|t| - 1])
  {
    NotesEnd(unit, notes);
    DigitsStay(unit, PrintNotes(notes));
  }

  lemma MarksShow(cell: Cell, d: Decimal)
    requires Shows(cell, d)
    ensures All(cell.marks, IsMarker) && (cell.marks != "" ==> IsSuperscript(cell.marks[|cell.marks| - 1]))
  {
  }

  lemma MarksAreTrimmed(text: string, marks: string)
    requires Solid(text) && !IsMarker(text[|text| - 1])
    requires All(marks, IsMarker) && (marks != "" ==> IsSuperscript(marks[|marks| - 1]))
    ensures Strip(text + marks) == text + marks && Numeric.Unmarked(text + marks) == text
  {
    assert Solid(text + marks) by {
      assert (text + marks)[0] == text[0];
    }
    StripSolid(text + marks);
    DropRightOf(text, marks, IsMarker);
  }

  // ---------------------------------------------------------------- folding and null cells

  lemma {:induction false} NotesArePlain(notes: seq<Note>)
    requires forall i :: 0 <= i < |notes| ==> notes[i].Valid()
    ensures All(PrintNotes(notes), IsPlain)
  {
    if notes != [] {
      NotesArePlain(notes[..|notes| - 1]);
      NoteIsPlain(notes[|notes| - 1]);
    }
  }

  lemma NoteIsPlain(note: Note)
    requires note.Valid()
    ensures All(PrintNote(note), IsPlain)
  {
  }

  lemma {:induction false} WrapIsPlain(layers: nat, s: string)
    requires All(s, IsPlain)
    ensures All(Wrap(layers, s), IsPlain)
  {
    if layers > 0 {
      WrapIsPlain(layers - 1, s);
    }
  }

  lemma CellIsPlain(cell: Cell, d: Decimal)
    requires Shows(cell, d)
    ensures All(Unmarked(cell), IsPlain)
  {
    ContentIsPlain(cell);
    WrapIsPlain(cell.layers, Content(cell));
    NotesArePlain(cell.notes);
    assert All(cell.outer, IsPlain);
    assert All(Core(cell), IsPlain);
    assert All(WithUnit(cell), IsPlain);
  }

  lemma ContentIsPlain(cell: Cell)
    requires All(cell.inner, IsMoney) && All(cell.tail, IsMoney) && All(cell.body, InBody)
    requires cell.sign != MathMinus
    ensures All(Content(cell), IsPlain)
  {
    assert All(cell.inner, IsPlain) && All(cell.tail, IsPlain) && All(cell.body, IsPlain);
    assert All(PrintSign(cell.sign), IsPlain);
  }

  lemma {:induction false} PlainSignsStay(s: string)
    requires All(s, IsPlain)
    ensures AsciiSigns(s) == s
  {
    if s != "" {
      PlainSignsStay(s[1..]);
    }
  }

  lemma {:induction false} DigitsAreNotNull(s: string)
    requires HasDigit(s)
    ensures Lower(s) !in NULL_TOKENS && s != ""
  {
    var i :| 0 <= i < |s| && IsDigit(s[i]);
    NullHasNoDigit(Lower(s), i);
  }

  lemma NullHasNoDigit(t: string, i: nat)
    requires i < |t| && IsDigit(t[i])
    ensures t !in NULL_TOKENS
  {
  }

  lemma {:induction false} AsciiJoins(a: string, b: string)
    ensures AsciiSigns(a + b) == AsciiSigns(a) + AsciiSigns(b)
  {
    if a == "" {
      assert a + b == b;
    } else {
      assert (a + b)[1..] == a[1..] + b;
      AsciiJoins(a[1..], b);
    }
  }

  /** Folding turns one minus into the other and leaves the rest of a cell alone. */
  lemma FoldedParts(cell: Cell)
    requires cell.sign == MathMinus
    ensures Unmarked(cell) == BeforeSign(cell) + "\U{2212}" + AfterSign(cell)
    ensures Unmarked(Folded(cell)) == BeforeSign(cell) + "-" + AfterSign(cell)
  {
    hide Unmarked;
    SignStands(cell);
    SignStands(Folded(cell));
  }

  lemma PlainFolds(nfkc: string -> string, s: string)
    requires FoldsPlainToItself(nfkc) && All(s, IsPlain)
    ensures AsciiSigns(nfkc(s)) == s
  {
    assert All(s, IsKept);
    PlainSignsStay(s);
  }

  lemma MinusCellFolds(nfkc: string -> string, a: string, b: string, s: string, plain: string)
    requires FoldsPlainToItself(nfkc) && s == a + "\U{2212}" + b && plain == a + "-" + b
    requires All(plain, IsPlain) && Solid(plain) && !IsMarker(plain[|plain| - 1])
    ensures AsciiSigns(nfkc(s)) == plain && Solid(s) && !IsMarker(s[|s| - 1]) && |s| == |plain|
  {
    assert plain == a + ['-'] + b;
    PartsArePlain(a, b, '-');
    hide FoldsPlainToItself, AsciiSigns, IsPlain, IsMarker, All;
    assert |plain| - 1 == |a + b| == |s| - 1;
    MinusFolds(nfkc, a, b);
  }

  lemma OtherwiseFolded(cell: Cell)
    ensures cell.sign != MathMinus ==> Folded(cell) == cell
  {
  }

  lemma CellFolds(nfkc: string -> string, cell: Cell, d: Decimal)
    requires FoldsPlainToItself(nfkc) && Shows(Folded(cell), d)
    ensures AsciiSigns(nfkc(Unmarked(cell))) == Unmarked(Folded(cell))
    ensures Solid(Unmarked(cell)) && !IsMarker(Unmarked(cell)[|Unmarked(cell)| - 1])
    ensures |Unmarked(cell)| == |Unmarked(Folded(cell))|
  {
    OtherwiseFolded(cell);
    hide *;
    CellIsPlain(Folded(cell), d);
    UnmarkedEnds(Folded(cell), d);
    if cell.sign == MathMinus {
      FoldedParts(cell);
      MinusCellFolds(nfkc, BeforeSign(cell), AfterSign(cell), Unmarked(cell), Unmarked(Folded(cell)));
    } else {
      PlainFolds(nfkc, Unmarked(cell));
    }
  }

  function BeforeSign(cell: Cell): string {
    cell.outer + Repeat('(', cell.layers)
  }

  function AfterSign(cell: Cell): string {
    cell.inner + cell.body + cell.tail + Repeat(')', cell.layers) + Repeat(' ', cell.gap) + cell.unit
    + PrintNotes(cell.notes)
  }

  lemma SignStands(cell: Cell)
    ensures Unmarked(cell) == BeforeSign(cell) + PrintSign(cell.sign) + AfterSign(cell)
  {
    WrapSplits(cell.layers, Content(cell));
  }

  lemma PartsArePlain(a: string, b: string, c: char)
    requires All(a + [c] + b, IsPlain)
    ensures All(a, IsPlain) && All(b, IsPlain)
  {
    var s := a + [c] + b;
    assert forall i :: 0 <= i < |a| ==> s[i] == a[i];
    assert forall i :: 0 <= i < |b| ==> s[|a| + 1 + i] == b[i];
  }

  lemma MinusFolds(nfkc: string -> string, a: string, b: string)
    requires FoldsPlainToItself(nfkc) && All(a, IsPlain) && All(b, IsPlain)
    requires Solid(a + "-" + b) && !IsMarker((a + "-" + b)[|a + b|])
    ensures AsciiSigns(nfkc(a + "\U{2212}" + b)) == a + "-" + b
    ensures Solid(a + "\U{2212}" + b) && !IsMarker((a + "\U{2212}" + b)[|a + b|])
  {
    var s, plain := a + "\U{2212}" + b, a + "-" + b;
    assert All(s, IsKept);
    PlainSignsStay(a);
    PlainSignsStay(b);
    AsciiJoins(a + "\U{2212}", b);
    AsciiJoins(a, "\U{2212}");
    assert AsciiSigns("\U{2212}") == "-";
    assert forall i :: 0 <= i < |s| && i != |a| ==> s[i] == plain[i];
  }

  lemma CellNotesComeOff(cell: Cell, d: Decimal)
    requires Shows(cell, d)
    ensures NotesOff(Unmarked(cell)) == WithUnit(cell)
    ensures Unmarked(cell) == WithUnit(cell) <==> cell.notes == []
  {
    UnitComesOff(cell, d);
    NotesComeOff(WithUnit(cell), cell.notes);
    ValueIsNoNote(cell, d);
    NotesEnd(WithUnit(cell), cell.notes);
  }

  // ---------------------------------------------------------------- the round trip

  /** What the notation of a cell means. */
  function Negative(cell: Cell): bool {
    (cell.layers % 2 == 1) != (cell.sign == Minus || cell.sign == MathMinus)
  }

  function Meaning(cell: Cell, d: Decimal): Number
    requires d.Valid()
  {
    var n := d.Coefficient();
    var value := (if Negative(cell) then Rounded(n) else n) as real / Pow10(|d.part|) as real;
    Number(if Negative(cell) then -value else value, cell.unit == "%", Negative(cell),
           cell.notes != [] || cell.marks != "")
  }

  lemma CoreReads(cell: Cell, d: Decimal)
    requires Shows(cell, d)
    ensures var wrapped := DropLeft(Core(cell), IsMoney);
      && MultipleOff(Bare(SignOff(Unwrapped(wrapped)))) == Numeral(d)
      && (Flipped(wrapped) != HasSign(Unwrapped(wrapped), '-')) == Negative(cell)
  {
    var pre, post := CorePeels(cell, d);
    PeeledReads(Unwrapped(DropLeft(Core(cell), IsMoney)), cell, pre, post, d);
  }

  lemma AmountReads(d: Decimal, negative: bool)
    requires d.Valid()
    ensures IsNumeral(Numeral(d)) && HasDigit(Numeral(d)) && Numeral(d) != ""
    ensures var value := (if negative then Rounded(d.Coefficient()) else d.Coefficient()) as real
                         / Pow10(|d.part|) as real;
      Amount(Numeral(d), negative) == if negative then -value else value
  {
    NumeralReads(d);
    hide Numeral, Coefficient, Scale, IsNumeral, HasDigit, Rounded, Pow10, ReadNat;
  }

  lemma ValueReads(cell: Cell, d: Decimal)
    requires Shows(cell, d)
    ensures ReadValue(WithUnit(cell), cell.notes != [] || cell.marks != "") == Some(Meaning(cell, d))
  {
    hide *;
    ShowsValid(cell, d);
    var wrapped, numeral := DropLeft(Core(cell), IsMoney), Numeral(d);
    UnitComesOff(cell, d);
    CoreReads(cell, d);
    AmountReads(d, Negative(cell));
    ReadAs(WithUnit(cell), wrapped, Unwrapped(wrapped), numeral, cell.notes != [] || cell.marks != "");
    MeaningIs(cell, d);
  }

  lemma ShowsValid(cell: Cell, d: Decimal)
    requires Shows(cell, d)
    ensures d.Valid()
  {
  }

  lemma MeaningIs(cell: Cell, d: Decimal)
    requires d.Valid()
    ensures var value := (if Negative(cell) then Rounded(d.Coefficient()) else d.Coefficient()) as real
                         / Pow10(|d.part|) as real;
      Meaning(cell, d) == Number(if Negative(cell) then -value else value, cell.unit == "%", Negative(cell),
                                 cell.notes != [] || cell.marks != "")
  {
  }

  lemma {:induction false} ReadAs(text: string, wrapped: string, signed: string, numeral: string, had: bool)
    requires DropLeft(UnitOff(text), IsMoney) == wrapped && Unwrapped(wrapped) == signed
    requires MultipleOff(Bare(SignOff(signed))) == numeral && numeral != "" && HasDigit(numeral) && IsNumeral(numeral)
    ensures var negative := Flipped(wrapped) != HasSign(signed, '-');
      ReadValue(text, had) == Some(Number(Amount(numeral, negative), EndsWith(text, "%"), negative, had))
  {
  }

  /** Parsing a printed cell recovers the value, its sign and every flag: for any digits with or
      without a point, any grouping commas, currency inside or outside, any number of nested
      parentheses, either minus, a multiple marker, a unit, bracketed notes and superscript marks. */
  lemma ParseCell(nfkc: string -> string, cell: Cell, d: Decimal)
    requires FoldsPlainToItself(nfkc) && Printed(cell, d)
    ensures d.Valid() && Parsed(nfkc, Some(PrintCell(cell))) == Some(Meaning(cell, d))
  {
    PrintedShows(cell, d);
    var plain := Folded(cell);
    assert plain.marks == cell.marks && plain.notes == cell.notes;
    hide *;
    var text, folded, unit := Unmarked(cell), Unmarked(plain), WithUnit(plain);
    MarksShow(plain, d);
    CellFolds(nfkc, cell, d);
    MarksAreTrimmed(text, cell.marks);
    UnmarkedEnds(plain, d);
    StripSolid(folded);
    CellNotesComeOff(plain, d);
    UnitIsSolid(plain, d);
    StripSolid(unit);
    CellText(cell);
    ParsedAs(nfkc, PrintCell(cell), text, folded, unit);
    assert text == PrintCell(cell) <==> cell.marks == "";
    ValueReads(plain, d);
    SameMeaning(cell, d);
  }

  lemma CellText(cell: Cell)
    ensures PrintCell(cell) == Unmarked(cell) + cell.marks
  {
  }

  lemma SameMeaning(cell: Cell, d: Decimal)
    requires Shows(Folded(cell), d)
    ensures d.Valid() && Meaning(Folded(cell), d) == Meaning(cell, d)
  {
  }

  lemma {:induction false} ParsedAs(nfkc: string -> string, raw: string, marked: string, text: string, unit: string)
    requires Numeric.Unmarked(raw) == marked && Strip(AsciiSigns(nfkc(marked))) == text && NotesOff(text) == unit
    requires HasDigit(text) && HasDigit(unit) && Strip(unit) == unit
    ensures Parsed(nfkc, Some(raw)) == ReadValue(unit, marked != Strip(raw) || unit != text)
  {
    DigitsAreNotNull(text);
    DigitsAreNotNull(unit);
  }

  /** In particular a number printed in full is read back. */
  lemma ParsePrint(nfkc: string -> string, cell: Cell, n: nat, scale: nat)
    requires FoldsPlainToItself(nfkc) && Printed(cell, InFull(n, scale))
    ensures var exact, kept := n as real / Pow10(scale) as real, Rounded(n) as real / Pow10(scale) as real;
      Parsed(nfkc, Some(PrintCell(cell)))
      == Some(Number(if Negative(cell) then -kept else exact, cell.unit == "%", Negative(cell),
                     cell.notes != [] || cell.marks != ""))
  {
    hide Parsed, PrintCell, Printed, Rounded, FoldsPlainToItself;
    ParseCell(nfkc, cell, InFull(n, scale));
    ReadInParts(n, scale);
  }

  // ---------------------------------------------------------------- how exact the value is

  /** Rounding to the kept digits changes nothing exactly when the number has no more digits
      than that, or only zeros beyond them. */
  lemma {:induction false} RoundedIsExactIff(n: nat)
    ensures Rounded(n) == n <==> |PrintNat(n)| <= PRECISION || n % Pow10(|PrintNat(n)| - PRECISION) == 0
  {
    if |PrintNat(n)| > PRECISION {
      var d := Pow10(|PrintNat(n)| - PRECISION);
      HalfEvenExact(n, d);
    }
  }

  /** The parser recovers the printed value itself exactly when that value is not negative
      or fits the digits that negation keeps. */
  lemma ValueIsExactIff(nfkc: string -> string, cell: Cell, n: nat, scale: nat)
    requires FoldsPlainToItself(nfkc) && Printed(cell, InFull(n, scale))
    ensures var exact := n as real / Pow10(scale) as real;
      Parsed(nfkc, Some(PrintCell(cell))).Some?
      && (Parsed(nfkc, Some(PrintCell(cell))).value.value == (if Negative(cell) then -exact else exact)
          <==> !Negative(cell) || |PrintNat(n)| <= PRECISION || n % Pow10(|PrintNat(n)| - PRECISION) == 0)
  {
    hide Parsed, PrintCell, Printed, Rounded, Negative, FoldsPlainToItself;
    ParsePrint(nfkc, cell, n, scale);
    RoundedIsExactIff(n);
    SameQuotient(Rounded(n), n, Pow10(scale));
  }

  lemma SameQuotient(a: nat, b: nat, d: nat)
    requires d > 0
    ensures a as real / d as real == b as real / d as real <==> a == b
  {
    var x, y := a as real / d as real, b as real / d as real;
    assert x * d as real == a as real && y * d as real == b as real;
  }
}
