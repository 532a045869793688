/** What comes off a cell before its number is read, and all that is read as a number. */
module NumericNotes {
  import opened Wrappers
  import opened Texts
  import opened Digits
  import opened Numeric
  import opened NumericRoundTrip
  import opened NumericGrammar

  // ---------------------------------------------------------------- one note

  /** A bracket at `at`, one or two digits from `j` on, a bracket at `k`, and whitespace around. */
  ghost predicate NoteFrom(text: string, at: nat, j: nat, n: nat, k: nat) {
    && at < j && n in {1, 2} && j + n <= k < |text|
    && text[at] in "([{" && All(text[at + 1..j], IsSpace) && Among(text[j..j + n], "0123456789")
    && All(text[j + n..k], IsSpace) && text[k] in ")]}" && All(text[k + 1..], IsSpace)
  }

  /** The text ends with a note that begins at `at`. */
  ghost predicate EndsWithNote(text: string, at: nat) {
    exists j, n, k :: NoteFrom(text, at, j, n, k)
  }

  /** `s` is `t` without the whitespace at its end. */
  ghost predicate CutTo(t: string, s: string) {
    s <= t && All(t[|s|..], IsSpace) && (s == "" || !IsSpace(s[|s| - 1]))
  }

  lemma RStripIff(t: string, s: string)
    ensures CutTo(t, s) <==> s == RStrip(t)
  {
    hide IsSpace;
    TrailSpec(t);
    var r := RStrip(t);
    assert forall i :: 0 <= i < |t[|r|..]| ==> t[|r|..][i] == t[|r| + i];
    if CutTo(t, s) {
      if s == "" {
        BlankIsAll(t);
      } else {
        RStripOf(s, t[|s|..]);
        assert t == s + t[|s|..];
      }
    }
  }

  lemma BlankIsAll(t: string)
    requires All(t, IsSpace)
    ensures RStrip(t) == ""
  {
    BlankStrips(t);
  }

  lemma {:induction false} DigitsAtEndSplit(s: string)
    ensures var n := DigitsAtEnd(s);
      AllDigits(s[|s| - n..]) && (n < |s| ==> !IsDigit(s[|s| - n - 1]))
  {
    if s != "" && IsDigit(s[|s| - 1]) {
      DigitsAtEndSplit(s[..|s| - 1]);
    }
  }

  lemma DigitsAreSpelled(s: string)
    ensures AllDigits(s) <==> Among(s, "0123456789")
  {
    hide IsDigit;
    forall c ensures IsDigit(c) <==> c in "0123456789" {
      Classes(c);
    }
  }

  lemma {:induction false} NoteAtHas(text: string) returns (t: string, u: string, v: string, n: nat)
    requires NoteAt(text).Some?
    ensures t == RStrip(text) && t != "" && IsClose(t[|t| - 1]) && u == RStrip(t[..|t| - 1])
    ensures n == DigitsAtEnd(u) <= |u| && n in {1, 2} && v == RStrip(u[..|u| - n])
    ensures v != "" && IsOpen(v[|v| - 1]) && NoteAt(text) == Some(|v| - 1)
  {
    hide RStrip, DigitsAtEnd;
    t := RStrip(text);
    u := RStrip(t[..|t| - 1]);
    n := DigitsAtEnd(u);
    v := RStrip(u[..|u| - n]);
  }

  lemma NoteFound(text: string)
    requires NoteAt(text).Some?
    ensures EndsWithNote(text, NoteAt(text).value)
  {
    var t, u, v, n := NoteAtHas(text);
    hide *;
    var k, j, at := |t| - 1, |u| - n, |v| - 1;
    RStripIff(text, t);
    RStripIff(t[..k], u);
    RStripIff(u[..j], v);
    DigitsAtEndSplit(u);
    DigitsAreSpelled(u[j..]);
    Classes(t[k]);
    Classes(v[at]);
    NoteStands(text, t, u, v, j);
  }

  lemma FrontOfFront(text: string, t: string, k: nat, u: string)
    requires t <= text && k <= |t| && u <= t[..k]
    ensures u <= text
  {
    assert forall i :: 0 <= i < |u| ==> u[i] == t[..k][i] == text[i];
  }

  lemma NoteStands(text: string, t: string, u: string, v: string, j: nat)
    requires CutTo(text, t) && t != "" && t[|t| - 1] in ")]}" && CutTo(t[..|t| - 1], u)
    requires j <= |u| && |u| - j in {1, 2} && Among(u[j..], "0123456789")
    requires CutTo(u[..j], v) && v != "" && v[|v| - 1] in "([{"
    ensures EndsWithNote(text, |v| - 1)
  {
    var k, at, n := |t| - 1, |v| - 1, |u| - j;
    hide Among, All, IsSpace;
    assert t == text[..|t|];
    FrontOfFront(text, t, k, u);
    FrontOfFront(text, u, j, v);
    assert u == text[..|u|] && v == text[..|v|];
    assert text[k + 1..] == text[|t|..] && text[k] == t[k];
    assert text[j + n..k] == t[..k][|u|..];
    assert text[j..j + n] == u[j..];
    assert text[at + 1..j] == u[..j][|v|..] && text[at] == v[at];
    assert NoteFrom(text, at, j, n, k);
  }

  lemma {:induction false} NoteAtBy(text: string, t: string, u: string, v: string, n: nat)
    requires RStrip(text) == t && t != "" && IsClose(t[|t| - 1]) && RStrip(t[..|t| - 1]) == u
    requires n <= |u| && DigitsAtEnd(u) == n && n in {1, 2} && RStrip(u[..|u| - n]) == v
    requires v != "" && IsOpen(v[|v| - 1])
    ensures NoteAt(text) == Some(|v| - 1)
  {
  }

  lemma DigitsBefore(text: string, j: nat, n: nat)
    requires 0 < j && j + n <= |text| && Among(text[j..j + n], "0123456789") && !IsDigit(text[j - 1])
    ensures DigitsAtEnd(text[..j + n]) == n
  {
    hide IsDigit, Among;
    DigitsAreSpelled(text[j..j + n]);
    assert text[..j + n] == text[..j] + text[j..j + n];
    DigitsAtEndOf(text[..j], text[j..j + n]);
  }

  lemma NoteBrackets(text: string, at: nat, j: nat, n: nat, k: nat)
    requires NoteFrom(text, at, j, n, k)
    ensures at < j && n in {1, 2} && j + n <= k < |text| && Among(text[j..j + n], "0123456789")
    ensures IsOpen(text[at]) && IsClose(text[k])
  {
    hide IsSpace, Among, All;
    Classes(text[k]);
    Classes(text[at]);
  }

  lemma NoteIsThere(text: string, at: nat, j: nat, n: nat, k: nat)
    requires NoteFrom(text, at, j, n, k)
    ensures NoteAt(text) == Some(at)
  {
    NoteBrackets(text, at, j, n, k);
    NoteCuts(text, at, j, n, k);
    hide *;
    DigitsBefore(text, j, n);
    var t, u, v := text[..k + 1], text[..j + n], text[..at + 1];
    RStripIff(text, t);
    RStripIff(t[..k], u);
    RStripIff(u[..j], v);
    assert t[k] == text[k] && v[at] == text[at];
    NoteAtBy(text, t, u, v, n);
  }

  lemma NoteCuts(text: string, at: nat, j: nat, n: nat, k: nat)
    requires NoteFrom(text, at, j, n, k)
    ensures CutTo(text, text[..k + 1]) && CutTo(text[..k + 1][..k], text[..j + n])
    ensures CutTo(text[..j + n][..j], text[..at + 1]) && !IsDigit(text[j - 1])
  {
    Classes(text[j + n - 1]);
    assert text[j..j + n][n - 1] == text[j + n - 1];
    assert text[..k + 1][..k][j + n..] == text[j + n..k];
    assert text[..j + n][..j][at + 1..] == text[at + 1..j];
    assert at + 1 < j ==> text[at + 1..j][j - at - 2] == text[j - 1];
  }

  /** The notes that are looked for. */
  lemma NoteAtIff(text: string, at: nat)
    ensures NoteAt(text) == Some(at) <==> EndsWithNote(text, at)
  {
    hide NoteAt, NoteFrom;
    if NoteAt(text) == Some(at) {
      NoteFound(text);
    }
    if EndsWithNote(text, at) {
      var j, n, k :| NoteFrom(text, at, j, n, k);
      NoteIsThere(text, at, j, n, k);
    }
  }

  // ---------------------------------------------------------------- all notes

  /** A note with a digit ahead of it comes off, and the whitespace ahead of it as well. */
  ghost predicate NoteGoes(text: string, rest: string) {
    exists at: nat :: at < |text| && EndsWithNote(text, at) && HasDigit(text[..at]) && CutTo(text[..at], rest)
  }

  /** From the first text to the last a note goes at each step, and none can go from the last. */
  ghost predicate NotesGo(texts: seq<string>) {
    && texts != [] && (forall k :: 0 < k < |texts| ==> NoteGoes(texts[k - 1], texts[k]))
    && NoneGoes(texts[|texts| - 1])
  }

  ghost predicate NoneGoes(text: string) {
    forall rest :: !NoteGoes(text, rest)
  }

  lemma NoteGoesIff(text: string, rest: string)
    ensures NoteGoes(text, rest)
       <==> NoteAt(text).Some? && HasDigit(text[..NoteAt(text).value]) && rest == RStrip(text[..NoteAt(text).value])
  {
    hide NoteAt, EndsWithNote, HasDigit, CutTo, RStrip;
    forall at: nat ensures NoteAt(text) == Some(at) <==> EndsWithNote(text, at) {
      NoteAtIff(text, at);
    }
    forall at: nat | at < |text| ensures CutTo(text[..at], rest) <==> rest == RStrip(text[..at]) {
      RStripIff(text[..at], rest);
    }
  }

  lemma {:induction false} NotesGoOff(text: string) returns (texts: seq<string>)
    ensures NotesGo(texts) && texts[0] == text && texts[|texts| - 1] == NotesOff(text)
    decreases |text|
  {
    hide NoteAt, HasDigit, NoteGoes, RStrip;
    forall rest ensures NoteGoes(text, rest)
      <==> NoteAt(text).Some? && HasDigit(text[..NoteAt(text).value]) && rest == RStrip(text[..NoteAt(text).value])
    {
      NoteGoesIff(text, rest);
    }
    var at := NoteAt(text);
    if at.Some? && HasDigit(text[..at.value]) {
      var rest := RStrip(text[..at.value]);
      RStripShorter(text[..at.value]);
      var more := NotesGoOff(rest);
      texts := [text] + more;
      forall k | 0 < k < |texts| ensures NoteGoes(texts[k - 1], texts[k]) {
        assert k > 1 ==> texts[k - 1] == more[k - 2] && texts[k] == more[k - 1];
      }
    } else {
      texts := [text];
    }
  }

  lemma {:induction false} OnlyNotesGo(texts: seq<string>)
    requires NotesGo(texts)
    ensures texts[|texts| - 1] == NotesOff(texts[0])
    decreases |texts|
  {
    hide NoteAt, HasDigit, NoteGoes, RStrip;
    var text := texts[0];
    if |texts| > 1 {
      assert NoteGoes(texts[0], texts[1]);
      NoteGoesIff(text, texts[1]);
      var more := texts[1..];
      forall k | 0 < k < |more| ensures NoteGoes(more[k - 1], more[k]) {
        assert more[k - 1] == texts[k] && more[k] == texts[k + 1];
      }
      OnlyNotesGo(more);
    } else {
      var at := NoteAt(text);
      if at.Some? {
        NoteGoesIff(text, RStrip(text[..at.value]));
      }
    }
  }

  /** This says which notes come off. */
  lemma NotesIff(text: string, rest: string)
    ensures rest == NotesOff(text)
       <==> exists texts :: NotesGo(texts) && texts[0] == text && texts[|texts| - 1] == rest
  {
    hide NotesGo, NotesOff;
    var texts := NotesGoOff(text);
    assert texts != [] by { SomeText(texts); }
    forall other | NotesGo(other) ensures other != [] && other[|other| - 1] == NotesOff(other[0]) {
      SomeText(other);
      OnlyNotesGo(other);
    }
  }

  lemma SomeText(texts: seq<string>)
    requires NotesGo(texts)
    ensures texts != []
  {
  }

  // ---------------------------------------------------------------- the whole cell

  /** Ten superscript digits, the places between them, and the space. */
  const MARKS := SUPERSCRIPTS + "\U{2071}\U{2072}\U{2073} "

  /** `base` is the trimmed cell without the marks at its end. */
  ghost predicate MarksOff(raw: string, base: string) {
    exists marks :: Strip(raw) == base + marks && Among(marks, MARKS) && (base == "" || base[|base| - 1] !in MARKS)
  }

  lemma MarksIff(raw: string, base: string)
    ensures base == Numeric.Unmarked(raw) <==> MarksOff(raw, base)
  {
    var s := Strip(raw);
    hide Strip, IsMarker, DropRight;
    forall c ensures IsMarker(c) <==> c in MARKS {
      Classes(c);
    }
    var marks := DropRightSplits(s, IsMarker);
    assert s == DropRight(s, IsMarker) + marks && Among(marks, MARKS);
    if MarksOff(raw, base) {
      var other :| s == base + other && Among(other, MARKS) && (base == "" || base[|base| - 1] !in MARKS);
      DropRightOf(base, other, IsMarker);
    }
  }

  /** Hard spaces become spaces and mathematical minuses become hyphens; nothing else changes. */
  lemma {:induction false} SignsAre(s: string, i: nat)
    requires i < |s|
    ensures AsciiSigns(s)[i] == if s[i] == '\U{00A0}' then ' ' else if s[i] == '\U{2212}' then '-' else s[i]
  {
    if i > 0 {
      SignsAre(s[1..], i - 1);
    }
  }

  lemma {:induction false} NotesOffIsPrefix(text: string)
    ensures NotesOff(text) <= text
    decreases |text|
  {
    hide NoteAt, HasDigit;
    var at := NoteAt(text);
    if at.Some? && HasDigit(text[..at.value]) {
      RStripShorter(text[..at.value]);
      NotesOffIsPrefix(RStrip(text[..at.value]));
    }
  }

  lemma KernelHasDigit(kernel: string, times: string, d: Decimal)
    requires d.Valid() && Without(Without(kernel, ','), ' ') == Numeral(d) + times
    ensures HasDigit(kernel)
  {
    NumeralReads(d);
    WithoutKeeps(kernel, ',');
    WithoutKeeps(Without(kernel, ','), ' ');
    hide Without, Numeral, IsDigit;
    var n := Numeral(d);
    var k :| 0 <= k < |n| && IsDigit(n[k]);
    assert (n + times)[k] == n[k];
    assert n[k] in kernel;
    var i :| 0 <= i < |kernel| && kernel[i] == n[k];
  }

  lemma KernelStands(p: Parts)
    ensures Whole(p) == (p.outer + p.opens + (p.sign + p.inner)) + p.kernel + (p.tail + p.closes + p.unit)
  {
  }

  lemma MadeHasDigit(text: string, had: bool, r: Number)
    requires IsMade(text, had, r)
    ensures HasDigit(text)
  {
    var p, times, d :| Made(text, had, r, p, times, d);
    KernelHasDigit(p.kernel, times, d);
    assert text == Whole(p);
    hide *;
    KernelStands(p);
    HasDigitAfter(p.outer + p.opens + (p.sign + p.inner), p.kernel);
    DigitsStay((p.outer + p.opens + (p.sign + p.inner)) + p.kernel, p.tail + p.closes + p.unit);
  }

  /** A trimmed text is nothing or begins and ends with something. */
  lemma TrimmedIsSolid(s: string)
    ensures Strip(s) == "" || Solid(Strip(s))
  {
    var _, _ := StripSplits(s);
  }

  lemma {:induction false} ParsedWhen(nfkc: string -> string, raw: string)
    ensures var base := Numeric.Unmarked(raw);
      var plain := Strip(AsciiSigns(nfkc(base)));
      var rest := NotesOff(plain);
      var text := Strip(rest);
      && (text == "" ==> Parsed(nfkc, Some(raw)) == None)
      && (HasDigit(text) && HasDigit(plain) ==>
            Parsed(nfkc, Some(raw)) == ReadValue(text, base != Strip(raw) || rest != plain))
      && (Parsed(nfkc, Some(raw)).Some? ==>
            Parsed(nfkc, Some(raw)) == ReadValue(text, base != Strip(raw) || rest != plain))
  {
    var plain := Strip(AsciiSigns(nfkc(Numeric.Unmarked(raw))));
    var text := Strip(NotesOff(plain));
    hide HasDigit, ReadValue, Strip, NotesOff, AsciiSigns;
    if HasDigit(text) && HasDigit(plain) {
      DigitsAreNotNull(text);
      DigitsAreNotNull(plain);
    }
  }

  lemma DigitsInside(plain: string, rest: string)
    requires rest <= plain && HasDigit(Strip(rest))
    ensures HasDigit(plain)
  {
    var a, b := StripSplits(rest);
    hide Strip, IsDigit;
    var t := Strip(rest);
    var i :| 0 <= i < |t| && IsDigit(t[i]);
    assert plain[|a| + i] == rest[|a| + i] == t[i];
  }

  /** What a cell parses to: without marks, folded and trimmed, without notes and trimmed again, it
      has to be made of the parts of a number. */
  lemma ParsedIff(nfkc: string -> string, raw: string, r: Number)
    ensures var base := Numeric.Unmarked(raw);
      var plain := Strip(AsciiSigns(nfkc(base)));
      var rest := NotesOff(plain);
      var text := Strip(rest);
      Parsed(nfkc, Some(raw)) == Some(r)
      <==> IsMade(text, base != Strip(raw) || rest != plain, r)
  {
    hide *;
    var base := Numeric.Unmarked(raw);
    var plain := Strip(AsciiSigns(nfkc(base)));
    var rest := NotesOff(plain);
    var text, had := Strip(rest), base != Strip(raw) || rest != plain;
    ParsedWhen(nfkc, raw);
    NotesOffIsPrefix(plain);
    TrimmedIsSolid(rest);
    if IsMade(text, had, r) {
      MadeHasDigit(text, had, r);
      DigitsInside(plain, rest);
      NotEmpty(text);
      ReadsIff(text, had, r);
    }
    if Parsed(nfkc, Some(raw)) == Some(r) {
      ReadsIff(text, had, r);
    }
  }

  lemma NotEmpty(s: string)
    requires HasDigit(s)
    ensures s != ""
  {
  }
}
