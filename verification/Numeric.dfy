/** The numbers in financial table cells: what notation is peeled off, in which order. */
module Numeric {
  import opened Wrappers
  import opened Texts
  import opened Digits
  import opened Rounding

  datatype Number = Number(value: real, isPercent: bool, isNegative: bool, hadFootnote: bool)

  // ---------------------------------------------------------------- characters

  predicate IsCurrency(c: char) {
    c == '$' || c == '\U{20AC}' || c == '\U{00A3}' || c == '\U{00A5}' || c == '\U{20B9}'
  }

  predicate IsSuperscript(c: char) {
    c == '\U{00B9}' || c == '\U{00B2}' || c == '\U{00B3}' || '\U{2070}' <= c <= '\U{2079}'
  }

  predicate IsMarker(c: char) { IsSuperscript(c) || c == ' ' }

  predicate IsMoney(c: char) { IsCurrency(c) || c == ' ' }

  predicate IsOpen(c: char) { c == '(' || c == '[' || c == '{' }

  predicate IsClose(c: char) { c == ')' || c == ']' || c == '}' }

  /** Cells that carry no number. */
  const NULL_TOKENS: set<string> := {
    "", "-", "--", "\U{2014}", "\U{2013}", "\U{2012}", "\U{2015}",
    "n/a", "na", "n.a.", "nm", "n.m.", "nil", "none", "*"
  }

  /** Significant digits kept by decimal arithmetic. */
  const PRECISION: nat := 28

  predicate HasDigit(s: string) {
    exists i :: 0 <= i < |s| && IsDigit(s[i])
  }

  function LowerChar(c: char): char {
    if 'A' <= c <= 'Z' then c + ('a' - 'A') else c
  }

  function Lower(s: string): (r: string)
    ensures |r| == |s| && forall i :: 0 <= i < |s| ==> r[i] == LowerChar(s[i])
  {
    if s == "" then "" else [LowerChar(s[0])] + Lower(s[1..])
  }

  /** Drops from the left, or from the right, while `p` holds. */
  function DropLeft(s: string, p: char -> bool): string {
    if s == "" || !p(s[0]) then s else DropLeft(s[1..], p)
  }

  function DropRight(s: string, p: char -> bool): (r: string)
    ensures |r| <= |s|
  {
    if s == "" || !p(s[|s| - 1]) then s else DropRight(s[..|s| - 1], p)
  }

  function Without(s: string, c: char): string {
    if s == "" then "" else (if s[0] == c then "" else [s[0]]) + Without(s[1..], c)
  }

  function EndsWith(s: string, suffix: string): bool {
    |s| >= |suffix| && s[|s| - |suffix|..] == suffix
  }

  // ---------------------------------------------------------------- footnotes

  /** Number of digits at the end. */
  function DigitsAtEnd(s: string): (n: nat)
    ensures n <= |s|
  {
    if s == "" || !IsDigit(s[|s| - 1]) then 0 else DigitsAtEnd(s[..|s| - 1]) + 1
  }

  /** Where a bracketed note of one or two digits begins, if the text ends with one. */
  function NoteAt(text: string): (r: Option<nat>)
    ensures r.Some? ==> r.value < |text|
  {
    var t := RStrip(text);
    if t == "" || !IsClose(t[|t| - 1]) then None
    else
      var u := RStrip(t[..|t| - 1]);
      var n := DigitsAtEnd(u);
      var v := RStrip(u[..|u| - n]);
      if 1 <= n <= 2 && v != "" && IsOpen(v[|v| - 1]) then Some(|v| - 1) else None
  }

  /** The text without its trailing notes. A note with no digit ahead of it is the value itself. */
  function NotesOff(text: string): string
    decreases |text|
  {
    var at := NoteAt(text);
    if at.None? || !HasDigit(text[..at.value]) then text
    else
      RStripShorter(text[..at.value]);
      NotesOff(RStrip(text[..at.value]))
  }

  method StripFootnotes(text0: string) returns (text: string, had: bool)
    ensures text == NotesOff(text0) && (had <==> text != text0)
  {
    text, had := text0, false;
    var at := NoteAt(text);
    while at.Some?
      invariant at == NoteAt(text) && NotesOff(text) == NotesOff(text0)
      invariant |text| <= |text0| && (had <==> |text| < |text0|) && (!had ==> text == text0)
      decreases |text|
    {
      var head := text[..at.value];
      if !HasDigit(head) {
        break;
      }
      RStripShorter(head);
      had, text := true, RStrip(head);
      at := NoteAt(text);
    }
  }

  // ---------------------------------------------------------------- the cell

  /** The raw cell without trailing superscripts, which go before any folding of characters. */
  function Unmarked(raw: string): string {
    DropRight(Strip(raw), IsMarker)
  }

  function AsciiSigns(s: string): (r: string)
    ensures |r| == |s|
  {
    if s == "" then ""
    else [if s[0] == '\U{00A0}' then ' ' else if s[0] == '\U{2212}' then '-' else s[0]] + AsciiSigns(s[1..])
  }

  /** Takes off a percent sign or a basis-point unit. */
  function UnitOff(text: string): string {
    if EndsWith(text, "%") then Strip(text[..|text| - 1])
    else if EndsWith(Lower(text), "bps") then Strip(text[..|text| - 3])
    else if EndsWith(Lower(text), "bp") then Strip(text[..|text| - 2])
    else text
  }

  predicate IsWrapped(s: string) {
    |s| >= 2 && s[0] == '(' && s[|s| - 1] == ')'
  }

  /** What a pair of accounting parentheses holds. */
  function Inner(s: string): (r: string)
    requires IsWrapped(s)
    ensures |r| < |s|
  {
    RStripShorter(s[1..|s| - 1]);
    Strip(s[1..|s| - 1])
  }

  function Unwrapped(s: string): string
    decreases |s|
  {
    if IsWrapped(s) then Unwrapped(Inner(s)) else s
  }

  /** Every pair of parentheses flips the sign. */
  predicate Flipped(s: string)
    decreases |s|
  {
    IsWrapped(s) && !Flipped(Inner(s))
  }

  predicate HasSign(s: string, sign: char) {
    s != "" && s[0] == sign
  }

  function SignOff(s: string): string {
    if HasSign(s, '-') || HasSign(s, '+') then Strip(s[1..]) else s
  }

  function Bare(s: string): string {
    Without(Without(DropRight(DropLeft(s, IsMoney), IsMoney), ','), ' ')
  }

  /** A trailing multiple marker is a ratio, still a number. */
  function MultipleOff(s: string): string {
    if s != "" && LowerChar(s[|s| - 1]) == 'x' then s[..|s| - 1] else s
  }

  /** Place of the decimal point, or the length. */
  function PointAt(s: string): (n: nat)
    ensures n <= |s|
  {
    if s == "" || s[0] == '.' then 0 else PointAt(s[1..]) + 1
  }

  /** Digits, with at most one point, and a digit after the point unless it ends a whole number. */
  predicate IsNumeral(s: string) {
    var p := PointAt(s);
    && AllDigits(s[..p])
    && if p == |s| then p > 0 else AllDigits(s[p + 1..]) && (p > 0 || p + 1 < |s|)
  }

  /** The digits of a numeral as a whole number, and how many stand after the point. */
  function Coefficient(s: string): nat
    requires IsNumeral(s)
  {
    var p := PointAt(s);
    ReadNat(s[..p] + if p == |s| then "" else s[p + 1..])
  }

  function Scale(s: string): nat {
    if PointAt(s) == |s| then 0 else |s| - PointAt(s) - 1
  }

  /** The coefficient after an arithmetic operation, which keeps so many digits only. */
  function Rounded(coefficient: nat): nat {
    var n := |PrintNat(coefficient)|;
    if n <= PRECISION then coefficient
    else HalfEven(coefficient, Pow10(n - PRECISION)) * Pow10(n - PRECISION)
  }

  /** Reading a numeral is exact; negating it is an arithmetic operation. */
  function Amount(s: string, negative: bool): real
    requires IsNumeral(s)
  {
    if negative then -(Rounded(Coefficient(s)) as real / Pow10(Scale(s)) as real)
    else Coefficient(s) as real / Pow10(Scale(s)) as real
  }

  /** The number in a text that has lost its notes. */
  function ReadValue(text: string, hadFootnote: bool): Option<Number> {
    var wrapped := DropLeft(UnitOff(text), IsMoney);
    var signed := Unwrapped(wrapped);
    var cleaned := MultipleOff(Bare(SignOff(signed)));
    var negative := Flipped(wrapped) != HasSign(signed, '-');
    if cleaned == "" || !HasDigit(cleaned) || !IsNumeral(cleaned) then None
    else Some(Number(Amount(cleaned, negative), EndsWith(text, "%"), negative, hadFootnote))
  }

  function Parsed(nfkc: string -> string, raw: Option<string>): Option<Number> {
    if raw.None? then None
    else
      var unmarked := Unmarked(raw.value);
      var folded := Strip(AsciiSigns(nfkc(unmarked)));
      var noted := NotesOff(folded);
      var text := Strip(noted);
      if Lower(folded) in NULL_TOKENS || text == "" || Lower(text) in NULL_TOKENS then None
      else ReadValue(text, unmarked != Strip(raw.value) || noted != folded)
  }

  method Unwrap(text: string) returns (inner: string, negative: bool)
    ensures inner == Unwrapped(text) && negative == Flipped(text)
  {
    inner, negative := text, false;
    while IsWrapped(inner)
      invariant Unwrapped(inner) == Unwrapped(text) && Flipped(text) == (negative != Flipped(inner))
      decreases |inner|
    {
      negative := !negative;
      inner := Inner(inner);
    }
  }

  method ParseNumeric(nfkc: string -> string, raw: Option<string>) returns (r: Option<Number>)
    ensures r == Parsed(nfkc, raw)
  {
    if raw.None? {
      return None;
    }
    var stripped := Strip(raw.value);
    var unmarked := DropRight(stripped, IsMarker);
    var hadFootnote := unmarked != stripped;
    var folded := Strip(AsciiSigns(nfkc(unmarked)));
    if Lower(folded) in NULL_TOKENS {
      return None;
    }
    var text, hadBracket := StripFootnotes(folded);
    hadFootnote := hadFootnote || hadBracket;
    text := Strip(text);
    if text == "" || Lower(text) in NULL_TOKENS {
      return None;
    }
    var isPercent := EndsWith(text, "%");
    text := DropLeft(UnitOff(text), IsMoney);
    var inner, isNegative := Unwrap(text);
    if HasSign(inner, '-') {
      isNegative := !isNegative;
    }
    inner := SignOff(inner);
    var cleaned := MultipleOff(Bare(inner));
    if cleaned == "" || !HasDigit(cleaned) || !IsNumeral(cleaned) {
      return None;
    }
    r := Some(Number(Amount(cleaned, isNegative), isPercent, isNegative, hadFootnote));
  }
}
