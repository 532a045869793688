/** Whitespace, trimming and order of strings, as the string methods of the source define them. */
module Texts {
  predicate IsSpace(c: char) {
    || '\U{0009}' <= c <= '\U{000D}'
    || '\U{001C}' <= c <= '\U{0020}'
    || c == '\U{0085}' || c == '\U{00A0}' || c == '\U{1680}'
    || '\U{2000}' <= c <= '\U{200A}'
    || c == '\U{2028}' || c == '\U{2029}' || c == '\U{202F}' || c == '\U{205F}' || c == '\U{3000}'
  }

  ghost predicate Blank(s: string) {
    forall i :: 0 <= i < |s| ==> IsSpace(s[i])
  }

  /** Length of the leading whitespace. */
  function Lead(s: string): (n: nat)
    ensures n <= |s|
  {
    if s == "" || !IsSpace(s[0]) then 0 else Lead(s[1..]) + 1
  }

  /** Length of the trailing whitespace. */
  function Trail(s: string): (n: nat)
    ensures n <= |s|
  {
    if s == "" || !IsSpace(s[|s| - 1]) then 0 else Trail(s[..|s| - 1]) + 1
  }

  /** The leading whitespace runs up to the first character that is not. */
  lemma {:induction false} LeadSpec(s: string)
    ensures (forall i :: 0 <= i < Lead(s) ==> IsSpace(s[i])) && (Lead(s) < |s| ==> !IsSpace(s[Lead(s)]))
  {
    if s != "" && IsSpace(s[0]) {
      LeadSpec(s[1..]);
      assert forall i :: 0 < i < |s| ==> s[i] == s[1..][i - 1];
    }
  }

  lemma {:induction false} TrailSpec(s: string)
    ensures forall i :: |s| - Trail(s) <= i < |s| ==> IsSpace(s[i])
    ensures Trail(s) < |s| ==> !IsSpace(s[|s| - Trail(s) - 1])
  {
    if s != "" && IsSpace(s[|s| - 1]) {
      TrailSpec(s[..|s| - 1]);
    }
  }

  function LStrip(s: string): string { s[Lead(s)..] }

  function RStrip(s: string): string { s[..|s| - Trail(s)] }

  function Strip(s: string): string { RStrip(LStrip(s)) }

  lemma RStripShorter(s: string)
    ensures |RStrip(s)| <= |s| && |Strip(s)| <= |s|
  {
  }

  lemma {:induction false} BlankStrips(s: string)
    requires Blank(s)
    ensures Lead(s) == |s| == Trail(s) && Strip(s) == ""
  {
    LeadSpec(s);
    TrailSpec(s);
    assert LStrip(s) == "";
  }

  lemma {:induction false} TrailUnique(s: string, n: nat)
    requires n < |s| && (forall i :: |s| - n <= i < |s| ==> IsSpace(s[i])) && !IsSpace(s[|s| - n - 1])
    ensures Trail(s) == n
  {
    if n > 0 {
      TrailUnique(s[..|s| - 1], n - 1);
    }
  }

  lemma {:induction false} TrailOfSuffix(s: string, l: nat)
    requires l + Trail(s) < |s|
    ensures Trail(s[l..]) == Trail(s)
  {
    hide IsSpace, Trail;
    var u, t := s[l..], Trail(s);
    TrailSpec(s);
    assert forall j :: 0 <= j < |u| ==> u[j] == s[l + j];
    TrailUnique(u, t);
  }

  lemma {:induction false} NotAllSpace(s: string)
    requires !Blank(s)
    ensures Lead(s) + Trail(s) < |s|
  {
    var i :| 0 <= i < |s| && !IsSpace(s[i]);
    LeadSpec(s);
    TrailSpec(s);
    assert Lead(s) <= i < |s| - Trail(s);
  }

  /** Trimming a text that is not blank keeps its part from the first to the last
      character that is not whitespace. */
  lemma {:induction false} StripSlice(s: string)
    requires !Blank(s)
    ensures Lead(s) + Trail(s) < |s|
    ensures Strip(s) == s[Lead(s)..|s| - Trail(s)]
    ensures !IsSpace(s[Lead(s)]) && !IsSpace(s[|s| - Trail(s) - 1])
  {
    hide IsSpace, Lead, Trail;
    NotAllSpace(s);
    LeadSpec(s);
    TrailSpec(s);
    TrailOfSuffix(s, Lead(s));
  }

  /** A character that is not whitespace survives the trimming. */
  lemma {:induction false} TrimKeeps(s: string, i: nat)
    requires i < |s| && !IsSpace(s[i])
    ensures Lead(s) <= i < |s| - Trail(s)
    ensures Strip(s) == s[Lead(s)..|s| - Trail(s)]
    ensures !IsSpace(s[Lead(s)]) && !IsSpace(s[|s| - Trail(s) - 1])
  {
    StripSlice(s);
    LeadSpec(s);
    TrailSpec(s);
  }

  /** A text that neither begins nor ends with whitespace stays as it is. */
  lemma SolidStrips(s: string)
    requires s != "" && !IsSpace(s[0]) && !IsSpace(s[|s| - 1])
    ensures Strip(s) == s
  {
    StripSlice(s);
    LeadSpec(s);
    TrailSpec(s);
  }

  lemma StripEmptyIffBlank(s: string)
    ensures Strip(s) == "" <==> Blank(s)
  {
    if Blank(s) {
      BlankStrips(s);
    } else {
      StripSlice(s);
    }
  }

  /** Code-point order on text, as in sorting strings. */
  predicate TextAtMost(a: string, b: string) {
    a == "" || (b != "" && (a[0] < b[0] || (a[0] == b[0] && TextAtMost(a[1..], b[1..]))))
  }

  lemma {:induction false} TextTotal(a: string, b: string)
    ensures TextAtMost(a, b) || TextAtMost(b, a)
  {
    if a != "" && b != "" && a[0] == b[0] {
      TextTotal(a[1..], b[1..]);
    }
  }

  lemma {:induction false} TextTransitive(a: string, b: string, c: string)
    requires TextAtMost(a, b) && TextAtMost(b, c)
    ensures TextAtMost(a, c)
  {
    if a != "" && b != "" && c != "" && a[0] == b[0] == c[0] {
      TextTransitive(a[1..], b[1..], c[1..]);
    }
  }

  lemma {:induction false} TextAntisymmetric(a: string, b: string)
    requires TextAtMost(a, b) && TextAtMost(b, a)
    ensures a == b
  {
    if a != "" {
      TextAntisymmetric(a[1..], b[1..]);
      assert a == [a[0]] + a[1..] && b == [b[0]] + b[1..];
    }
  }

  /** Shorter first when one begins like the other, otherwise by the first character that differs. */
  ghost predicate TextBefore(a: string, b: string) {
    || a < b
    || exists p :: 0 <= p < |a| && p < |b| && a[..p] == b[..p] && a[p] < b[p]
  }

  lemma {:induction false} TextBeforeIff(a: string, b: string)
    ensures TextBefore(a, b) <==> TextAtMost(a, b) && a != b
  {
    if a != "" && b != "" {
      var x, y := a[1..], b[1..];
      assert a == [a[0]] + x && b == [b[0]] + y;
      TextBeforeIff(x, y);
      if a[0] == b[0] {
        BeforeInside(a, b);
      } else if a[0] < b[0] {
        assert a[..0] == b[..0];
      }
      if TextBefore(a, b) && !(a < b) {
        var p :| 0 <= p < |a| && p < |b| && a[..p] == b[..p] && a[p] < b[p];
        assert p > 0 ==> a[..p][0] == b[..p][0];
      }
    }
  }

  lemma BeforeInside(a: string, b: string)
    requires a != "" && b != "" && a[0] == b[0]
    ensures TextBefore(a, b) <==> TextBefore(a[1..], b[1..])
  {
    var x, y := a[1..], b[1..];
    if p :| 0 <= p < |x| && p < |y| && x[..p] == y[..p] && x[p] < y[p] {
      assert a[..p + 1] == [a[0]] + x[..p] && b[..p + 1] == [b[0]] + y[..p] && a[p + 1] < b[p + 1];
    }
    if p :| 0 <= p < |a| && p < |b| && a[..p] == b[..p] && a[p] < b[p] {
      assert p > 0;
      assert x[..p - 1] == a[..p][1..] && y[..p - 1] == b[..p][1..] && x[p - 1] < y[p - 1];
    }
    assert a < b <==> x < y by {
      assert a == [a[0]] + x && b == [b[0]] + y;
      if x < y {
        assert y[..|x|] == x && b[..|a|] == a;
      }
      if a < b {
        assert b[..|a|] == a && y[..|x|] == a[1..];
      }
    }
  }
}
