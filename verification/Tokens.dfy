/** The dependency-free token estimate. */
module Tokens {
  import opened Texts
  import opened Rounding

  /** What counts as a word character is a parameter; no whitespace does. */
  ghost predicate Sane(isWord: char -> bool) {
    forall c :: isWord(c) ==> !IsSpace(c)
  }

  /** Length of the run of word characters at the beginning. */
  function WordRun(s: string, isWord: char -> bool): (n: nat)
    ensures n <= |s| && (s != "" && isWord(s[0]) ==> n > 0)
  {
    if s == "" || !isWord(s[0]) then 0 else WordRun(s[1..], isWord) + 1
  }

  /** Number of tokens: runs of word characters, and single characters that are neither
      word characters nor whitespace. */
  function TokenCount(s: string, isWord: char -> bool): nat
    decreases |s|
  {
    if s == "" then 0
    else if isWord(s[0]) then 1 + TokenCount(s[WordRun(s, isWord)..], isWord)
    else if IsSpace(s[0]) then TokenCount(s[1..], isWord)
    else 1 + TokenCount(s[1..], isWord)
  }

  function ApproxTokens(text: string, isWord: char -> bool): nat {
    if Strip(text) == "" then 0
    else
      var n := Tenths(13 * TokenCount(text, isWord));
      if n < 1 then 1 else n
  }

  // ---------------------------------------------------------------- cutting at whitespace

  /** No word runs across the cut. */
  predicate CleanCut(a: string, b: string) {
    a == "" || b == "" || IsSpace(a[|a| - 1]) || IsSpace(b[0])
  }

  lemma {:induction false} WordRunStops(a: string, b: string, isWord: char -> bool)
    requires Sane(isWord) && CleanCut(a, b) && a != ""
    ensures WordRun(a + b, isWord) == WordRun(a, isWord)
  {
    if isWord(a[0]) {
      assert (a + b)[1..] == a[1..] + b;
      if |a| == 1 {
        assert a[1..] + b == b;
      } else {
        WordRunStops(a[1..], b, isWord);
      }
    }
  }

  /** Counting tokens is exactly additive at a cut beside whitespace. */
  lemma {:induction false} TokensAdd(a: string, b: string, isWord: char -> bool)
    requires Sane(isWord) && CleanCut(a, b)
    ensures TokenCount(a + b, isWord) == TokenCount(a, isWord) + TokenCount(b, isWord)
    decreases |a|
  {
    if a == "" {
      assert a + b == b;
    } else {
      var n := if isWord(a[0]) then WordRun(a, isWord) else 1;
      WordRunStops(a, b, isWord);
      assert (a + b)[n..] == a[n..] + b;
      TokensAdd(a[n..], b, isWord);
    }
  }

  lemma {:induction false} SpacesHaveNone(s: string, isWord: char -> bool)
    requires Sane(isWord) && Blank(s)
    ensures TokenCount(s, isWord) == 0
  {
    if s != "" {
      SpacesHaveNone(s[1..], isWord);
    }
  }

  lemma {:induction false} TextHasSome(s: string, isWord: char -> bool)
    requires !Blank(s)
    ensures TokenCount(s, isWord) > 0
    decreases |s|
  {
    if IsSpace(s[0]) && !isWord(s[0]) {
      assert !Blank(s[1..]);
      TextHasSome(s[1..], isWord);
    }
  }

  /** Trimming loses no token. */
  lemma {:induction false} TrimmingKeepsTokens(s: string, isWord: char -> bool)
    requires Sane(isWord)
    ensures TokenCount(Strip(s), isWord) == TokenCount(s, isWord)
  {
    hide Lead, Trail, IsSpace;
    if Blank(s) {
      BlankStrips(s);
      SpacesHaveNone(s, isWord);
    } else {
      StripSlice(s);
      LeadSpec(s);
      TrailSpec(s);
      var lead, core, trail := s[..Lead(s)], Strip(s), s[|s| - Trail(s)..];
      assert s == lead + core + trail;
      TokensAdd(lead + core, trail, isWord);
      TokensAdd(lead, core, isWord);
      SpacesHaveNone(lead, isWord);
      SpacesHaveNone(trail, isWord);
    }
  }

  // ---------------------------------------------------------------- the overshoot of a packed text

  function TotalTokens(parts: seq<string>, isWord: char -> bool): nat {
    if parts == [] then 0
    else TotalTokens(parts[..|parts| - 1], isWord) + TokenCount(parts[|parts| - 1], isWord)
  }

  function TotalEstimate(parts: seq<string>, count: string -> nat): nat {
    if parts == [] then 0
    else TotalEstimate(parts[..|parts| - 1], count) + count(parts[|parts| - 1])
  }

  ghost predicate Approximates(count: string -> nat, isWord: char -> bool) {
    Sane(isWord) && forall s :: count(s) == ApproxTokens(s, isWord)
  }

  /** The estimate never falls short of the number of tokens. */
  lemma {:induction false} EstimateCoversTokens(s: string, isWord: char -> bool)
    requires Sane(isWord)
    ensures TokenCount(s, isWord) <= ApproxTokens(s, isWord)
  {
    StripEmptyIffBlank(s);
    if Blank(s) {
      SpacesHaveNone(s, isWord);
    }
  }

  lemma {:induction false} TotalsCompare(parts: seq<string>, count: string -> nat, isWord: char -> bool)
    requires Approximates(count, isWord)
    ensures TotalTokens(parts, isWord) <= TotalEstimate(parts, count)
  {
    if parts != [] {
      TotalsCompare(parts[..|parts| - 1], count, isWord);
      EstimateCoversTokens(parts[|parts| - 1], isWord);
    }
  }

  /** Parts packed while their estimates sum to at most `target` make a text whose own
      estimate is at most `target` and thirty per cent, rounded. */
  lemma {:induction false} PackedOvershoot(parts: seq<string>, whole: string, target: nat, count: string -> nat,
                                           isWord: char -> bool)
    requires Approximates(count, isWord)
    requires TokenCount(whole, isWord) == TotalTokens(parts, isWord) && TotalEstimate(parts, count) <= target
    ensures count(whole) <= Tenths(13 * target)
  {
    TotalsCompare(parts, count, isWord);
    StripEmptyIffBlank(whole);
    if !Blank(whole) {
      TextHasSome(whole, isWord);
      TenthsAscend(13 * TokenCount(whole, isWord), 13 * target);
    }
  }
}
