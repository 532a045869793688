/** How the window of the fixed strategy compares with the largest one that fits: it grows on
    an estimate and scales back in proportion, so it can stop short. */
module LargestWindows {
  import opened Texts
  import opened Rounding
  import opened Tokens
  import opened FixedWindows

  // ---------------------------------------------------------------- the largest window

  /** The furthest end up to `k` at which the words from `i` on still fit, or the first word's. */
  function FurthestFit(t: Text, i: nat, target: int, k: nat): (r: nat)
    requires t.Valid() && i < k <= |t.words|
    ensures i < r <= k && (r == i + 1 || t.Actual(i, r) <= target)
    ensures forall e :: r < e <= k ==> t.Actual(i, e) > target
    decreases k
  {
    if k == i + 1 || t.Actual(i, k) <= target then k else FurthestFit(t, i, target, k - 1)
  }

  /** End of the largest window that fits by the real counter. */
  function LargestEnd(t: Text, i: nat, target: int): nat
    requires t.Valid() && i < |t.words|
  {
    FurthestFit(t, i, target, |t.words|)
  }

  lemma LargestIsUnique(t: Text, i: nat, target: int, e: nat)
    requires t.Valid() && i < e <= |t.words|
    requires (e == i + 1 || t.Actual(i, e) <= target) && forall k :: e < k <= |t.words| ==> t.Actual(i, k) > target
    ensures LargestEnd(t, i, target) == e
  {
    hide WordsOk;
    LargestFits(t, i, target);
  }

  // ---------------------------------------------------------------- any counter

  /** The window the estimate allows, at least one word. */
  function FirstGuess(t: Text, i: nat, target: int): (j: nat)
    requires t.Valid() && i < |t.words|
    ensures i < j <= |t.words|
  {
    var j := Estimated(t.costs, i, 0, target);
    if j == i then i + 1 else j
  }

  /** Scaling back from `j` in proportion, again and again, comes past `e`. */
  ghost predicate ScalesTo(t: Text, i: nat, j: nat, target: int, e: nat)
    requires t.Valid() && i < j <= |t.words|
    decreases j
  {
    || e == j
    || (j > i + 1 && target >= 0 && t.Actual(i, j) > 0
        && ScalesTo(t, i, i + ScaledBack(j - i, target, t.Actual(i, j)), target, e))
  }

  lemma {:induction false} ScalesDown(t: Text, i: nat, j: nat, target: int, e: nat)
    requires t.Valid() && i < j <= |t.words| && ScalesTo(t, i, j, target, e)
    ensures i < e <= j
    decreases j
  {
    hide WordsOk, ScaledBack;
    if e != j {
      ScalesDown(t, i, i + ScaledBack(j - i, target, t.Actual(i, j)), target, e);
    }
  }

  lemma {:induction false} ShrunkIsLargestIff(t: Text, i: nat, j: nat, target: nat)
    requires t.Valid() && i < j <= |t.words|
    ensures Shrunk(t, i, j, target) == LargestEnd(t, i, target) <==> ScalesTo(t, i, j, target, LargestEnd(t, i, target))
    decreases j
  {
    hide WordsOk, ScaledBack, LargestEnd;
    var largest := LargestEnd(t, i, target);
    LargestFits(t, i, target);
    if j == i + 1 || t.Actual(i, j) <= target {
      if ScalesTo(t, i, j, target, largest) {
        ScalesDown(t, i, j, target, largest);
      }
    } else {
      ShrunkIsLargestIff(t, i, i + ScaledBack(j - i, target, t.Actual(i, j)), target);
    }
  }

  lemma LargestFits(t: Text, i: nat, target: int)
    requires t.Valid() && i < |t.words|
    ensures var e := LargestEnd(t, i, target);
      && i < e <= |t.words| && (e == i + 1 || t.Actual(i, e) <= target)
      && forall k :: e < k <= |t.words| ==> t.Actual(i, k) > target
  {
    hide WordsOk;
  }

  /** For every counter: the window is the largest that fits if and only if scaling the first
      guess back in proportion comes past the end of the largest. */
  lemma WindowIsLargestIff(t: Text, i: nat, target: int)
    requires t.Valid() && i < |t.words|
    ensures WindowEnd(t, i, target) == LargestEnd(t, i, target)
       <==> ScalesTo(t, i, FirstGuess(t, i, target), target, LargestEnd(t, i, target))
  {
    hide WordsOk, LargestEnd, Shrunk;
    EstimateNeedsBudget(t.costs, i, target);
    if Estimated(t.costs, i, 0, target) > i {
      ShrunkIsLargestIff(t, i, FirstGuess(t, i, target), target);
    }
  }

  // ---------------------------------------------------------------- the default counter

  lemma TenthsAtMost(x: nat, t: nat)
    ensures Tenths(x) <= t <==> x <= 10 * t + 4 || (x == 10 * t + 5 && t % 2 == 0)
    ensures x <= 10 * Tenths(x) + 5 && 10 * Tenths(x) <= x + 5
  {
  }

  /** One step back is enough: scaled in proportion, words of one token each fit. */
  lemma OneStepFits(n: nat, target: nat)
    requires n <= target < Tenths(13 * n)
    ensures var g := n * target / Tenths(13 * n);
      0 < g < n && Tenths(13 * g) <= target
  {
    hide Tenths;
    var actual := Tenths(13 * n);
    TenthsAtMost(13 * n, target);
    TenthsAtMost(13 * n, actual);
    assert n >= 2;
    TwiceAtLeast(n, target);
    Quotient(n * target, actual);
    var g := n * target / actual;
    QuotientBelow(n, target, actual);
    TenthsAtMost(13 * g, target);
    ScaledStaysBelow(n, target, actual, g);
  }

  lemma TwiceAtLeast(n: nat, target: nat)
    requires 2 <= n <= target
    ensures 2 * n <= n * target
  {
  }

  lemma Quotient(a: nat, b: nat)
    requires b > 0
    ensures (a / b) * b <= a && (a >= b ==> a / b > 0)
  {
  }

  lemma QuotientBelow(n: nat, target: nat, actual: nat)
    requires target < actual && n > 0
    ensures n * target / actual < n
  {
    var g := n * target / actual;
    Quotient(n * target, actual);
    assert (g - n) * actual == g * actual - n * actual;
    assert n * target < n * actual;
  }

  lemma Scaled(a: nat, b: nat, c: nat)
    requires a <= b
    ensures a * c <= b * c
  {
  }

  lemma Cancel(a: int, b: int, c: nat)
    requires a * c < b * c
    ensures a < b
  {
  }

  lemma ProductsApart(u: nat, v: nat, b: nat)
    requires 5 <= u <= v && v - 5 <= b && u + 5 <= b
    ensures (u - 5) * v < b * u
  {
    assert (u - 5) * v == u * v - 5 * v;
    if u == v {
      Scaled(u + 5, b, u);
      assert (u + 5) * u == u * u + 5 * u;
    } else {
      Scaled(v - 5, b, u);
      assert (v - 5) * u == u * v - 5 * u;
    }
  }

  lemma ScaledStaysBelow(n: nat, target: nat, actual: nat, g: nat)
    requires 13 * n <= 10 * actual + 5 && actual > target && 13 * n >= 10 * target + 5
    requires g * actual <= n * target
    ensures 13 * g < 10 * target + 5
  {
    var u := 10 * target + 5;
    ProductsApart(u, 13 * n, 10 * actual);
    assert (u - 5) * (13 * n) == 130 * (n * target);
    assert (10 * actual) * u == 10 * (u * actual);
    assert (13 * g) * actual == 13 * (g * actual);
    Cancel(13 * g, u, actual);
  }

  /** A word ends where whitespace follows. */
  lemma {:induction false} SpaceFollows(doc: string, i: nat, k: nat)
    requires i <= |doc| && k < |Words(doc, i)|
    ensures Words(doc, i)[k].1 <= |doc| && (Words(doc, i)[k].1 < |doc| ==> IsSpace(doc[Words(doc, i)[k].1]))
    decreases |doc| - i
  {
    hide IsSpace;
    if k > 0 {
      SpaceFollows(doc, SkipWord(doc, SkipSpace(doc, i)), k - 1);
    }
  }

  /** Between two words there is whitespace, and nothing else. */
  lemma GapIsBlank(doc: string, k: nat)
    requires k + 1 < |Words(doc, 0)|
    ensures var words := Words(doc, 0);
      words[k].1 < words[k + 1].0 <= |doc| && Blank(doc[words[k].1..words[k + 1].0])
  {
    hide IsSpace, Words;
    var words := Words(doc, 0);
    WordsAreOk(doc, 0);
    SpaceFollows(doc, 0, k);
    forall p | words[k].1 <= p < words[k + 1].0 ensures IsSpace(doc[p]) {
      if !IsSpace(doc[p]) {
        var other := WordAt(doc, 0, p);
      }
    }
  }

  /** Every word from `i` on is a single token. */
  ghost predicate OneTokenEach(doc: string, i: nat, isWord: char -> bool) {
    WordsAreOk(doc, 0);
    forall k :: i <= k < |Words(doc, 0)| ==> TokenCount(doc[Words(doc, 0)[k].0..Words(doc, 0)[k].1], isWord) == 1
  }

  lemma TokensInThree(a: string, gap: string, b: string, isWord: char -> bool)
    requires Sane(isWord) && gap != "" && Blank(gap)
    ensures TokenCount(a + gap + b, isWord) == TokenCount(a, isWord) + TokenCount(b, isWord)
  {
    hide TokenCount, IsSpace;
    assert gap[0] == gap[0] && IsSpace(gap[|gap| - 1]);
    assert (a + gap)[|a + gap| - 1] == gap[|gap| - 1];
    TokensAdd(a + gap, b, isWord);
    TokensAdd(a, gap, isWord);
    SpacesHaveNone(gap, isWord);
  }

  lemma {:induction false} WindowTokens(doc: string, i: nat, j: nat, isWord: char -> bool)
    requires Sane(isWord) && OneTokenEach(doc, i, isWord) && i < j <= |Words(doc, 0)|
    ensures var words := Words(doc, 0);
      words[i].0 <= words[j - 1].1 <= |doc| && TokenCount(doc[words[i].0..words[j - 1].1], isWord) == j - i
  {
    hide IsSpace, Words, TokenCount, Blank;
    var words := Words(doc, 0);
    WordsAreOk(doc, 0);
    if j > i + 1 {
      WindowTokens(doc, i, j - 1, isWord);
      GapIsBlank(doc, j - 2);
      var a, gap, b := doc[words[i].0..words[j - 2].1], doc[words[j - 2].1..words[j - 1].0],
                       doc[words[j - 1].0..words[j - 1].1];
      assert doc[words[i].0..words[j - 1].1] == a + gap + b;
      TokensInThree(a, gap, b, isWord);
    }
  }

  /** A document cut with the default counter, of one token a word from word `i` on. */
  ghost predicate Ones(t: Text, i: nat, count: string -> nat, isWord: char -> bool) {
    t == Cut(t.doc, count) && Approximates(count, isWord) && OneTokenEach(t.doc, i, isWord)
  }

  /** What the default counter makes of words of one token each. */
  lemma WindowCounts(t: Text, i: nat, j: nat, count: string -> nat, isWord: char -> bool)
    requires t.Valid() && Ones(t, i, count, isWord) && i < j <= |t.words|
    ensures t.Actual(i, j) == Tenths(13 * (j - i)) >= 1
  {
    hide IsSpace, Words, TokenCount, OneTokenEach, WordsOk, Tenths;
    WindowTokens(t.doc, i, j, isWord);
    ReachIsTrimmed(t, i, j);
    ReachIsIn(t, i, j);
    TenthsAscend(13, 13 * (j - i));
    TenthsAtMost(13, 0);
  }

  /** The estimate allows one word a token. */
  lemma {:induction false} EstimateOfOnes(costs: seq<nat>, j: nat, spent: nat, target: int)
    requires j <= |costs| && spent <= target && forall k :: j <= k < |costs| ==> costs[k] == 1
    ensures Estimated(costs, j, spent, target)
       == j + if |costs| - j <= target - spent then |costs| - j else target - spent
    decreases |costs| - j
  {
    if j < |costs| && spent + costs[j] <= target {
      EstimateOfOnes(costs, j + 1, spent + 1, target);
    }
  }

  /** `n` words that count `actual`, scaled back in proportion. */
  function Proportion(n: nat, target: nat, actual: nat): nat
    requires actual > 0
  {
    var product: nat := n * target;
    product / actual
  }

  /** How many of `left` words of one token each the window takes. */
  function OneTokenSpan(left: nat, target: int): nat
    requires left > 0
  {
    if target < 1 then 1
    else
      var n: nat := if left <= target then left else target;
      if Tenths(13 * n) <= target then n else Proportion(n, target, Tenths(13 * n))
  }

  /** Whether that is as many as fit: nothing is scaled back, or one word more would not fit. */
  predicate TakesAllThatFit(left: nat, target: int)
    requires left > 0
  {
    var n := if left <= target then left else target;
    target < 1 || Tenths(13 * n) <= target || Tenths(13 * (OneTokenSpan(left, target) + 1)) > target
  }

  lemma SpanFits(left: nat, target: int)
    requires left > 0
    ensures var g := OneTokenSpan(left, target);
      && 0 < g <= left && (g == 1 || Tenths(13 * g) <= target)
      && (g < left && TakesAllThatFit(left, target) ==> target < 1 || Tenths(13 * (g + 1)) > target)
  {
    var n := if left <= target then left else target;
    if target >= 1 {
      if Tenths(13 * n) > target {
        OneStepFits(n, target);
      } else {
        TenthsAtMost(13 * n, target);
        TenthsAtMost(13 * (n + 1), target);
      }
    }
  }

  /** The estimate allows as many words as the target has tokens. */
  lemma GuessOfOnes(t: Text, i: nat, target: int, count: string -> nat, isWord: char -> bool)
    requires t.Valid() && Ones(t, i, count, isWord) && i < |t.words|
    ensures Estimated(t.costs, i, 0, target)
         == i + if target < 1 then 0 else if |t.words| - i <= target then |t.words| - i else target
  {
    hide WordsOk, Ones;
    forall k | i <= k < |t.words| ensures t.costs[k] == 1 {
      OneWordCosts(t, i, k, count, isWord);
    }
    if target >= 0 {
      EstimateOfOnes(t.costs, i, 0, target);
    }
  }

  lemma OneWordCosts(t: Text, i: nat, k: nat, count: string -> nat, isWord: char -> bool)
    requires t.Valid() && Ones(t, i, count, isWord) && i <= k < |t.words|
    ensures t.costs[k] == 1
  {
    hide IsSpace, Words, TokenCount;
    assert OneTokenEach(t.doc, k, isWord);
    WindowCounts(t, k, k + 1, count, isWord);
    TenthsAtMost(13, 1);
  }

  /** With the default counter, from a word on where all have one token, the window takes a
      number of words that depends on the target and the words left alone. */
  lemma OneTokenWindow(t: Text, i: nat, target: int, count: string -> nat, isWord: char -> bool)
    requires t.Valid() && Ones(t, i, count, isWord) && i < |t.words|
    ensures WindowEnd(t, i, target) == i + OneTokenSpan(|t.words| - i, target)
  {
    hide Ones, WordsOk, Tenths;
    var left := |t.words| - i;
    GuessOfOnes(t, i, target, count, isWord);
    if target >= 1 {
      var n := if left <= target then left else target;
      WindowCounts(t, i, i + n, count, isWord);
      if Tenths(13 * n) > target {
        OneStepBack(t, i, n, target, count, isWord);
      }
    }
  }

  lemma OneStepBack(t: Text, i: nat, n: nat, target: nat, count: string -> nat, isWord: char -> bool)
    requires t.Valid() && Ones(t, i, count, isWord) && 0 < n <= |t.words| - i && n <= target < Tenths(13 * n)
    ensures Shrunk(t, i, i + n, target) == i + n * target / Tenths(13 * n)
  {
    hide Ones, WordsOk, Tenths;
    OneStepFits(n, target);
    var g := n * target / Tenths(13 * n);
    WindowCounts(t, i, i + n, count, isWord);
    WindowCounts(t, i, i + g, count, isWord);
    assert ScaledBack(n, target, Tenths(13 * n)) == g;
    TenthsAtMost(13, 1);
    assert n != 1;
    assert Shrunk(t, i, i + g, target) == i + g;
  }

  /** And it is the largest window that fits if and only if nothing had to be scaled back or one
      word more would not fit. */
  lemma OneTokenLargestIff(t: Text, i: nat, target: int, count: string -> nat, isWord: char -> bool)
    requires t.Valid() && Ones(t, i, count, isWord) && i < |t.words|
    ensures WindowEnd(t, i, target) == LargestEnd(t, i, target) <==> TakesAllThatFit(|t.words| - i, target)
  {
    hide Ones, WordsOk, Tenths, Estimated, Shrunk, WindowEnd, LargestEnd;
    var left := |t.words| - i;
    var g := OneTokenSpan(left, target);
    OneTokenWindow(t, i, target, count, isWord);
    SpanFits(left, target);
    WindowCounts(t, i, i + g, count, isWord);
    if TakesAllThatFit(left, target) {
      forall k | i + g < k <= |t.words| ensures t.Actual(i, k) > target {
        WindowCounts(t, i, k, count, isWord);
        TenthsAscend(13 * (g + 1), 13 * (k - i));
      }
      LargestIsUnique(t, i, target, i + g);
    } else {
      OneStepFits(if left <= target then left else target, target);
      WindowCounts(t, i, i + g + 1, count, isWord);
      LargestFits(t, i, target);
    }
  }

  // ---------------------------------------------------------------- where it stops short

  /** `n` one-letter words. */
  function Letters(n: nat): string
    requires n > 0
  {
    seq(2 * n - 1, p => if p % 2 == 0 then 'a' else ' ')
  }

  lemma {:induction false} LetterWords(n: nat, k: nat)
    requires 0 < n && k < n
    ensures |Words(Letters(n), 2 * k)| == n - k
    ensures forall j :: 0 <= j < n - k ==> Words(Letters(n), 2 * k)[j] == (2 * (k + j), 2 * (k + j) + 1)
    decreases n - k
  {
    hide Words;
    NextLetterWord(n, k);
    if k + 1 < n {
      LetterWords(n, k + 1);
    }
  }

  lemma NextLetterWord(n: nat, k: nat)
    requires k < n
    ensures 2 * k <= |Letters(n)|
    ensures Words(Letters(n), 2 * k) == [(2 * k, 2 * k + 1)] + if k + 1 < n then Words(Letters(n), 2 * k + 2) else []
  {
    hide IsSpace, SkipSpace, SkipWord, Letters;
    LetterSkips(n, k);
    if k + 1 < n {
      LetterSkips(n, k + 1);
      assert Words(Letters(n), 2 * k + 1) == Words(Letters(n), 2 * k + 2);
    }
  }

  lemma LetterSkips(n: nat, k: nat)
    requires k < n
    ensures var doc := Letters(n);
      && |doc| == 2 * n - 1 && SkipSpace(doc, 2 * k) == 2 * k && SkipWord(doc, 2 * k) == 2 * k + 1
      && SkipSpace(doc, 2 * k + 1) == if k + 1 < n then 2 * k + 2 else |doc|
  {
    var doc := Letters(n);
    assert doc[2 * k] == 'a';
    if k + 1 < n {
      assert doc[2 * k + 1] == ' ' && doc[2 * k + 2] == 'a';
      assert SkipSpace(doc, 2 * k + 2) == 2 * k + 2;
    }
  }

  lemma LettersAreOnes(n: nat, count: string -> nat, isWord: char -> bool)
    requires 0 < n && Approximates(count, isWord)
    ensures var t := Cut(Letters(n), count); Ones(t, 0, count, isWord) && |t.words| == n
  {
    hide Words, IsSpace;
    LetterWords(n, 0);
    var doc := Letters(n);
    forall k | 0 <= k < n ensures TokenCount(doc[Words(doc, 0)[k].0..Words(doc, 0)[k].1], isWord) == 1 {
      assert doc[2 * k..2 * k + 1] == "a";
      LetterIsToken(isWord);
    }
    WordsAreOk(doc, 0);
  }

  lemma LetterIsToken(isWord: char -> bool)
    ensures TokenCount("a", isWord) == 1
  {
  }

  const DEFAULT_TARGET: nat := 512

  /** With the default counter and target, of one-letter words 393 are taken where 394 fit. */
  lemma DefaultStopsShort(n: nat, count: string -> nat, isWord: char -> bool)
    requires n >= DEFAULT_TARGET && Approximates(count, isWord)
    ensures var t := Cut(Letters(n), count);
      && |t.words| == n && WindowEnd(t, 0, DEFAULT_TARGET) == 393
      && t.Actual(0, 394) <= DEFAULT_TARGET && LargestEnd(t, 0, DEFAULT_TARGET) != 393
  {
    hide Words, WindowEnd, LargestEnd, Ones, Approximates, WordsOk, Letters, OneTokenSpan, TakesAllThatFit;
    LettersAreOnes(n, count, isWord);
    var t := Cut(Letters(n), count);
    AtDefault(n);
    OneTokenWindow(t, 0, DEFAULT_TARGET, count, isWord);
    OneTokenLargestIff(t, 0, DEFAULT_TARGET, count, isWord);
    WindowCounts(t, 0, 394, count, isWord);
  }

  lemma AtDefault(left: nat)
    requires left >= DEFAULT_TARGET
    ensures OneTokenSpan(left, DEFAULT_TARGET) == 393 && !TakesAllThatFit(left, DEFAULT_TARGET)
    ensures Tenths(13 * 394) == DEFAULT_TARGET
  {
    hide Tenths, Proportion;
    TenthsAtDefault();
    ProportionAtDefault();
  }

  lemma TenthsAtDefault()
    ensures Tenths(13 * DEFAULT_TARGET) == 666 && Tenths(13 * 394) == DEFAULT_TARGET
  {
  }

  lemma ProportionAtDefault()
    ensures Proportion(DEFAULT_TARGET, DEFAULT_TARGET, 666) == 393
  {
    assert DEFAULT_TARGET * DEFAULT_TARGET == 262144;
  }
}
