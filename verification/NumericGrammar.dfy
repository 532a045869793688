/** Which texts read as a number, and as which: the grammar that the parser's peeling amounts to. */
module NumericGrammar {
  import opened Wrappers
  import opened Texts
  import opened Digits
  import opened Numeric
  import opened NumericRoundTrip

  // ---------------------------------------------------------------- the grammar

  /** The parts of a text that reads as a number, one after the other; `kernel` holds the digits. */
  datatype Parts = Parts(outer: string, opens: string, sign: string, inner: string, kernel: string,
                         tail: string, closes: string, unit: string)

  /** Sign, currency, digits and currency. */
  function Signed(p: Parts): string {
    p.sign + p.inner + p.kernel + p.tail
  }

  function Whole(p: Parts): string {
    p.outer + p.opens + Signed(p) + p.closes + p.unit
  }

  /** Nothing but the bracket and whitespace. */
  ghost predicate Filled(s: string, bracket: char) {
    forall i :: 0 <= i < |s| ==> s[i] == bracket || IsSpace(s[i])
  }

  /** A plus or a minus and any whitespace, or nothing. */
  ghost predicate SignPart(s: string) {
    s == "" || (s[0] in "+-" && forall i :: 0 < i < |s| ==> IsSpace(s[i]))
  }

  /** Currency and spaces around as many parentheses as close again, in them a sign, currency and
      spaces, digits with commas and spaces in them and perhaps an `x` at the end, currency and
      spaces; then perhaps a percent sign or basis points. */
  ghost predicate Reads(p: Parts, times: string, d: Decimal) {
    && d.Valid() && times in ["", "x", "X"] && IsUnit(p.unit)
    && Among(p.outer, SYMBOLS + " ") && Among(p.inner, SYMBOLS + " ") && Among(p.tail, SYMBOLS + " ")
    && Filled(p.opens, '(') && (p.opens == "" || p.opens[0] == '(') && Filled(p.closes, ')')
    && multiset(p.opens)['('] == multiset(p.closes)[')']
    && SignPart(p.sign)
    && p.kernel != "" && p.kernel[0] !in SYMBOLS + " " && p.kernel[|p.kernel| - 1] !in SYMBOLS + " "
    && Without(Without(p.kernel, ','), ' ') == Numeral(d) + times
  }

  /** Each pair of parentheses turns the sign, and so does a minus. */
  predicate IsNegative(p: Parts) {
    (multiset(p.opens)['('] % 2 == 1) != (p.sign != "" && p.sign[0] == '-')
  }

  /** Numerals are just digits with at most one point, at least one digit among them. */
  lemma NumeralIff(s: string)
    ensures IsNumeral(s) <==> exists d: Decimal :: d.Valid() && Numeral(d) == s
  {
    if IsNumeral(s) {
      var p := PointAt(s);
      var d := if p == |s| then Decimal(s, false, "") else Decimal(s[..p], true, s[p + 1..]);
      PointStands(s);
      assert p == |s| ==> s[..p] == s;
      assert d.Valid() && Numeral(d) == s;
    }
    if d: Decimal :| d.Valid() && Numeral(d) == s {
      NumeralReads(d);
    }
  }

  lemma {:induction false} PointStands(s: string)
    ensures PointAt(s) < |s| ==> s[PointAt(s)] == '.'
  {
    if s != "" && s[0] != '.' {
      PointStands(s[1..]);
    }
  }

  // ---------------------------------------------------------------- taking texts apart

  lemma {:induction false} DropLeftSplits(s: string, p: char -> bool) returns (a: string)
    ensures s == a + DropLeft(s, p) && All(a, p)
    ensures DropLeft(s, p) == "" || !p(DropLeft(s, p)[0])
  {
    if s != "" && p(s[0]) {
      var rest := DropLeftSplits(s[1..], p);
      assert s == [s[0]] + s[1..] && DropLeft(s, p) == DropLeft(s[1..], p);
      hide DropLeft;
      a := [s[0]] + rest;
    } else {
      a := "";
    }
  }

  lemma {:induction false} DropRightSplits(s: string, p: char -> bool) returns (b: string)
    ensures s == DropRight(s, p) + b && All(b, p)
    ensures DropRight(s, p) == "" || !p(DropRight(s, p)[|DropRight(s, p)| - 1])
  {
    if s != "" && p(s[|s| - 1]) {
      var rest := DropRightSplits(s[..|s| - 1], p);
      assert s == s[..|s| - 1] + [s[|s| - 1]] && DropRight(s, p) == DropRight(s[..|s| - 1], p);
      hide DropRight;
      b := rest + [s[|s| - 1]];
    } else {
      b := "";
    }
  }

  lemma StripSplits(s: string) returns (a: string, b: string)
    ensures s == a + Strip(s) + b && All(a, IsSpace) && All(b, IsSpace)
    ensures Strip(s) == "" || Solid(Strip(s))
  {
    hide Strip, Lead, Trail, IsSpace;
    if Blank(s) {
      BlankStrips(s);
      a, b := s, "";
    } else {
      StripSlice(s);
      LeadSpec(s);
      TrailSpec(s);
      a, b := s[..Lead(s)], s[|s| - Trail(s)..];
      assert s == s[..Lead(s)] + s[Lead(s)..|s| - Trail(s)] + s[|s| - Trail(s)..];
    }
  }

  /** Trimming takes whitespace off and stops at the first and last other character. */
  lemma StripAround(a: string, s: string, b: string)
    requires Solid(s) && All(a, IsSpace) && All(b, IsSpace)
    ensures Strip(a + s + b) == s
  {
    var t := a + s + b;
    hide IsSpace, Strip, Lead, Trail;
    assert !Blank(t) by {
      assert t[|a|] == s[0];
    }
    StripSlice(t);
    LeadSpec(t);
    TrailSpec(t);
    assert t[|a|] == s[0] && t[|a| + |s| - 1] == s[|s| - 1];
    assert forall i :: 0 <= i < |a| ==> t[i] == a[i];
    assert forall i :: 0 <= i < |b| ==> t[|a| + |s| + i] == b[i];
    assert Lead(t) == |a| && Trail(t) == |b|;
    assert t[|a|..|a| + |s|] == s;
  }

  lemma SpacesOnly(s: string, bracket: char)
    requires All(s, IsSpace) && bracket in "()+-"
    ensures Filled(s, bracket) && multiset(s)[bracket] == 0
  {
    assert bracket !in s;
  }

  lemma OneMoreOpen(a: string, opens: string)
    requires All(a, IsSpace) && Filled(opens, '(')
    ensures var more := "(" + a + opens;
      Filled(more, '(') && more[0] == '(' && multiset(more)['('] == multiset(opens)['('] + 1
  {
    SpacesOnly(a, '(');
  }

  lemma OneMoreClose(closes: string, b: string)
    requires All(b, IsSpace) && Filled(closes, ')')
    ensures var more := closes + b + ")";
      Filled(more, ')') && multiset(more)[')'] == multiset(closes)[')'] + 1
  {
    SpacesOnly(b, ')');
  }

  lemma WrappedSplits(w: string) returns (a: string, b: string)
    requires IsWrapped(w)
    ensures w == "(" + (a + Inner(w) + b) + ")" && All(a, IsSpace) && All(b, IsSpace)
  {
    var inside := w[1..|w| - 1];
    a, b := StripSplits(inside);
    assert w == "(" + inside + ")";
  }

  lemma {:induction false} UnwrapSplits(w: string) returns (opens: string, closes: string)
    ensures w == opens + Unwrapped(w) + closes && (opens == "" || opens[0] == '(')
    ensures Filled(opens, '(') && Filled(closes, ')') && multiset(opens)['('] == multiset(closes)[')']
    ensures Flipped(w) <==> multiset(opens)['('] % 2 == 1
    decreases |w|
  {
    hide Strip, IsSpace, Unwrapped, Flipped, Filled, All, Inner;
    if IsWrapped(w) {
      var a, b := WrappedSplits(w);
      opens, closes := UnwrapSplits(Inner(w));
      UnwrapOne(w, Inner(w));
      OneMoreOpen(a, opens);
      OneMoreClose(closes, b);
      WrapTogether(a, opens, Unwrapped(w), closes, b);
      opens, closes := "(" + a + opens, closes + b + ")";
    } else {
      NothingToUnwrap(w);
      opens, closes := "", "";
      NothingFilled();
    }
  }

  lemma NothingFilled()
    ensures Filled("", '(') && Filled("", ')')
  {
  }

  lemma WrapTogether(a: string, opens: string, s: string, closes: string, b: string)
    ensures "(" + (a + (opens + s + closes) + b) + ")" == ("(" + a + opens) + s + (closes + b + ")")
  {
  }

  // ---------------------------------------------------------------- from the text to its parts

  lemma UnitSplits(text: string) returns (front: string, unit: string)
    requires Solid(text)
    ensures text == front + unit && IsUnit(unit) && (EndsWith(text, "%") <==> unit == "%")
    ensures UnitOff(text) == Strip(front)
  {
    hide Lower, Strip, LowerChar;
    var low := Lower(text);
    var n := if EndsWith(text, "%") then 1 else if EndsWith(low, "bps") then 3
             else if EndsWith(low, "bp") then 2 else 0;
    front, unit := text[..|text| - n], text[|text| - n..];
    StripSolid(text);
    forall i | 0 <= i < n ensures unit[i] == text[|text| - n + i] && LowerChar(unit[i]) == low[|text| - n..][i] {
    }
    forall c: char
      ensures LowerChar(c) == 'b' ==> c in "bB"
      ensures LowerChar(c) == 'p' ==> c in "pP"
      ensures LowerChar(c) == 's' ==> c in "sS"
    {
      RaisedLetters(c);
    }
  }

  lemma RaisedLetters(c: char)
    ensures LowerChar(c) == 'b' ==> c in "bB"
    ensures LowerChar(c) == 'p' ==> c in "pP"
    ensures LowerChar(c) == 's' ==> c in "sS"
    ensures LowerChar(c) == 'x' ==> c in "xX"
  {
  }

  lemma SignSplits(s: string) returns (sign: string, b: string)
    ensures s == sign + SignOff(s) + b && SignPart(sign) && All(b, IsSpace)
    ensures HasSign(s, '-') <==> sign != "" && sign[0] == '-'
  {
    hide Strip, IsSpace;
    if HasSign(s, '-') || HasSign(s, '+') {
      var a;
      a, b := StripSplits(s[1..]);
      sign := s[..1] + a;
      assert s == s[..1] + (a + Strip(s[1..]) + b);
    } else {
      sign, b := "", "";
    }
  }

  lemma BareSplits(s: string) returns (inner: string, kernel: string, tail: string)
    requires Bare(s) != ""
    ensures s == inner + kernel + tail && All(inner, IsMoney) && All(tail, IsMoney)
    ensures kernel != "" && !IsMoney(kernel[0]) && !IsMoney(kernel[|kernel| - 1])
    ensures Bare(s) == Without(Without(kernel, ','), ' ')
  {
    hide IsMoney;
    inner := DropLeftSplits(s, IsMoney);
    var rest := DropLeft(s, IsMoney);
    tail := DropRightSplits(rest, IsMoney);
    kernel := DropRight(rest, IsMoney);
    assert kernel != "";
    assert kernel[0] == rest[0];
  }

  lemma TimesSplits(s: string) returns (times: string, d: Decimal)
    requires IsNumeral(MultipleOff(s))
    ensures d.Valid() && times in ["", "x", "X"] && s == Numeral(d) + times && MultipleOff(s) == Numeral(d)
  {
    NumeralIff(MultipleOff(s));
    d :| d.Valid() && Numeral(d) == MultipleOff(s);
    times := s[|MultipleOff(s)|..];
    if times != "" {
      RaisedLetters(s[|s| - 1]);
      assert times == [s[|s| - 1]];
    }
  }

  lemma MoneyIsSpelled(s: string)
    ensures All(s, IsMoney) <==> Among(s, SYMBOLS + " ")
  {
    hide IsMoney, IsCurrency;
    forall c ensures IsMoney(c) <==> c in SYMBOLS + " " {
      Classes(c);
    }
  }

  /** The number that the parts make. */
  function Amounting(p: Parts, d: Decimal, had: bool): Number
    requires d.Valid()
  {
    var n := d.Coefficient();
    var value := (if IsNegative(p) then Rounded(n) else n) as real / Pow10(|d.part|) as real;
    Number(if IsNegative(p) then -value else value, p.unit == "%", IsNegative(p), had)
  }

  /** The peeling, step by step. */
  lemma {:induction false} ReadSteps(text: string, had: bool)
    requires ReadValue(text, had).Some?
    ensures var wrapped := DropLeft(UnitOff(text), IsMoney);
      var signed := Unwrapped(wrapped);
      var bare := Bare(SignOff(signed));
      var negative := Flipped(wrapped) != HasSign(signed, '-');
      && bare != "" && IsNumeral(MultipleOff(bare))
      && ReadValue(text, had)
         == Some(Number(Amount(MultipleOff(bare), negative), EndsWith(text, "%"), negative, had))
  {
  }

  lemma NothingLeads(text: string, front: string, unit: string, lead: string, u: string, gap: string)
    requires Solid(text) && text == front + unit && front == lead + u + gap && u != "" && All(lead, IsSpace)
    ensures front == u + gap
  {
    FirstIsFirst(lead, u + gap + unit);
    assert text == lead + (u + gap + unit);
    hide IsSpace;
  }

  lemma FirstIsFirst(a: string, b: string)
    ensures a != "" ==> (a + b)[0] == a[0]
  {
  }

  lemma Gather(outer: string, opens: string, sign: string, inner: string, kernel: string, tail: string,
               after: string, closes: string, gap: string, unit: string)
    ensures outer + (opens + (sign + (inner + kernel + tail) + after) + closes) + gap + unit
      == outer + opens + (sign + inner + kernel + tail) + (after + closes + gap) + unit
  {
  }

  lemma ClosesFill(after: string, closes: string, gap: string)
    requires All(after, IsSpace) && Filled(closes, ')') && All(gap, IsSpace)
    ensures var all := after + closes + gap;
      Filled(all, ')') && multiset(all)[')'] == multiset(closes)[')']
  {
    SpacesOnly(after, ')');
    SpacesOnly(gap, ')');
  }

  lemma KernelEnds(kernel: string)
    requires kernel != "" && !IsMoney(kernel[0]) && !IsMoney(kernel[|kernel| - 1])
    ensures kernel[0] !in SYMBOLS + " " && kernel[|kernel| - 1] !in SYMBOLS + " "
  {
    Classes(kernel[0]);
    Classes(kernel[|kernel| - 1]);
  }

  /** A text that reads as a number is made of such parts, and its number is theirs. */
  lemma ReadMakes(text: string, had: bool) returns (p: Parts, times: string, d: Decimal)
    requires Solid(text) && ReadValue(text, had).Some?
    ensures Reads(p, times, d) && Whole(p) == text && ReadValue(text, had) == Some(Amounting(p, d, had))
  {
    hide *;
    ReadSteps(text, had);
    var front, unit := UnitSplits(text);
    var u := UnitOff(text);
    var lead, gap := StripSplits(front);
    var outer := DropLeftSplits(u, IsMoney);
    var wrapped := DropLeft(u, IsMoney);
    var opens, closes := UnwrapSplits(wrapped);
    var signed := Unwrapped(wrapped);
    var sign, after := SignSplits(signed);
    var inner, kernel, tail := BareSplits(SignOff(signed));
    var bare := Bare(SignOff(signed));
    times, d := TimesSplits(bare);
    p := Parts(outer, opens, sign, inner, kernel, tail, after + closes + gap, unit);
    assert u == outer + (opens + (sign + (inner + kernel + tail) + after) + closes);
    assert |u| >= |kernel| > 0;
    NothingLeads(text, front, unit, lead, u, gap);
    Gather(outer, opens, sign, inner, kernel, tail, after, closes, gap, unit);
    ClosesFill(after, closes, gap);
    KernelEnds(kernel);
    MoneyIsSpelled(outer);
    MoneyIsSpelled(inner);
    MoneyIsSpelled(tail);
    PartsRead(p, times, d, closes, text);
    AmountReads(d, IsNegative(p));
    NegativeIs(p);
    AmountingIs(p, d, had);
  }

  lemma PartsRead(p: Parts, times: string, d: Decimal, closes: string, text: string)
    requires d.Valid() && times in ["", "x", "X"] && IsUnit(p.unit)
    requires Among(p.outer, SYMBOLS + " ") && Among(p.inner, SYMBOLS + " ") && Among(p.tail, SYMBOLS + " ")
    requires Filled(p.opens, '(') && (p.opens == "" || p.opens[0] == '(') && Filled(p.closes, ')')
    requires multiset(p.opens)['('] == multiset(closes)[')'] == multiset(p.closes)[')'] && SignPart(p.sign)
    requires p.kernel != "" && p.kernel[0] !in SYMBOLS + " " && p.kernel[|p.kernel| - 1] !in SYMBOLS + " "
    requires Without(Without(p.kernel, ','), ' ') == Numeral(d) + times
    requires text == p.outer + p.opens + (p.sign + p.inner + p.kernel + p.tail) + p.closes + p.unit
    ensures Reads(p, times, d) && Whole(p) == text
  {
  }

  lemma NegativeIs(p: Parts)
    ensures IsNegative(p) <==> (multiset(p.opens)['('] % 2 == 1) != (p.sign != "" && p.sign[0] == '-')
  {
  }

  lemma AmountingIs(p: Parts, d: Decimal, had: bool)
    requires d.Valid()
    ensures var value := (if IsNegative(p) then Rounded(d.Coefficient()) else d.Coefficient()) as real
                         / Pow10(|d.part|) as real;
      Amounting(p, d, had) == Number(if IsNegative(p) then -value else value, p.unit == "%", IsNegative(p), had)
  {
  }

  // ---------------------------------------------------------------- from the parts to the number

  lemma {:induction false} SplitOpen(opens: string) returns (a: string, rest: string)
    requires Filled(opens, '(') && '(' in opens
    ensures opens == a + ("(" + rest) && All(a, IsSpace) && Filled(rest, '(') && |rest| < |opens|
    ensures multiset(rest)['('] == multiset(opens)['('] - 1
  {
    hide IsSpace;
    if opens[0] == '(' {
      a, rest := "", opens[1..];
    } else {
      assert opens == [opens[0]] + opens[1..];
      a, rest := SplitOpen(opens[1..]);
      a := [opens[0]] + a;
    }
    SpacesOnly(a, '(');
    assert opens == a + ("(" + rest);
  }

  lemma {:induction false} SplitClose(closes: string) returns (rest: string, b: string)
    requires Filled(closes, ')') && ')' in closes
    ensures closes == rest + ")" + b && All(b, IsSpace) && Filled(rest, ')')
    ensures multiset(rest)[')'] == multiset(closes)[')'] - 1
  {
    hide IsSpace;
    var n := |closes| - 1;
    if closes[n] == ')' {
      rest, b := closes[..n], "";
    } else {
      assert closes == closes[..n] + [closes[n]];
      rest, b := SplitClose(closes[..n]);
      b := b + [closes[n]];
    }
    SpacesOnly(b, ')');
    assert closes == rest + ")" + b;
  }

  lemma OnlySpaces(s: string, bracket: char)
    requires Filled(s, bracket) && bracket !in s
    ensures All(s, IsSpace)
  {
  }

  lemma WrapApart(a: string, opens: string, core: string, closes: string, b: string)
    ensures (a + ("(" + opens)) + core + (closes + ")" + b) == a + ("(" + (opens + core + closes) + ")") + b
  {
  }

  lemma WrappedIs(mid: string)
    ensures IsWrapped("(" + mid + ")") && Solid("(" + mid + ")") && Inner("(" + mid + ")") == Strip(mid)
  {
    assert ("(" + mid + ")")[1..|mid| + 1] == mid;
  }

  /** The outermost pair, with the whitespace around and within it. */
  lemma OnePeels(opens: string, core: string, closes: string) returns (o: string, c: string)
    requires Filled(opens, '(') && Filled(closes, ')') && '(' in opens && ')' in closes
    ensures |o| < |opens| && Filled(o, '(') && Filled(c, ')')
    ensures multiset(o)['('] == multiset(opens)['('] - 1 && multiset(c)[')'] == multiset(closes)[')'] - 1
    ensures var s, inner := Strip(opens + core + closes), Strip(o + core + c);
      Unwrapped(s) == Unwrapped(inner) && Flipped(s) == !Flipped(inner)
  {
    hide *;
    var a, b;
    a, o := SplitOpen(opens);
    c, b := SplitClose(closes);
    var mid := o + core + c;
    WrapApart(a, o, core, c, b);
    WrappedIs(mid);
    StripAround(a, "(" + mid + ")", b);
    UnwrapOne("(" + mid + ")", Strip(mid));
  }

  lemma NonePeels(opens: string, core: string, closes: string)
    requires Filled(opens, '(') && Filled(closes, ')') && '(' !in opens && ')' !in closes
    requires Solid(core) && core[0] != '('
    ensures var s := Strip(opens + core + closes);
      Unwrapped(s) == core && !Flipped(s)
  {
    NotWrapped(core);
    hide *;
    OnlySpaces(opens, '(');
    OnlySpaces(closes, ')');
    StripAround(opens, core, closes);
    NothingToUnwrap(core);
  }

  lemma Occurring(s: string, c: char)
    ensures c in s <==> multiset(s)[c] > 0
  {
    assert c in s <==> c in multiset(s);
  }

  /** As many pairs come off as there are parentheses. */
  lemma {:induction false} Peels(opens: string, core: string, closes: string)
    requires Filled(opens, '(') && Filled(closes, ')') && multiset(opens)['('] == multiset(closes)[')']
    requires Solid(core) && core[0] != '('
    ensures var s := Strip(opens + core + closes);
      Unwrapped(s) == core && (Flipped(s) <==> multiset(opens)['('] % 2 == 1)
    decreases |opens|
  {
    hide *;
    Occurring(opens, '(');
    Occurring(closes, ')');
    if '(' in opens {
      var o, c := OnePeels(opens, core, closes);
      Peels(o, core, c);
    } else {
      NonePeels(opens, core, closes);
    }
  }

  lemma NotWrapped(s: string)
    requires s != "" && s[0] != '('
    ensures !IsWrapped(s)
  {
  }

  predicate IsBlank(c: char) { c == ' ' }

  lemma BlanksAre(c: char)
    ensures IsBlank(c) ==> IsSpace(c) && IsMoney(c)
    ensures IsMoney(c) && !IsBlank(c) ==> !IsSpace(c)
  {
  }

  /** Currency and spaces end in spaces, or in a symbol. */
  lemma MoneyEnds(s: string)
    requires All(s, IsMoney)
    ensures var t := DropRight(s, IsBlank);
      All(t, IsMoney) && t <= s && All(s[|t|..], IsSpace) && (t == "" || !IsSpace(t[|t| - 1]))
  {
    hide IsSpace, IsMoney, IsBlank;
    var t := DropRight(s, IsBlank);
    var b := DropRightSplits(s, IsBlank);
    assert s[|t|..] == b;
    forall c ensures (IsBlank(c) ==> IsSpace(c)) && (IsMoney(c) && !IsBlank(c) ==> !IsSpace(c)) {
      BlanksAre(c);
    }
    assert forall i :: 0 <= i < |t| ==> t[i] == s[i];
  }

  lemma MoneyStarts(s: string)
    requires All(s, IsMoney)
    ensures var i := DropLeft(s, IsBlank);
      All(i, IsMoney) && |i| <= |s| && s == s[..|s| - |i|] + i && All(s[..|s| - |i|], IsSpace)
      && (i == "" || !IsSpace(i[0])) && (s != "" && !IsSpace(s[0]) ==> i == s)
  {
    hide IsSpace, IsMoney, IsBlank;
    var i := DropLeft(s, IsBlank);
    var a := DropLeftSplits(s, IsBlank);
    assert s[..|s| - |i|] == a;
    forall c ensures (IsBlank(c) ==> IsSpace(c)) && (IsMoney(c) && !IsBlank(c) ==> !IsSpace(c)) {
      BlanksAre(c);
    }
    assert forall k :: 0 <= k < |i| ==> i[k] == s[|a| + k];
  }

  lemma SolidAround(i: string, kernel: string, t: string)
    requires Solid(kernel) && (i == "" || !IsSpace(i[0])) && (t == "" || !IsSpace(t[|t| - 1]))
    ensures Solid(i + kernel + t) && (i + kernel + t)[0] == if i == "" then kernel[0] else i[0]
  {
    hide IsSpace;
    var s := i + kernel + t;
    assert s[0] == if i == "" then kernel[0] else i[0];
    assert s[|s| - 1] == if t == "" then kernel[|kernel| - 1] else t[|t| - 1];
  }

  /** Trimming digits with currency around leaves the digits and some of the currency. */
  lemma TrimMoney(inner: string, kernel: string, tail: string, more: string) returns (i: string, t: string)
    requires All(inner, IsMoney) && All(tail, IsMoney) && Solid(kernel) && All(more, IsSpace)
    ensures Strip(inner + kernel + tail + more) == i + kernel + t && All(i, IsMoney) && All(t, IsMoney)
    ensures inner != "" && !IsSpace(inner[0]) ==> i == inner
    ensures Solid(i + kernel + t) && (i + kernel + t)[0] == if i == "" then kernel[0] else i[0]
  {
    hide IsSpace, IsMoney, IsBlank, Strip, Solid, DropLeft, DropRight;
    i, t := DropLeft(inner, IsBlank), DropRight(tail, IsBlank);
    MoneyStarts(inner);
    MoneyEnds(tail);
    SolidAround(i, kernel, t);
    var a, b := inner[..|inner| - |i|], tail[|t|..];
    assert tail == t + b;
    assert inner + kernel + tail + more == a + (i + kernel + t) + (b + more);
    assert All(b + more, IsSpace);
    StripAround(a, i + kernel + t, b + more);
  }

  /** The kernel is made of digits, points, commas, spaces and a multiple marker. */
  lemma KernelChars(p: Parts, times: string, d: Decimal)
    requires Reads(p, times, d)
    ensures forall x :: x in p.kernel ==> InBody(x) || x == ' '
    ensures Solid(p.kernel) && !IsMoney(p.kernel[0]) && !IsMoney(p.kernel[|p.kernel| - 1])
    ensures InBody(p.kernel[0]) && InBody(p.kernel[|p.kernel| - 1])
  {
    var k := p.kernel;
    NoMultiple(d, times);
    WithoutKeeps(k, ',');
    WithoutKeeps(Without(k, ','), ' ');
    hide Without, Numeral, IsMoney, IsSpace;
    forall x | x in k ensures InBody(x) || x == ' ' {
      if x != ',' && x != ' ' {
        assert x in Numeral(d) + times;
      }
    }
    assert k[0] in k && k[|k| - 1] in k;
    InBodyIsSolid(k[0]);
    InBodyIsSolid(k[|k| - 1]);
  }

  lemma InBodyIsSolid(c: char)
    ensures InBody(c) ==> !IsSpace(c) && !IsMoney(c) && c !in "()+-"
  {
  }

  lemma BareIs(i: string, kernel: string, t: string)
    requires All(i, IsMoney) && All(t, IsMoney)
    requires kernel != "" && !IsMoney(kernel[0]) && !IsMoney(kernel[|kernel| - 1])
    ensures Bare(i + kernel + t) == Without(Without(kernel, ','), ' ')
  {
    hide IsMoney, Without;
    Associate(i, kernel, t);
    DropLeftOf(i, kernel + t, IsMoney);
    DropRightOf(kernel, t, IsMoney);
  }

  lemma SignOffIs(sign: string, spaces: string, rest: string)
    requires |sign| == 1 && sign[0] in "+-" && All(spaces, IsSpace) && Solid(rest)
    ensures SignOff(sign + spaces + rest) == rest
    ensures HasSign(sign + spaces + rest, '-') <==> sign == "-"
  {
    assert (sign + spaces + rest)[1..] == spaces + rest + "";
    StripAround(spaces, rest, "");
  }

  lemma NoSignOff(s: string)
    requires s != "" && s[0] !in "+-"
    ensures SignOff(s) == s && !HasSign(s, '-')
  {
  }

  lemma MoneyIsNoBracket(c: char)
    requires IsMoney(c) || InBody(c)
    ensures c !in "+-" && c != '('
  {
  }

  /** Currency and digits, trimmed. */
  lemma BodyReads(p: Parts, times: string, d: Decimal) returns (core: string)
    requires Reads(p, times, d)
    ensures core == Strip(p.inner + p.kernel + p.tail) && Solid(core) && core[0] !in "+-" && core[0] != '('
    ensures Bare(core) == Numeral(d) + times
  {
    KernelChars(p, times, d);
    MoneyIsSpelled(p.inner);
    MoneyIsSpelled(p.tail);
    hide IsMoney, IsSpace, Strip, Bare, InBody, Solid;
    var i, t := TrimMoney(p.inner, p.kernel, p.tail, "");
    core := i + p.kernel + t;
    assert p.inner + p.kernel + p.tail + "" == p.inner + p.kernel + p.tail;
    MoneyIsNoBracket(core[0]);
    BareIs(i, p.kernel, t);
  }

  lemma PlusBody(sign: string, a: string, body: string, b: string)
    ensures sign + (a + body + b) == sign + a + body + b
  {
  }

  lemma SignParts(sign: string)
    requires SignPart(sign) && sign != ""
    ensures sign == sign[..1] + sign[1..] && sign[0] in "+-" && All(sign[1..], IsSpace)
  {
  }

  lemma SignThenBody(sign: string, a: string, body: string, b: string) returns (core: string)
    requires SignPart(sign) && sign != "" && All(a, IsSpace) && Solid(body)
    ensures sign + (a + body + b) == "" + core + b && Solid(core) && core[0] != '('
    ensures SignOff(core) == body && (HasSign(core, '-') <==> sign[0] == '-')
  {
    hide IsSpace, SignPart, SignOff, HasSign;
    SignParts(sign);
    core := sign + a + body;
    SignOffIs(sign[..1], sign[1..] + a, body);
    assert sign[..1] + (sign[1..] + a) + body == core;
    SignIsSolid(sign, a, body);
    PlusBody(sign, a, body, b);
  }

  lemma SignIsSolid(sign: string, a: string, body: string)
    requires sign != "" && sign[0] in "+-" && Solid(body)
    ensures Solid(sign + a + body) && (sign + a + body)[0] != '('
  {
    var s := sign + a + body;
    assert s[0] == sign[0] && s[|s| - 1] == body[|body| - 1];
  }

  /** What remains inside the parentheses, trimmed. */
  lemma SignedReads(p: Parts, times: string, d: Decimal) returns (core: string, a: string, b: string)
    requires Reads(p, times, d)
    ensures Signed(p) == a + core + b && All(a, IsSpace) && All(b, IsSpace) && Solid(core) && core[0] != '('
    ensures p.sign != "" ==> a == ""
    ensures HasSign(core, '-') <==> p.sign != "" && p.sign[0] == '-'
    ensures Bare(SignOff(core)) == Numeral(d) + times
  {
    assert SignPart(p.sign);
    SignedIs(p);
    hide *;
    var body := BodyReads(p, times, d);
    a, b := StripSplits(p.inner + p.kernel + p.tail);
    if p.sign == "" {
      core := body;
      NoSignOff(core);
    } else {
      core := SignThenBody(p.sign, a, body, b);
      a := "";
      NoSpaces();
    }
  }

  lemma NoSpaces()
    ensures All("", IsSpace)
  {
  }

  lemma SignedIs(p: Parts)
    ensures Signed(p) == p.sign + (p.inner + p.kernel + p.tail)
    ensures p.sign == "" ==> Signed(p) == p.inner + p.kernel + p.tail
  {
  }

  // ---------------------------------------------------------------- the outside

  lemma OuterOff(outer: string, x: string)
    requires All(outer, IsMoney) && x != "" && !IsMoney(x[0]) && !IsSpace(x[0])
    requires outer != "" ==> !IsSpace(outer[0])
    ensures DropLeft(Strip(outer + x), IsMoney) == Strip(x)
  {
    hide IsMoney, IsSpace, Strip;
    var a, b := StripSplits(x);
    FirstIsFirst(a, Strip(x) + b);
    assert x == a + (Strip(x) + b);
    assert a == "";
    var r := Strip(x);
    assert r != "" by { FirstIsFirst(b, ""); }
    assert x[0] == r[0];
    assert Solid(outer + r) by { assert (outer + r)[|outer + r| - 1] == r[|r| - 1]; }
    assert outer + x == "" + (outer + r) + b;
    StripAround("", outer + r, b);
    DropLeftOf(outer, r, IsMoney);
  }

  /** The text without its unit. */
  function Front(p: Parts): string {
    p.outer + (p.opens + Signed(p) + p.closes)
  }

  lemma WholeIs(p: Parts)
    ensures Whole(p) == Front(p) + p.unit
  {
  }

  lemma MoreSpace(opens: string, a: string, b: string, closes: string)
    requires Filled(opens, '(') && Filled(closes, ')') && All(a, IsSpace) && All(b, IsSpace)
    ensures Filled(opens + a, '(') && multiset(opens + a)['('] == multiset(opens)['(']
    ensures Filled(b + closes, ')') && multiset(b + closes)[')'] == multiset(closes)[')']
  {
    SpacesOnly(a, '(');
    SpacesOnly(b, ')');
  }

  lemma SpaceMoves(opens: string, a: string, core: string, b: string, closes: string)
    ensures opens + (a + core + b) + closes == (opens + a) + core + (b + closes)
  {
  }

  lemma BracketsStand(p: Parts, times: string, d: Decimal)
    requires Reads(p, times, d)
    ensures Filled(p.opens, '(') && Filled(p.closes, ')') && multiset(p.opens)['('] == multiset(p.closes)[')']
    ensures All(p.outer, IsMoney) && All(p.inner, IsMoney) && All(p.tail, IsMoney)
  {
    MoneyIsSpelled(p.outer);
    MoneyIsSpelled(p.inner);
    MoneyIsSpelled(p.tail);
  }

  lemma FirstOfOuter(p: Parts)
    requires Solid(Whole(p))
    ensures p.outer != "" ==> !IsSpace(p.outer[0])
    ensures Front(p) == p.outer + (p.opens + Signed(p) + p.closes)
  {
    hide IsSpace;
    FirstIsFirst(p.outer, p.opens + Signed(p) + p.closes + p.unit);
    assert Whole(p) == p.outer + (p.opens + Signed(p) + p.closes + p.unit);
  }

  /** How a text with brackets or a sign peels. */
  lemma BracketsPeel(p: Parts, times: string, d: Decimal) returns (core: string)
    requires Reads(p, times, d) && Solid(Whole(p)) && (p.opens != "" || p.sign != "")
    ensures var wrapped := DropLeft(Strip(Front(p)), IsMoney);
      Unwrapped(wrapped) == core && (Flipped(wrapped) <==> multiset(p.opens)['('] % 2 == 1)
    ensures HasSign(core, '-') <==> p.sign != "" && p.sign[0] == '-'
    ensures Bare(SignOff(core)) == Numeral(d) + times
  {
    hide *;
    var a, b;
    core, a, b := SignedReads(p, times, d);
    BracketsStand(p, times, d);
    FirstOfInside(p, times, d);
    FirstOfOuter(p);
    OuterOff(p.outer, p.opens + Signed(p) + p.closes);
    MoreSpace(p.opens, a, b, p.closes);
    SpaceMoves(p.opens, a, core, b, p.closes);
    Peels(p.opens + a, core, b + p.closes);
  }

  lemma FirstOfInside(p: Parts, times: string, d: Decimal)
    requires Reads(p, times, d) && (p.opens != "" || p.sign != "")
    ensures var x := p.opens + Signed(p) + p.closes;
      x != "" && !IsMoney(x[0]) && !IsSpace(x[0])
  {
    var x := p.opens + Signed(p) + p.closes;
    assert x[0] == if p.opens != "" then p.opens[0] else p.sign[0];
  }

  lemma PlainFront(p: Parts, times: string, d: Decimal)
    requires Reads(p, times, d) && p.opens == "" && p.sign == ""
    ensures Front(p) == (p.outer + p.inner) + p.kernel + p.tail + p.closes && All(p.closes, IsSpace)
  {
    Occurring(p.closes, ')');
    OnlySpaces(p.closes, ')');
  }

  lemma BothMoney(a: string, b: string)
    requires All(a, IsMoney) && All(b, IsMoney)
    ensures All(a + b, IsMoney)
  {
    hide IsMoney;
  }

  lemma NothingPeels(core: string)
    requires core != "" && InBody(core[0])
    ensures Unwrapped(core) == core && !Flipped(core) && SignOff(core) == core && !HasSign(core, '-')
  {
    MoneyIsNoBracket(core[0]);
    NotWrapped(core);
    NothingToUnwrap(core);
    NoSignOff(core);
  }

  lemma PlainReads(i: string, kernel: string, t: string)
    requires All(i, IsMoney) && All(t, IsMoney)
    requires kernel != "" && InBody(kernel[0]) && !IsMoney(kernel[0]) && !IsMoney(kernel[|kernel| - 1])
    ensures var core := kernel + t;
      && DropLeft(i + kernel + t, IsMoney) == core && Unwrapped(core) == core && !Flipped(core)
      && !HasSign(core, '-') && Bare(SignOff(core)) == Without(Without(kernel, ','), ' ')
  {
    hide *;
    var core := kernel + t;
    assert core[0] == kernel[0];
    Associate(i, kernel, t);
    DropLeftOf(i, core, IsMoney);
    NothingPeels(core);
    NoSpaces();
    NoMoney();
    BareIs("", kernel, t);
    assert "" + kernel == kernel;
  }

  lemma NoMoney()
    ensures All("", IsMoney)
  {
  }

  lemma KernelReads(p: Parts, times: string, d: Decimal)
    requires Reads(p, times, d)
    ensures p.kernel != "" && Without(Without(p.kernel, ','), ' ') == Numeral(d) + times
  {
  }

  /** How a text without any peels. */
  lemma PlainPeels(p: Parts, times: string, d: Decimal) returns (core: string)
    requires Reads(p, times, d) && p.opens == "" && p.sign == ""
    ensures var wrapped := DropLeft(Strip(Front(p)), IsMoney);
      Unwrapped(wrapped) == core && !Flipped(wrapped) && !HasSign(core, '-')
    ensures Bare(SignOff(core)) == Numeral(d) + times
  {
    hide *;
    KernelReads(p, times, d);
    KernelChars(p, times, d);
    BracketsStand(p, times, d);
    PlainFront(p, times, d);
    BothMoney(p.outer, p.inner);
    var i, t := TrimMoney(p.outer + p.inner, p.kernel, p.tail, p.closes);
    PlainReads(i, p.kernel, t);
    core := p.kernel + t;
  }

  lemma LastOfFront(p: Parts, times: string, d: Decimal)
    requires Reads(p, times, d) && p.unit == "" && Solid(Whole(p))
    ensures var c := Whole(p)[|Whole(p)| - 1]; InBody(c) || c == ')' || IsCurrency(c)
  {
    KernelChars(p, times, d);
    MoneyIsSpelled(p.tail);
    var t := Whole(p);
    var c := t[|t| - 1];
    if p.closes != "" {
      assert c == p.closes[|p.closes| - 1];
    } else if p.tail != "" {
      assert c == p.tail[|p.tail| - 1];
    } else {
      assert c == p.kernel[|p.kernel| - 1];
    }
  }

  lemma UnitComesOffWhole(p: Parts, times: string, d: Decimal)
    requires Reads(p, times, d) && Solid(Whole(p))
    ensures UnitOff(Whole(p)) == Strip(Front(p)) && (EndsWith(Whole(p), "%") <==> p.unit == "%")
  {
    WholeIs(p);
    if p.unit == "" {
      LastOfFront(p, times, d);
      hide *;
      NoUnit(Whole(p));
      StripSolid(Whole(p));
    } else {
      hide Reads, Strip, UnitOff, EndsWith, Front, Whole, Solid;
      UnitCut(Front(p), p.unit, Strip(Front(p)));
    }
  }

  /** How any such text peels. */
  lemma PartsPeel(p: Parts, times: string, d: Decimal) returns (core: string)
    requires Reads(p, times, d) && Solid(Whole(p))
    ensures var wrapped := DropLeft(Strip(Front(p)), IsMoney);
      Unwrapped(wrapped) == core && ((Flipped(wrapped) != HasSign(core, '-')) <==> IsNegative(p))
    ensures Bare(SignOff(core)) == Numeral(d) + times
  {
    NegativeIs(p);
    NoOpens(p.opens);
    hide *;
    if p.opens != "" || p.sign != "" {
      core := BracketsPeel(p, times, d);
    } else {
      core := PlainPeels(p, times, d);
    }
  }

  lemma NoOpens(s: string)
    ensures s == "" ==> multiset(s)['('] % 2 == 0
  {
  }

  lemma ReadsAreValid(p: Parts, times: string, d: Decimal)
    requires Reads(p, times, d)
    ensures d.Valid() && times in ["", "x", "X"]
  {
  }

  /** A text made of such parts reads as their number. */
  lemma MakesRead(p: Parts, times: string, d: Decimal, had: bool)
    requires Reads(p, times, d) && Solid(Whole(p))
    ensures d.Valid() && ReadValue(Whole(p), had) == Some(Amounting(p, d, had))
  {
    hide *;
    ReadsAreValid(p, times, d);
    UnitComesOffWhole(p, times, d);
    var core := PartsPeel(p, times, d);
    NoMultiple(d, times);
    AmountReads(d, IsNegative(p));
    AmountingIs(p, d, had);
    ReadAs(Whole(p), DropLeft(UnitOff(Whole(p)), IsMoney), core, Numeral(d), had);
  }

  /** Such parts make up the text, and the number is theirs. */
  ghost predicate Made(text: string, had: bool, r: Number, p: Parts, times: string, d: Decimal) {
    Reads(p, times, d) && Whole(p) == text && r == Amounting(p, d, had)
  }

  ghost predicate IsMade(text: string, had: bool, r: Number) {
    exists p, times, d :: Made(text, had, r, p, times, d)
  }

  /** A trimmed text reads as a number if and only if it is made of such parts, and then the number
      is theirs. */
  lemma ReadsIff(text: string, had: bool, r: Number)
    requires Solid(text)
    ensures ReadValue(text, had) == Some(r) <==> IsMade(text, had, r)
  {
    hide Reads, Whole, ReadValue, Amounting, Solid;
    if ReadValue(text, had) == Some(r) {
      var p, times, d := ReadMakes(text, had);
      assert Made(text, had, r, p, times, d);
    }
    if IsMade(text, had, r) {
      var p, times, d :| Made(text, had, r, p, times, d);
      MakesRead(p, times, d, had);
    }
  }
}
