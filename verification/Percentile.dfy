/** A linearly interpolated percentile, and how many values can lie below it. */
module Percentile {
  import opened Wrappers
  import opened Reals
  import opened Sorting

  predicate Smaller(a: real, b: real) { a < b }

  /** The value at fraction `q` of the sorted values. */
  function PercentileOf(values: seq<real>, q: real): real
    requires 0.0 <= q <= 1.0
  {
    if values == [] then 0.0
    else
      var ordered := Ordered(values);
      if |ordered| == 1 then ordered[0]
      else
        var pos := Position(|ordered|, q);
        PositionIsInside(|ordered|, q);
        var lo := pos.Floor;
        var hi := if lo + 1 < |ordered| - 1 then lo + 1 else |ordered| - 1;
        Interpolated(ordered[lo], ordered[hi], pos - lo as real)
  }

  /** Conversion of a number to a whole one, towards zero. */
  function Toward0(x: real): int {
    if x >= 0.0 then x.Floor else -(-x).Floor
  }

  /** The element at an index, counted from the end when negative. */
  function At(s: seq<real>, k: int): Option<real> {
    if 0 <= k < |s| then Some(s[k]) else if -|s| <= k < 0 then Some(s[|s| + k]) else None
  }

  /** The same for a fraction of any size, which can miss the values altogether. */
  function AnyPercentile(values: seq<real>, q: real): Option<real> {
    if values == [] then Some(0.0)
    else
      var ordered := Ordered(values);
      if |ordered| == 1 then Some(ordered[0])
      else
        var pos := Position(|ordered|, q);
        var lo := Toward0(pos);
        var hi := if lo + 1 < |ordered| - 1 then lo + 1 else |ordered| - 1;
        match (At(ordered, lo), At(ordered, hi))
        case (Some(a), Some(b)) => Some(Interpolated(a, b, pos - lo as real))
        case _ => None
  }

  /** Within the range of a fraction nothing is missed. */
  lemma FractionHits(values: seq<real>, q: real)
    requires 0.0 <= q <= 1.0
    ensures AnyPercentile(values, q) == Some(PercentileOf(values, q))
  {
    if |values| > 1 {
      PositionIsInside(|values|, q);
    }
  }

  /** An index from either end. */
  function Wrapped(k: int, n: nat): int {
    if k < 0 then n + k else k
  }

  /** For any fraction, with the position cut towards zero: indices count from the end when
      negative, and there is no percentile exactly when the first of the two misses the values. */
  lemma {:induction false} AnyFraction(values: seq<real>, q: real, lo: int)
    requires |values| > 1
    requires var pos := (|values| - 1) as real * q;
      (pos >= 0.0 ==> lo as real <= pos < (lo + 1) as real) && (pos < 0.0 ==> (lo - 1) as real < pos <= lo as real)
    ensures var n, p := |values|, AnyPercentile(values, q);
      && (p.Some? <==> -n <= lo < n)
      && (p.Some? ==>
            var hi := if lo == n - 1 then lo else lo + 1;
            var a, b := Ordered(values)[Wrapped(lo, n)], Ordered(values)[Wrapped(hi, n)];
            p.value - a == (b - a) * ((n - 1) as real * q - lo as real))
  {
    hide Ordered, Toward0;
    var pos := (|values| - 1) as real * q;
    CutTowardZero(pos, lo);
    assert Position(|values|, q) == pos;
    hide Position;
    var n, o := |values|, Ordered(values);
    var hi := if lo == n - 1 then lo else lo + 1;
    if -n <= lo < n {
      assert At(o, lo) == Some(o[Wrapped(lo, n)]) && At(o, hi) == Some(o[Wrapped(hi, n)]);
    }
  }

  lemma CutTowardZero(x: real, k: int)
    requires x >= 0.0 ==> k as real <= x < (k + 1) as real
    requires x < 0.0 ==> (k - 1) as real < x <= k as real
    ensures Toward0(x) == k
  {
  }

  function Interpolated(a: real, b: real, f: real): real {
    a + (b - a) * f
  }

  /** Where among `n` sorted values the fraction `q` falls. */
  function Position(n: nat, q: real): real {
    (n - 1) as real * q
  }

  lemma PositionIsInside(n: nat, q: real)
    requires n > 0 && 0.0 <= q <= 1.0
    ensures 0 <= Position(n, q).Floor <= n - 1 && 0.0 <= Position(n, q) <= (n - 1) as real
  {
    var x := (n - 1) as real;
    NotNegative(x, q);
    NotNegative(x, 1.0 - q);
    assert x * (1.0 - q) == x - x * q;
  }

  function Ordered(values: seq<real>): (r: seq<real>)
    ensures |r| == |values|
  {
    SortPermutes(values, Smaller);
    assert |multiset(Sort(values, Smaller))| == |multiset(values)|;
    Sort(values, Smaller)
  }

  /** How many values lie strictly below `x`. */
  function Below(values: seq<real>, x: real): nat {
    if values == [] then 0 else (if values[0] < x then 1 else 0) + Below(values[1..], x)
  }

  lemma {:induction false} BelowInsert(v: real, s: seq<real>, x: real)
    ensures Below(Insert(v, s, Smaller), x) == (if v < x then 1 else 0) + Below(s, x)
  {
    if s != [] && Smaller(s[0], v) {
      BelowInsert(v, s[1..], x);
    } else {
      assert ([v] + s)[1..] == s;
    }
  }

  lemma {:induction false} BelowSort(s: seq<real>, x: real)
    ensures Below(Sort(s, Smaller), x) == Below(s, x)
  {
    if s != [] {
      BelowSort(s[1..], x);
      BelowInsert(s[0], Sort(s[1..], Smaller), x);
    }
  }

  /** Of sorted values, only those before a place that is not below `x` can be. */
  lemma {:induction false} BelowPrefix(s: seq<real>, x: real, k: nat)
    requires k <= |s| && forall i :: k <= i < |s| ==> s[i] >= x
    ensures Below(s, x) <= k
  {
    if s != [] {
      BelowPrefix(s[1..], x, if k == 0 then 0 else k - 1);
    }
  }

  lemma OrderedAscends(values: seq<real>, i: nat, j: nat)
    requires i <= j < |values|
    ensures Ordered(values)[i] <= Ordered(values)[j]
  {
    assert WeakOrder(Smaller);
    SortSorts(values, Smaller);
  }

  lemma Between(a: real, b: real, f: real)
    requires a <= b && 0.0 <= f <= 1.0
    ensures a <= Interpolated(a, b, f) <= b && Interpolated(a, b, 0.0) == a
  {
    NotNegative(b - a, f);
    NotNegative(b - a, 1.0 - f);
    assert (b - a) * (1.0 - f) == (b - a) - (b - a) * f;
  }

  /** The percentile lies between two neighbours of the sorted values. */
  lemma PercentileIsBetween(values: seq<real>, q: real) returns (lo: nat, hi: nat)
    requires 0.0 <= q <= 1.0 && |values| > 1
    ensures lo == Position(|values|, q).Floor && lo <= hi <= lo + 1 && hi < |values|
    ensures Ordered(values)[lo] <= PercentileOf(values, q) <= Ordered(values)[hi]
    ensures Position(|values|, q) == lo as real ==> PercentileOf(values, q) == Ordered(values)[lo]
  {
    hide Ordered, Interpolated, Position;
    var pos := Position(|values|, q);
    PositionIsInside(|values|, q);
    lo := pos.Floor;
    hi := if lo + 1 < |values| - 1 then lo + 1 else |values| - 1;
    OrderedAscends(values, lo, hi);
    Between(Ordered(values)[lo], Ordered(values)[hi], pos - lo as real);
  }

  /** At most one value more than the whole part of the position lies strictly below the
      percentile, and no more than that part when the position is whole. */
  lemma {:induction false} FewLieBelow(values: seq<real>, q: real)
    requires 0.0 <= q <= 1.0 && values != []
    ensures var lo := Position(|values|, q).Floor;
      && Below(values, PercentileOf(values, q)) <= lo + 1
      && (Position(|values|, q) == lo as real ==> Below(values, PercentileOf(values, q)) <= lo)
  {
    hide Sort, Position;
    var p := PercentileOf(values, q);
    BelowSort(values, p);
    PositionIsInside(|values|, q);
    if |values| == 1 {
      BelowPrefix(Ordered(values), p, 0);
    } else {
      var lo, hi := PercentileIsBetween(values, q);
      var k := if Position(|values|, q) == lo as real then lo else hi;
      forall i | k <= i < |values| ensures Ordered(values)[i] >= p {
        OrderedAscends(values, k, i);
      }
      BelowPrefix(Ordered(values), p, k);
    }
  }

  /** The values in order: the same values, none before a smaller one. */
  lemma OrderedSorts(values: seq<real>)
    ensures multiset(Ordered(values)) == multiset(values)
    ensures forall i, j :: 0 <= i < j < |values| ==> Ordered(values)[i] <= Ordered(values)[j]
  {
    SortPermutes(values, Smaller);
    forall i, j | 0 <= i < j < |values| ensures Ordered(values)[i] <= Ordered(values)[j] {
      OrderedAscends(values, i, j);
    }
  }

  /** The percentile lies as far on the way from one ordered value to the next as its position
      lies between theirs. */
  lemma PercentileIsLinear(values: seq<real>, q: real)
    requires 0.0 <= q <= 1.0 && values != []
    ensures var pos := (|values| - 1) as real * q;
      var lo, p := pos.Floor, PercentileOf(values, q);
      && 0 <= lo < |values|
      && (lo + 1 < |values| ==>
            p - Ordered(values)[lo] == (Ordered(values)[lo + 1] - Ordered(values)[lo]) * (pos - lo as real))
      && (lo + 1 == |values| ==> p == Ordered(values)[lo])
  {
    hide Ordered;
    PositionIsInside(|values|, q);
    if |values| == 1 {
      assert (0 as real * q).Floor == 0;
    }
  }

  /** Of sorted values, exactly those before a place are below `x` if they are and no other is. */
  lemma {:induction false} BelowExactly(s: seq<real>, x: real, k: nat)
    requires k <= |s| && (forall i :: 0 <= i < k ==> s[i] < x) && forall i :: k <= i < |s| ==> s[i] >= x
    ensures Below(s, x) == k
  {
    if s != [] {
      BelowExactly(s[1..], x, if k == 0 then 0 else k - 1);
    }
  }

  /** Between two different neighbours, the lower one and all before it lie below the percentile,
      and no other value does. */
  lemma {:induction false} ExactlyBelow(values: seq<real>, q: real)
    requires 0.0 <= q <= 1.0 && |values| > 1
    requires var pos := (|values| - 1) as real * q;
      && pos != pos.Floor as real && 0 <= pos.Floor && pos.Floor + 1 < |values|
      && Ordered(values)[pos.Floor] < Ordered(values)[pos.Floor + 1]
    ensures Below(values, PercentileOf(values, q)) == ((|values| - 1) as real * q).Floor + 1
  {
    hide Ordered, PercentileOf;
    var pos := (|values| - 1) as real * q;
    var lo, p := pos.Floor, PercentileOf(values, q);
    PercentileIsLinear(values, q);
    var a, b := Ordered(values)[lo], Ordered(values)[lo + 1];
    assert p - a == (b - a) * (pos - lo as real);
    assert 0.0 < pos - lo as real < 1.0;
    Inside(a, b, pos - lo as real, p);
    forall i | 0 <= i < |values| ensures i <= lo ==> Ordered(values)[i] < p
                                 ensures i > lo ==> Ordered(values)[i] >= p {
      if i <= lo {
        OrderedAscends(values, i, lo);
      } else {
        OrderedAscends(values, lo + 1, i);
      }
    }
    BelowExactly(Ordered(values), p, lo + 1);
    BelowOrdered(values, p);
  }

  lemma BelowOrdered(values: seq<real>, x: real)
    ensures Below(Ordered(values), x) == Below(values, x)
  {
    BelowSort(values, x);
  }

  lemma Inside(a: real, b: real, f: real, p: real)
    requires a < b && 0.0 < f < 1.0 && p - a == (b - a) * f
    ensures a < p < b
  {
    Positive(b - a, f);
    PartIsLess(b - a, f, p - a);
  }

  lemma PartIsLess(x: real, f: real, part: real)
    requires x > 0.0 && f < 1.0 && part == x * f
    ensures part < x
  {
    var rest := x * (1.0 - f);
    Positive(x, 1.0 - f);
    assert rest + part == x;
  }

  lemma Positive(x: real, y: real)
    requires x > 0.0 && y > 0.0
    ensures x * y > 0.0
  {
  }

  lemma {:induction false} SortMembers(s: seq<real>, x: real)
    requires forall i :: 0 <= i < |s| ==> s[i] == x
    ensures forall i :: 0 <= i < |Ordered(s)| ==> Ordered(s)[i] == x
  {
    SortPermutes(s, Smaller);
    forall i | 0 <= i < |Ordered(s)| ensures Ordered(s)[i] == x {
      assert Ordered(s)[i] in multiset(Sort(s, Smaller));
      assert Ordered(s)[i] in multiset(s);
    }
  }

  /** When all values are equal, none lies below. */
  lemma {:induction false} NoneBelowEqual(values: seq<real>, q: real, x: real)
    requires 0.0 <= q <= 1.0 && values != [] && forall i :: 0 <= i < |values| ==> values[i] == x
    ensures PercentileOf(values, q) == x && Below(values, x) == 0
  {
    SortMembers(values, x);
    if |values| > 1 {
      var lo, hi := PercentileIsBetween(values, q);
    }
    BelowPrefix(values, x, 0);
  }
}
