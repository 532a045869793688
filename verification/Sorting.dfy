/** Stable sorting by a strict weak order, as the host language's `sorted` does it. */
module Sorting {
  ghost predicate WeakOrder<T(!new)>(less: (T, T) -> bool) {
    && (forall a, b :: less(a, b) ==> !less(b, a))
    && (forall a, b, c :: less(a, c) ==> less(a, b) || less(b, c))
  }

  /** No two different elements of `s` compare equal. */
  ghost predicate Decides<T>(s: seq<T>, less: (T, T) -> bool) {
    forall x, y :: x in s && y in s ==> x == y || less(x, y) || less(y, x)
  }

  ghost predicate Sorted<T>(s: seq<T>, less: (T, T) -> bool) {
    forall i, j :: 0 <= i < j < |s| ==> !less(s[j], s[i])
  }

  /** `x` goes before every element that is not smaller, so equals keep their order. */
  function Insert<T>(x: T, s: seq<T>, less: (T, T) -> bool): seq<T> {
    if s == [] || !less(s[0], x) then [x] + s else [s[0]] + Insert(x, s[1..], less)
  }

  function Sort<T>(s: seq<T>, less: (T, T) -> bool): seq<T> {
    if s == [] then [] else Insert(s[0], Sort(s[1..], less), less)
  }

  lemma {:induction false} InsertPermutes<T>(x: T, s: seq<T>, less: (T, T) -> bool)
    ensures multiset(Insert(x, s, less)) == multiset([x]) + multiset(s)
  {
    if s != [] && less(s[0], x) {
      InsertPermutes(x, s[1..], less);
      assert s == [s[0]] + s[1..];
    }
  }

  lemma {:induction false} SortPermutes<T>(s: seq<T>, less: (T, T) -> bool)
    ensures multiset(Sort(s, less)) == multiset(s)
  {
    if s != [] {
      SortPermutes(s[1..], less);
      InsertPermutes(s[0], Sort(s[1..], less), less);
      assert s == [s[0]] + s[1..];
    }
  }

  lemma {:induction false} InsertSorts<T(!new)>(x: T, s: seq<T>, less: (T, T) -> bool)
    requires WeakOrder(less) && Sorted(s, less)
    ensures Sorted(Insert(x, s, less), less)
  {
    if s != [] && less(s[0], x) {
      InsertSorts(x, s[1..], less);
      var r := Insert(x, s[1..], less);
      InsertPermutes(x, s[1..], less);
      forall y | y in r ensures !less(y, s[0]) {
        assert y in multiset(r);
        assert y == x || y in s[1..];
      }
    } else if s != [] {
      assert forall j :: 0 <= j < |s| ==> !less(s[j], s[0]);
    }
  }

  lemma {:induction false} SortSorts<T(!new)>(s: seq<T>, less: (T, T) -> bool)
    requires WeakOrder(less)
    ensures Sorted(Sort(s, less), less)
  {
    if s != [] {
      SortSorts(s[1..], less);
      InsertSorts(s[0], Sort(s[1..], less), less);
    }
  }

  predicate Alike<T>(a: T, b: T, less: (T, T) -> bool) {
    !less(a, b) && !less(b, a)
  }

  /** The elements that compare equal to `x`, in order. */
  function Class<T>(s: seq<T>, x: T, less: (T, T) -> bool): seq<T> {
    if s == [] then [] else (if Alike(s[0], x, less) then [s[0]] else []) + Class(s[1..], x, less)
  }

  lemma {:induction false} InsertIsStable<T(!new)>(y: T, s: seq<T>, x: T, less: (T, T) -> bool)
    requires WeakOrder(less)
    ensures Class(Insert(y, s, less), x, less) == Class([y] + s, x, less)
  {
    if s != [] && less(s[0], y) {
      InsertIsStable(y, s[1..], x, less);
      assert ([y] + s)[1..] == s && ([y] + s[1..])[1..] == s[1..];
    }
  }

  /** Elements that compare equal keep their order. */
  lemma {:induction false} SortIsStable<T(!new)>(s: seq<T>, x: T, less: (T, T) -> bool)
    requires WeakOrder(less)
    ensures Class(Sort(s, less), x, less) == Class(s, x, less)
  {
    if s != [] {
      SortIsStable(s[1..], x, less);
      InsertIsStable(s[0], Sort(s[1..], less), x, less);
      assert ([s[0]] + Sort(s[1..], less))[1..] == Sort(s[1..], less);
    }
  }

  lemma FirstIsUnique<T>(a: seq<T>, b: seq<T>, less: (T, T) -> bool)
    requires Decides(a, less) && Sorted(a, less) && Sorted(b, less)
    requires a != [] && b != [] && a[0] in b && b[0] in a
    ensures a[0] == b[0]
  {
    var i :| 0 <= i < |a| && a[i] == b[0];
    var j :| 0 <= j < |b| && b[j] == a[0];
    if i > 0 && j > 0 {
      assert !less(a[i], a[0]) && !less(b[j], b[0]);
    }
  }

  lemma RestIsSorted<T>(s: seq<T>, less: (T, T) -> bool)
    requires s != [] && Sorted(s, less)
    ensures Sorted(s[1..], less) && (Decides(s, less) ==> Decides(s[1..], less))
  {
  }

  lemma RemoveFirst<T>(s: seq<T>)
    requires s != []
    ensures multiset(s[1..]) == multiset(s) - multiset{s[0]}
  {
    assert s == [s[0]] + s[1..];
  }

  lemma FirstsAgree<T>(a: seq<T>, b: seq<T>, less: (T, T) -> bool)
    requires Decides(a, less) && Sorted(a, less) && Sorted(b, less) && multiset(a) == multiset(b) && a != []
    ensures b != [] && a[0] == b[0] && multiset(a[1..]) == multiset(b[1..])
  {
    assert a[0] in multiset(b);
    assert b[0] in multiset(a);
    FirstIsUnique(a, b, less);
    RemoveFirst(a);
    RemoveFirst(b);
  }

  /** There is only one way to sort elements that all compare different. */
  lemma {:induction false} SortedIsUnique<T>(a: seq<T>, b: seq<T>, less: (T, T) -> bool)
    requires Decides(a, less) && Sorted(a, less) && Sorted(b, less) && multiset(a) == multiset(b)
    ensures a == b
  {
    if a == [] {
      assert |multiset(b)| == 0;
    } else {
      FirstsAgree(a, b, less);
      RestIsSorted(a, less);
      RestIsSorted(b, less);
      SortedIsUnique(a[1..], b[1..], less);
    }
  }

  lemma ClassFirst<T>(s: seq<T>, x: T, less: (T, T) -> bool)
    requires s != []
    ensures Class(s, x, less) == (if Alike(s[0], x, less) then [s[0]] else []) + Class(s[1..], x, less)
  {
  }

  /** Lists sorted alike, with the same elements and equals in the same order, begin alike. */
  lemma {:induction false} StableFirst<T(!new)>(a: seq<T>, b: seq<T>, less: (T, T) -> bool)
    requires WeakOrder(less) && Sorted(a, less) && Sorted(b, less) && multiset(a) == multiset(b)
    requires a != [] && b != [] && Class(a, a[0], less) == Class(b, a[0], less)
    ensures a[0] == b[0]
  {
    ClassFirst(a, a[0], less);
    ClassFirst(b, a[0], less);
    hide Class;
    assert a[0] in multiset(b) && b[0] in multiset(a);
    var i :| 0 <= i < |a| && a[i] == b[0];
    var j :| 0 <= j < |b| && b[j] == a[0];
    assert Alike(a[0], a[0], less) && Alike(b[0], a[0], less);
    assert Class(a, a[0], less)[0] == a[0] && Class(b, a[0], less)[0] == b[0];
  }

  lemma {:induction false} StableRest<T>(a: seq<T>, b: seq<T>, x: T, less: (T, T) -> bool)
    requires a != [] && b != [] && a[0] == b[0] && Class(a, x, less) == Class(b, x, less)
    ensures Class(a[1..], x, less) == Class(b[1..], x, less)
  {
    ClassFirst(a, x, less);
    ClassFirst(b, x, less);
    hide Class;
    if Alike(a[0], x, less) {
      assert Class(a[1..], x, less) == Class(a, x, less)[1..] && Class(b[1..], x, less) == Class(b, x, less)[1..];
    } else {
      assert Class(a[1..], x, less) == Class(a, x, less) && Class(b[1..], x, less) == Class(b, x, less);
    }
  }

  /** There is only one way to sort when equals keep their order. */
  lemma {:induction false} StableIsUnique<T(!new)>(a: seq<T>, b: seq<T>, less: (T, T) -> bool)
    requires WeakOrder(less) && Sorted(a, less) && Sorted(b, less) && multiset(a) == multiset(b)
    requires forall x :: Class(a, x, less) == Class(b, x, less)
    ensures a == b
  {
    assert |a| == |multiset(a)| == |multiset(b)| == |b|;
    if a != [] {
      StableFirst(a, b, less);
      RemoveFirst(a);
      RemoveFirst(b);
      RestIsSorted(a, less);
      RestIsSorted(b, less);
      forall x ensures Class(a[1..], x, less) == Class(b[1..], x, less) {
        StableRest(a, b, x, less);
      }
      StableIsUnique(a[1..], b[1..], less);
    }
  }

  ghost predicate NoRepeats<T>(s: seq<T>) {
    forall i, j :: 0 <= i < j < |s| ==> s[i] != s[j]
  }

  lemma {:induction false} InSort<T>(s: seq<T>, less: (T, T) -> bool, x: T)
    ensures x in Sort(s, less) <==> x in s
  {
    SortPermutes(s, less);
    assert x in multiset(Sort(s, less)) <==> x in multiset(s);
  }

  lemma {:induction false} DistinctMembers<T>(s: seq<T>, t: seq<T>)
    requires multiset(s) == multiset(t) && NoRepeats(s)
    ensures NoRepeats(t)
  {
    forall i, j | 0 <= i < j < |t| ensures t[i] != t[j] {
      if t[i] == t[j] {
        assert t == t[..i] + [t[i]] + t[i + 1..j] + [t[j]] + t[j + 1..];
        assert multiset(t)[t[i]] >= 2;
        OnceInDistinct(s, t[i]);
      }
    }
  }

  lemma {:induction false} OnceInDistinct<T>(s: seq<T>, x: T)
    requires NoRepeats(s)
    ensures multiset(s)[x] == if x in s then 1 else 0
  {
    if s != [] {
      OnceInDistinct(s[1..], x);
      assert s == [s[0]] + s[1..];
    }
  }

  lemma RemoveOne<T>(s: seq<T>, i: nat)
    requires i < |s|
    ensures multiset(s[..i] + s[i + 1..]) == multiset(s) - multiset{s[i]}
  {
    assert s == s[..i] + [s[i]] + s[i + 1..];
  }
}
