/** Overlap and merging said outright: shares of area, and which boxes a merged box is drawn around. */
module MergedBoxes {
  import opened Boxes
  import opened Sorting

  function Size(b: Box): real {
    (b.x1 - b.x0) * (b.y1 - b.y0)
  }

  // ---------------------------------------------------------------- shares

  ghost predicate IsShared(a: Box, b: Box, c: Box) {
    forall d: Box :: Covers(c, d) <==> Covers(a, d) && Covers(b, d)
  }

  /** The ratio is the size of the largest box inside both over the size of all they cover. */
  lemma IouIsShare(a: Box, b: Box, c: Box)
    requires IsShared(a, b, c)
    ensures Size(c) > 0.0 && Iou(a, b) * (Size(a) + Size(b) - Size(c)) == Size(c)
  {
    SharedIs(a, b, c);
    hide *;
    SizeIsArea(a);
    SizeIsArea(b);
    SizeIsArea(c);
    ShareTimesWhole(a, b);
  }

  lemma SharedIs(a: Box, b: Box, c: Box)
    requires IsShared(a, b, c)
    ensures Common(a, b) == Area(c) > 0.0
  {
    assert Covers(c, c);
    var m := Corners(Max(a.x0, b.x0), Max(a.y0, b.y0), Min(a.x1, b.x1), Min(a.y1, b.y1));
    assert IsBox(m) && Covers(c, m);
    assert c == m;
    hide Extent;
    PartOfArea(c.x1 - c.x0, c.y1 - c.y0, c.x1 - c.x0, c.y1 - c.y0);
  }

  lemma SizeIsArea(b: Box)
    ensures Size(b) == Area(b)
  {
  }

  lemma ShareTimesWhole(a: Box, b: Box)
    requires Common(a, b) > 0.0
    ensures Iou(a, b) * (Area(a) + Area(b) - Common(a, b)) == Common(a, b)
  {
    hide Common, Area;
    var part, whole := Common(a, b), Whole(a, b);
    assert whole > 0.0 && (part / whole) * whole == part;
  }

  /** Boxes with no box inside both do not overlap; all others have a largest box inside both. */
  lemma SharedOrApart(a: Box, b: Box)
    ensures (forall d: Box :: !(Covers(a, d) && Covers(b, d))) || exists c :: IsShared(a, b, c)
    ensures (forall d: Box :: !(Covers(a, d) && Covers(b, d))) ==> Iou(a, b) == 0.0
  {
    var m := Corners(Max(a.x0, b.x0), Max(a.y0, b.y0), Min(a.x1, b.x1), Min(a.y1, b.y1));
    forall d: Box | Covers(a, d) && Covers(b, d) ensures IsBox(m) && IsShared(a, b, m) {
      assert m.x0 <= d.x0 && d.x1 <= m.x1 && m.y0 <= d.y0 && d.y1 <= m.y1;
    }
    assert IsBox(m) ==> Covers(a, m) && Covers(b, m);
  }

  // ---------------------------------------------------------------- from the largest on

  /** Those of one size, in order. */
  function OfSize(boxes: seq<Box>, size: real): seq<Box> {
    if boxes == [] then [] else (if Size(boxes[0]) == size then [boxes[0]] else []) + OfSize(boxes[1..], size)
  }

  ghost predicate FromLargest(boxes: seq<Box>, s: seq<Box>) {
    && multiset(s) == multiset(boxes)
    && (forall i, j :: 0 <= i < j < |s| ==> Size(s[i]) >= Size(s[j]))
    && forall size :: OfSize(s, size) == OfSize(boxes, size)
  }

  lemma {:induction false} ClassIsSize(boxes: seq<Box>, x: Box)
    ensures Class(boxes, x, Larger) == OfSize(boxes, Size(x))
  {
    if boxes != [] {
      ClassIsSize(boxes[1..], x);
      assert Alike(boxes[0], x, Larger) <==> Size(boxes[0]) == Size(x);
    }
  }

  lemma {:induction false} NoneOfSize(boxes: seq<Box>, size: real)
    requires forall b :: b in boxes ==> Size(b) != size
    ensures OfSize(boxes, size) == []
  {
    if boxes != [] {
      assert boxes[0] in boxes;
      NoneOfSize(boxes[1..], size);
    }
  }

  lemma {:induction false} SortIsFromLargest(boxes: seq<Box>, s: seq<Box>)
    ensures FromLargest(boxes, s) <==> s == Sort(boxes, Larger)
  {
    hide OfSize, Class, Sort;
    var t := Sort(boxes, Larger);
    LargerIsWeakOrder();
    SortSorts(boxes, Larger);
    SortPermutes(boxes, Larger);
    assert forall i, j :: 0 <= i < j < |t| ==> !Larger(t[j], t[i]) && Size(t[i]) >= Size(t[j]);
    forall size ensures OfSize(t, size) == OfSize(boxes, size) {
      SizesKept(boxes, size);
    }
    if FromLargest(boxes, s) {
      OnlyFromLargest(boxes, s, t);
    }
  }

  lemma {:induction false} SizesKept(boxes: seq<Box>, size: real)
    ensures OfSize(Sort(boxes, Larger), size) == OfSize(boxes, size)
  {
    hide OfSize, Class, Sort;
    var t := Sort(boxes, Larger);
    if b :| b in boxes && Size(b) == size {
      ClassIsSize(t, b);
      ClassIsSize(boxes, b);
      LargerIsWeakOrder();
      SortIsStable(boxes, b, Larger);
    } else {
      forall b | b in t ensures Size(b) != size {
        InSort(boxes, Larger, b);
      }
      NoneOfSize(t, size);
      NoneOfSize(boxes, size);
    }
  }

  lemma {:induction false} OnlyFromLargest(boxes: seq<Box>, s: seq<Box>, t: seq<Box>)
    requires FromLargest(boxes, s) && FromLargest(boxes, t)
    ensures s == t
  {
    hide OfSize, Class;
    forall x: Box ensures Class(s, x, Larger) == Class(t, x, Larger) {
      ClassIsSize(s, x);
      ClassIsSize(t, x);
    }
    LargerIsWeakOrder();
    LargestAreSorted(boxes, s);
    LargestAreSorted(boxes, t);
    StableIsUnique(s, t, Larger);
  }

  lemma LargestAreSorted(boxes: seq<Box>, s: seq<Box>)
    requires FromLargest(boxes, s)
    ensures Sorted(s, Larger)
  {
    hide OfSize;
  }

  // ---------------------------------------------------------------- whom a box follows

  /** Box `i` leads, or follows the first leader that it overlaps enough. */
  ghost predicate FollowsAt(s: seq<Box>, t: real, lead: seq<nat>, i: nat)
    requires |lead| == |s| && i < |s|
  {
    && lead[i] <= i
    && (lead[i] < i ==> lead[lead[i]] == lead[i] && Iou(s[lead[i]], s[i]) >= t)
    && forall j :: 0 <= j < lead[i] && lead[j] == j ==> Iou(s[j], s[i]) < t
  }

  ghost predicate Follow(s: seq<Box>, t: real, lead: seq<nat>) {
    |lead| == |s| && forall i :: 0 <= i < |s| ==> FollowsAt(s, t, lead, i)
  }

  /** The leaders from the first on. */
  ghost predicate Leaders(lead: seq<nat>, order: seq<nat>) {
    && (forall k :: 0 <= k < |order| ==> order[k] < |lead| && lead[order[k]] == order[k])
    && (forall i :: 0 <= i < |lead| ==> lead[i] in order)
    && (forall k, m :: 0 <= k < m < |order| ==> order[k] < order[m])
  }

  ghost predicate CoversFollowers(c: Box, s: seq<Box>, lead: seq<nat>, leader: nat) {
    forall i :: 0 <= i < |s| && i < |lead| && lead[i] == leader ==> Covers(c, s[i])
  }

  /** The least box around a leader and its followers. */
  ghost predicate DrawnAround(s: seq<Box>, lead: seq<nat>, leader: nat, b: Box) {
    forall c: Box :: Covers(c, b) <==> CoversFollowers(c, s, lead, leader)
  }

  /** One box for each leader, from the first on. */
  ghost predicate Merged(s: seq<Box>, t: real, lead: seq<nat>, order: seq<nat>, merged: seq<Box>) {
    && Follow(s, t, lead)
    && Leaders(lead, order)
    && |merged| == |order|
    && forall k :: 0 <= k < |order| ==> DrawnAround(s, lead, order[k], merged[k])
  }

  lemma {:induction false} OneFollow(s: seq<Box>, t: real, a: seq<nat>, b: seq<nat>, i: nat)
    requires Follow(s, t, a) && Follow(s, t, b) && i < |s|
    ensures a[i] == b[i]
  {
    hide Iou;
    assert FollowsAt(s, t, a, i) && FollowsAt(s, t, b, i);
    if a[i] < i {
      OneFollow(s, t, a, b, a[i]);
    }
    if b[i] < i {
      OneFollow(s, t, a, b, b[i]);
    }
  }

  lemma {:induction false} OneOrder(lead: seq<nat>, a: seq<nat>, b: seq<nat>, k: nat)
    requires Leaders(lead, a) && Leaders(lead, b) && k < |a|
    ensures k < |b| && a[k] == b[k]
  {
    forall j | 0 <= j < k ensures j < |b| && a[j] == b[j] {
      OneOrder(lead, a, b, j);
    }
    assert lead[a[k]] in b;
    var m :| 0 <= m < |b| && b[m] == a[k];
    assert m >= k;
    assert lead[b[k]] in a;
    var n :| 0 <= n < |a| && a[n] == b[k];
    assert n >= k;
  }

  lemma {:induction false} OrderIsOne(lead: seq<nat>, a: seq<nat>, b: seq<nat>)
    requires Leaders(lead, a) && Leaders(lead, b)
    ensures a == b
  {
    if |a| < |b| {
      OneOrder(lead, b, a, |a|);
    } else if |b| < |a| {
      OneOrder(lead, a, b, |b|);
    }
    forall k | 0 <= k < |a| ensures a[k] == b[k] {
      OneOrder(lead, a, b, k);
    }
  }

  lemma SameBox(a: Box, b: Box)
    requires forall c: Box :: Covers(c, a) <==> Covers(c, b)
    ensures a == b
  {
    assert Covers(a, a) && Covers(b, b);
  }

  lemma {:induction false} OnlyMerged(s: seq<Box>, t: real, a: seq<nat>, b: seq<nat>, o: seq<nat>, p: seq<nat>,
                                      m: seq<Box>, n: seq<Box>)
    requires Merged(s, t, a, o, m) && Merged(s, t, b, p, n)
    ensures m == n
  {
    hide FollowsAt, CoversFollowers;
    forall i | 0 <= i < |s| ensures a[i] == b[i] {
      OneFollow(s, t, a, b, i);
    }
    assert a == b;
    OrderIsOne(a, o, p);
    forall k | 0 <= k < |m| ensures m[k] == n[k] {
      assert DrawnAround(s, a, o[k], m[k]) && DrawnAround(s, a, o[k], n[k]);
      SameBox(m[k], n[k]);
    }
  }

  // ---------------------------------------------------------------- one more box

  /** The first leader that overlaps the box enough takes it. */
  function Place(groups: seq<Group>, b: Box, t: real): seq<Group> {
    if groups == [] then [[b]]
    else if Iou(groups[0][0], b) >= t then [groups[0] + [b]] + groups[1..]
    else [groups[0]] + Place(groups[1..], b, t)
  }

  lemma {:induction false} GroupsOneMore(s: seq<Box>, b: Box, t: real)
    ensures Groups(s + [b], t) == Place(Groups(s, t), b, t)
    decreases |s|
  {
    hide Iou;
    if s == [] {
      OneGroup(b, t);
      assert s + [b] == [b];
    } else {
      var seed := s[0];
      assert (s + [b])[1..] == s[1..] + [b] && (s + [b])[0] == seed;
      SplitOneMore(seed, s[1..], b, t);
      var near, far := Near(seed, s[1..], t), Far(seed, s[1..], t);
      assert Groups(s, t) == [[seed] + near] + Groups(far, t);
      if Iou(seed, b) >= t {
        assert [seed] + (near + [b]) == [seed] + near + [b];
        assert far + [] == far;
      } else {
        GroupsOneMore(far, b, t);
        assert near + [] == near;
      }
    }
  }

  ghost predicate Mirrors(s: seq<Box>, lead: seq<nat>, order: seq<nat>, groups: seq<Group>) {
    && |groups| == |order|
    && (forall k :: 0 <= k < |order| ==> order[k] < |s| && groups[k][0] == s[order[k]])
    && forall k :: 0 <= k < |order| ==> DrawnAround(s, lead, order[k], Outer(groups[k]))
  }

  /** How the groups stand to the leaders. */
  ghost predicate Stage(s: seq<Box>, t: real, lead: seq<nat>, order: seq<nat>, groups: seq<Group>) {
    Follow(s, t, lead) && Leaders(lead, order) && Mirrors(s, lead, order, groups)
  }

  /** The group that `Place` adds to, or a new one behind the others. */
  function Taker(groups: seq<Group>, b: Box, t: real): (k: nat)
    ensures k <= |groups|
  {
    if groups == [] then 0 else if Iou(groups[0][0], b) >= t then 0 else 1 + Taker(groups[1..], b, t)
  }

  lemma {:induction false} PlaceAtTaker(groups: seq<Group>, b: Box, t: real)
    ensures var k := Taker(groups, b, t);
      && (forall j :: 0 <= j < k ==> Iou(groups[j][0], b) < t)
      && (k < |groups| ==> Iou(groups[k][0], b) >= t && Place(groups, b, t) == groups[k := groups[k] + [b]])
      && (k == |groups| ==> Place(groups, b, t) == groups + [[b]])
  {
    if groups != [] && Iou(groups[0][0], b) < t {
      PlaceAtTaker(groups[1..], b, t);
    }
  }

  lemma {:induction false} FollowOneMore(s: seq<Box>, b: Box, t: real, lead: seq<nat>, leader: nat)
    requires Follow(s, t, lead) && leader <= |s|
    requires leader < |s| ==> lead[leader] == leader && Iou(s[leader], b) >= t
    requires forall j :: 0 <= j < leader && lead[j] == j ==> Iou(s[j], b) < t
    ensures Follow(s + [b], t, lead + [leader])
  {
    hide Iou;
    var s', lead' := s + [b], lead + [leader];
    forall i | 0 <= i < |s'| ensures FollowsAt(s', t, lead', i) {
      if i < |s| {
        assert FollowsAt(s, t, lead, i);
      }
    }
  }

  lemma {:induction false} DrawnBefore(s: seq<Box>, b: Box, lead: seq<nat>, leader: nat, other: nat, box: Box)
    requires |lead| == |s| && leader != other && DrawnAround(s, lead, other, box)
    ensures DrawnAround(s + [b], lead + [leader], other, box)
  {
    forall c: Box ensures CoversFollowers(c, s + [b], lead + [leader], other) <==> CoversFollowers(c, s, lead, other) {
      if CoversFollowers(c, s + [b], lead + [leader], other) {
        forall i | 0 <= i < |s| && lead[i] == other ensures Covers(c, s[i]) {
          assert (s + [b])[i] == s[i] && (lead + [leader])[i] == lead[i];
        }
      }
    }
  }

  lemma {:induction false} FollowersOneMore(c: Box, s: seq<Box>, b: Box, lead: seq<nat>, leader: nat)
    requires |lead| == |s|
    ensures CoversFollowers(c, s + [b], lead + [leader], leader)
      <==> CoversFollowers(c, s, lead, leader) && Covers(c, b)
  {
    var s', lead' := s + [b], lead + [leader];
    if CoversFollowers(c, s', lead', leader) {
      assert s'[|s|] == b && lead'[|s|] == leader;
      forall i | 0 <= i < |s| && lead[i] == leader ensures Covers(c, s[i]) {
        assert s'[i] == s[i] && lead'[i] == lead[i];
      }
    }
  }

  lemma {:induction false} DrawnTaking(s: seq<Box>, b: Box, lead: seq<nat>, leader: nat, g: Group)
    requires |lead| == |s| && DrawnAround(s, lead, leader, Outer(g))
    ensures DrawnAround(s + [b], lead + [leader], leader, Outer(g + [b]))
  {
    hide CoversFollowers;
    assert (g + [b])[..|g|] == g;
    assert Outer(g + [b]) == Join(Outer(g), b);
    forall c: Box
      ensures Covers(c, Outer(g + [b])) <==> CoversFollowers(c, s + [b], lead + [leader], leader)
    {
      JoinIsLeast(c, Outer(g), b);
      FollowersOneMore(c, s, b, lead, leader);
    }
  }

  lemma {:induction false} DrawnFirst(s: seq<Box>, b: Box, t: real, lead: seq<nat>)
    requires Follow(s, t, lead)
    ensures DrawnAround(s + [b], lead + [|s|], |s|, b)
  {
    forall c: Box ensures CoversFollowers(c, s, lead, |s|) {
      forall i | 0 <= i < |s| ensures lead[i] < |s| {
        assert FollowsAt(s, t, lead, i);
      }
    }
    forall c: Box ensures CoversFollowers(c, s + [b], lead + [|s|], |s|) <==> Covers(c, b) {
      FollowersOneMore(c, s, b, lead, |s|);
    }
  }

  /** An earlier leader overlaps the box too little. */
  lemma {:induction false} PassedOver(s: seq<Box>, b: Box, t: real, lead: seq<nat>, order: seq<nat>,
                                      groups: seq<Group>, k: nat)
    requires Leaders(lead, order) && |groups| == |order| && k <= |order| && |lead| == |s|
    requires forall j :: 0 <= j < |order| ==> order[j] < |s| && groups[j][0] == s[order[j]]
    requires forall j :: 0 <= j < k ==> Iou(groups[j][0], b) < t
    ensures forall j :: 0 <= j < (if k < |order| then order[k] else |s|) && lead[j] == j ==> Iou(s[j], b) < t
  {
    forall j | 0 <= j < (if k < |order| then order[k] else |s|) && lead[j] == j ensures Iou(s[j], b) < t {
      assert lead[j] in order;
      var m :| 0 <= m < |order| && order[m] == j;
      assert m < k;
    }
  }

  lemma {:induction false} Joins(s: seq<Box>, b: Box, t: real, lead: seq<nat>, order: seq<nat>, groups: seq<Group>,
                                 k: nat)
    requires Stage(s, t, lead, order, groups) && k < |order|
    requires Iou(s[order[k]], b) >= t
    requires forall j :: 0 <= j < order[k] && lead[j] == j ==> Iou(s[j], b) < t
    ensures Stage(s + [b], t, lead + [order[k]], order, groups[k := groups[k] + [b]])
  {
    hide FollowsAt, DrawnAround, Outer, Iou;
    FollowOneMore(s, b, t, lead, order[k]);
    assert Leaders(lead + [order[k]], order);
    var groups' := groups[k := groups[k] + [b]];
    forall m | 0 <= m < |order| ensures DrawnAround(s + [b], lead + [order[k]], order[m], Outer(groups'[m])) {
      if m == k {
        DrawnTaking(s, b, lead, order[k], groups[k]);
      } else {
        assert order[m] != order[k];
        DrawnBefore(s, b, lead, order[k], order[m], Outer(groups[m]));
      }
    }
    assert Mirrors(s + [b], lead + [order[k]], order, groups');
  }

  lemma {:induction false} Starts(s: seq<Box>, b: Box, t: real, lead: seq<nat>, order: seq<nat>, groups: seq<Group>)
    requires Stage(s, t, lead, order, groups)
    requires forall j :: 0 <= j < |s| && lead[j] == j ==> Iou(s[j], b) < t
    ensures Stage(s + [b], t, lead + [|s|], order + [|s|], groups + [[b]])
  {
    hide FollowsAt, DrawnAround, Outer, Iou;
    FollowOneMore(s, b, t, lead, |s|);
    assert Leaders(lead + [|s|], order + [|s|]);
    var order', groups' := order + [|s|], groups + [[b]];
    forall m | 0 <= m < |order'| ensures DrawnAround(s + [b], lead + [|s|], order'[m], Outer(groups'[m])) {
      if m == |order| {
        DrawnFirst(s, b, t, lead);
        OuterOfOne(b);
      } else {
        DrawnBefore(s, b, lead, |s|, order[m], Outer(groups[m]));
      }
    }
    assert Mirrors(s + [b], lead + [|s|], order', groups');
  }

  lemma {:induction false} StageOneMore(s: seq<Box>, b: Box, t: real, lead: seq<nat>, order: seq<nat>,
                                        groups: seq<Group>)
    returns (lead': seq<nat>, order': seq<nat>)
    requires Stage(s, t, lead, order, groups)
    ensures Stage(s + [b], t, lead', order', Place(groups, b, t))
  {
    hide FollowsAt, DrawnAround, Place, Outer, Iou, Leaders;
    PlaceAtTaker(groups, b, t);
    var k := Taker(groups, b, t);
    PassedOver(s, b, t, lead, order, groups, k);
    if k < |order| {
      lead', order' := lead + [order[k]], order;
      Joins(s, b, t, lead, order, groups, k);
    } else {
      lead', order' := lead + [|s|], order + [|s|];
      Starts(s, b, t, lead, order, groups);
    }
  }

  lemma OuterOfOne(b: Box)
    ensures Outer([b]) == b
  {
  }

  lemma {:induction false} GroupsAreStage(s: seq<Box>, t: real) returns (lead: seq<nat>, order: seq<nat>)
    ensures Stage(s, t, lead, order, Groups(s, t))
  {
    hide Follow, Leaders, Mirrors;
    if s == [] {
      lead, order := [], [];
      assert Stage(s, t, lead, order, Groups(s, t)) by { NoStage(t); }
    } else {
      var front, b := s[..|s| - 1], s[|s| - 1];
      lead, order := GroupsAreStage(front, t);
      GroupsOneMore(front, b, t);
      assert front + [b] == s;
      lead, order := StageOneMore(front, b, t, lead, order, Groups(front, t));
    }
  }

  lemma NoStage(t: real)
    ensures Stage([], t, [], [], [])
  {
  }

  /** What merging returns: taking the boxes from the largest on, equals in the order they came,
      each joins the first leader that it overlaps enough or leads itself; the result is the least
      box around each leader and its followers, in the order of the leaders. */
  lemma {:induction false} MergedIff(boxes: seq<Box>, t: real, merged: seq<Box>)
    ensures merged == Outers(Groups(Sort(boxes, Larger), t)) <==>
      exists s, lead, order :: FromLargest(boxes, s) && Merged(s, t, lead, order, merged)
  {
    hide *;
    var s := Sort(boxes, Larger);
    SortIsFromLargest(boxes, s);
    var lead, order := GroupsAreStage(s, t);
    var all := Outers(Groups(s, t));
    StageIsMerged(s, t, lead, order);
    if s', lead', order' :| FromLargest(boxes, s') && Merged(s', t, lead', order', merged) {
      SortIsFromLargest(boxes, s');
      OnlyMerged(s, t, lead, lead', order, order', all, merged);
    }
  }

  lemma StageIsMerged(s: seq<Box>, t: real, lead: seq<nat>, order: seq<nat>)
    requires Stage(s, t, lead, order, Groups(s, t))
    ensures Merged(s, t, lead, order, Outers(Groups(s, t)))
  {
    hide Follow, Leaders, Groups, Outers, DrawnAround;
  }
}
