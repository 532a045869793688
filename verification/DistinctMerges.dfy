/** When the results of a merge overlap each other too little to be merged again. */
module DistinctMerges {
  import opened Sorting
  import opened Boxes

  function Merged(boxes: seq<Box>, threshold: real): seq<Box> {
    Outers(Groups(Sort(boxes, Larger), threshold))
  }

  ghost predicate AllApart(boxes: seq<Box>, threshold: real) {
    forall i, j :: 0 <= i < j < |boxes| ==> Iou(boxes[i], boxes[j]) < threshold
  }

  ghost predicate DrawnFrom(boxes: seq<Box>, family: iset<Box>) {
    forall b :: b in boxes ==> b in family
  }

  /** `seed` takes in every one of `boxes`. */
  ghost predicate Leads(seed: Box, boxes: seq<Box>, threshold: real) {
    forall b :: b in boxes ==> Area(seed) >= Area(b) && Iou(seed, b) >= threshold
  }

  /** Two seeds that do not meet, the second and its boxes no larger than the first and out of
      its reach, whose groups nevertheless overlap by the threshold once each is united. */
  ghost predicate Clash(a: Box, xs: seq<Box>, b: Box, ys: seq<Box>, threshold: real) {
    && Area(a) >= Area(b) && Iou(a, b) < threshold
    && Leads(a, xs, threshold) && Leads(b, ys, threshold)
    && (forall y :: y in ys ==> Iou(a, y) < threshold)
    && Iou(Outer([a] + xs), Outer([b] + ys)) >= threshold
  }

  /** No two boxes of the family clash, each with at most four others of it. */
  ghost predicate ClashFree(family: iset<Box>, threshold: real) {
    forall a, xs, b, ys ::
      a in family && b in family && DrawnFrom(xs, family) && DrawnFrom(ys, family) && |xs| <= 4 && |ys| <= 4
      ==> !Clash(a, xs, b, ys, threshold)
  }

  // ---------------------------------------------------------------- no clash, no overlap

  lemma {:induction false} EdgesAttained(boxes: seq<Box>) returns (left: Box, top: Box, right: Box, bottom: Box)
    requires boxes != []
    ensures left in boxes && top in boxes && right in boxes && bottom in boxes
    ensures Outer(boxes) == Corners(left.x0, top.y0, right.x1, bottom.y1)
  {
    var front, last := boxes[..|boxes| - 1], boxes[|boxes| - 1];
    left, top, right, bottom := last, last, last, last;
    if |boxes| > 1 {
      var l, t, r, b := EdgesAttained(front);
      left := if last.x0 < l.x0 then last else l;
      top := if last.y0 < t.y0 then last else t;
      right := if last.x1 > r.x1 then last else r;
      bottom := if last.y1 > b.y1 then last else b;
    }
  }

  lemma Antisymmetric(a: Corners, b: Corners)
    requires Covers(a, b) && Covers(b, a)
    ensures a == b
  {
  }

  lemma OuterCovers(boxes: seq<Box>, b: Box)
    requires b in boxes
    ensures Covers(Outer(boxes), b)
  {
    OuterIsLeast(boxes, Outer(boxes));
    var i :| 0 <= i < |boxes| && boxes[i] == b;
  }

  lemma OuterAscends(few: seq<Box>, many: seq<Box>)
    requires few != [] && many != [] && forall b :: b in few ==> b in many
    ensures Covers(Outer(many), Outer(few))
  {
    hide Outer, Covers;
    forall i | 0 <= i < |few| ensures Covers(Outer(many), few[i]) {
      OuterCovers(many, few[i]);
    }
    OuterIsLeast(few, Outer(many));
  }

  /** A group is as wide as its seed and four of its members. */
  lemma FourAreEnough(group: Group) returns (few: seq<Box>)
    ensures |few| == 4 && (forall b :: b in few ==> b in group)
    ensures Outer([group[0]] + few) == Outer(group)
  {
    hide Outer;
    var left, top, right, bottom := EdgesAttained(group);
    few := [left, top, right, bottom];
    var all := [group[0]] + few;
    OuterAscends(all, group);
    OuterCovers(all, left);
    OuterCovers(all, top);
    OuterCovers(all, right);
    OuterCovers(all, bottom);
    Antisymmetric(Outer(all), Outer(group));
  }

  lemma GroupLeads(group: Group, few: seq<Box>, threshold: real)
    requires SeedLeads(group, threshold) && threshold <= 1.0 && forall b :: b in few ==> b in group
    ensures Leads(group[0], few, threshold)
  {
    hide Iou, Area;
    IouMeasures(group[0], group[0]);
    forall b | b in few ensures Area(group[0]) >= Area(b) && Iou(group[0], b) >= threshold {
      var i :| 0 <= i < |group| && group[i] == b;
    }
  }

  /** Results that overlap come of a clash among the boxes that were merged. */
  lemma OverlapIsClash(boxes: seq<Box>, family: iset<Box>, threshold: real, i: nat, j: nat)
    returns (a: Box, xs: seq<Box>, b: Box, ys: seq<Box>)
    requires DrawnFrom(boxes, family)
    requires i < j < |Merged(boxes, threshold)|
    requires Iou(Merged(boxes, threshold)[i], Merged(boxes, threshold)[j]) >= threshold
    ensures a in family && b in family && DrawnFrom(xs, family) && DrawnFrom(ys, family) && |xs| == 4 == |ys|
    ensures Clash(a, xs, b, ys, threshold)
  {
    hide Iou, Area, Groups, Sort, Outer;
    MergePartitions(boxes, threshold);
    var groups := Groups(Sort(boxes, Larger), threshold);
    var g, h := groups[i], groups[j];
    IouMeasures(Outer(g), Outer(h));
    a, b := g[0], h[0];
    xs := FourAreEnough(g);
    ys := FourAreEnough(h);
    GroupLeads(g, xs, threshold);
    GroupLeads(h, ys, threshold);
    assert Apart(a, h, threshold);
    assert a in g && b in h;
    SortPermutes(boxes, Larger);
    forall x | x in g + h ensures x in boxes {
      InGroups(Sort(boxes, Larger), threshold, if x in g then i else j, x);
      assert x in multiset(boxes);
    }
  }

  // ---------------------------------------------------------------- a clash makes results overlap

  lemma LargestComesFirst(x: Box, boxes: seq<Box>)
    requires forall b :: b in boxes ==> !Larger(b, x)
    ensures Sort([x] + boxes, Larger) == [x] + Sort(boxes, Larger)
  {
    hide Larger;
    var sorted := Sort(boxes, Larger);
    SortPermutes(boxes, Larger);
    assert ([x] + boxes)[1..] == boxes;
    assert sorted != [] ==> sorted[0] in multiset(sorted);
  }

  lemma {:induction false} FarAppend(seed: Box, front: seq<Box>, back: seq<Box>, threshold: real)
    ensures Far(seed, front + back, threshold) == Far(seed, front, threshold) + Far(seed, back, threshold)
  {
    hide Iou;
    if back == [] {
      assert front + back == front;
    } else {
      var last := back[|back| - 1];
      assert (front + back)[..|front + back| - 1] == front + back[..|back| - 1];
      FarAppend(seed, front, back[..|back| - 1], threshold);
    }
  }

  lemma FarOne(seed: Box, b: Box, threshold: real)
    ensures Far(seed, [b], threshold) == if Iou(seed, b) >= threshold then [] else [b]
  {
    hide Iou;
    assert [b][..0] == [];
  }

  lemma {:induction false} FarOfAlike(seed: Box, boxes: seq<Box>, threshold: real)
    ensures (forall b :: b in boxes ==> Iou(seed, b) >= threshold) ==> Far(seed, boxes, threshold) == []
    ensures (forall b :: b in boxes ==> Iou(seed, b) < threshold) ==> Far(seed, boxes, threshold) == boxes
  {
    hide Iou;
    if boxes != [] {
      FarOfAlike(seed, boxes[..|boxes| - 1], threshold);
    }
  }

  /** Leaving out what a seed takes and inserting in order can be swapped. */
  lemma {:induction false} FarInsert(seed: Box, x: Box, boxes: seq<Box>, threshold: real)
    requires Sorted(boxes, Larger)
    ensures Far(seed, Insert(x, boxes, Larger), threshold)
         == if Iou(seed, x) >= threshold then Far(seed, boxes, threshold)
            else Insert(x, Far(seed, boxes, threshold), Larger)
  {
    hide Iou, Larger, Far;
    FarOne(seed, x, threshold);
    if boxes == [] || !Larger(boxes[0], x) {
      FarAppend(seed, [x], boxes, threshold);
      FarIsNotLarger(seed, x, boxes, threshold);
    } else {
      var head, rest := boxes[0], boxes[1..];
      assert boxes == [head] + rest;
      FarInsert(seed, x, rest, threshold);
      FarOne(seed, head, threshold);
      FarAppend(seed, [head], Insert(x, rest, Larger), threshold);
      FarAppend(seed, [head], rest, threshold);
      var far := Far(seed, rest, threshold);
      assert ([head] + far)[1..] == far && [] + far == far;
      assert [] + Insert(x, far, Larger) == Insert(x, far, Larger);
    }
  }

  lemma FarIsNotLarger(seed: Box, x: Box, boxes: seq<Box>, threshold: real)
    requires Sorted(boxes, Larger) && (boxes == [] || !Larger(boxes[0], x))
    ensures Insert(x, Far(seed, boxes, threshold), Larger) == [x] + Far(seed, boxes, threshold)
  {
    hide Iou, Extent, Far;
    var far := Far(seed, boxes, threshold);
    NearAndFar(seed, boxes, threshold);
    if far != [] {
      assert far[0] in boxes;
      var k :| 0 <= k < |boxes| && boxes[k] == far[0];
      assert k > 0 ==> !Larger(boxes[k], boxes[0]);
    }
  }

  lemma {:induction false} FarSort(seed: Box, boxes: seq<Box>, threshold: real)
    ensures Far(seed, Sort(boxes, Larger), threshold) == Sort(Far(seed, boxes, threshold), Larger)
  {
    hide Iou, Larger, Far;
    if boxes == [] {
      FarOfAlike(seed, [], threshold);
    } else {
      var rest := boxes[1..];
      FarSort(seed, rest, threshold);
      LargerIsWeakOrder();
      SortSorts(rest, Larger);
      FarInsert(seed, boxes[0], Sort(rest, Larger), threshold);
      assert boxes == [boxes[0]] + rest;
      FarAppend(seed, [boxes[0]], rest, threshold);
      FarOne(seed, boxes[0], threshold);
      var far := Far(seed, rest, threshold);
      assert ([boxes[0]] + far)[1..] == far && [] + far == far;
    }
  }

  /** What a seed takes of some boxes, once the rest are set apart. */
  lemma NearIsRest(seed: Box, boxes: seq<Box>, near: seq<Box>, threshold: real)
    requires multiset(boxes) == multiset(near) + multiset(Far(seed, boxes, threshold))
    ensures Outer([seed] + Near(seed, boxes, threshold)) == Outer([seed] + near)
  {
    hide Iou, Near, Far, Outer, Covers;
    NearAndFar(seed, boxes, threshold);
    var found, far := Near(seed, boxes, threshold), multiset(Far(seed, boxes, threshold));
    assert multiset(found) == multiset(boxes) - far == multiset(near);
    SameOuter(seed, found, near);
  }

  lemma SameOuter(seed: Box, a: seq<Box>, b: seq<Box>)
    requires multiset(a) == multiset(b)
    ensures Outer([seed] + a) == Outer([seed] + b)
  {
    hide Outer, Covers;
    assert forall x :: x in a <==> x in multiset(a);
    assert forall x :: x in b <==> x in multiset(b);
    OuterAscends([seed] + a, [seed] + b);
    OuterAscends([seed] + b, [seed] + a);
    Antisymmetric(Outer([seed] + a), Outer([seed] + b));
  }

  /** Merging the boxes of a clash gives two results that overlap by the threshold. */
  lemma ClashOverlaps(a: Box, xs: seq<Box>, b: Box, ys: seq<Box>, threshold: real)
    requires Clash(a, xs, b, ys, threshold)
    ensures Merged([a] + ([b] + ys + xs), threshold) == [Outer([a] + xs), Outer([b] + ys)]
    ensures !AllApart(Merged([a] + ([b] + ys + xs), threshold), threshold)
  {
    hide Iou, Extent, Outer, Near, Far, Groups, Sort, Leads;
    var rest := [b] + ys + xs;
    var first, second := Sort(rest, Larger), Sort(ys, Larger);
    SortOfClash(a, xs, b, ys, threshold);
    FarOfClash(a, xs, b, ys, threshold);
    SortPermutes(rest, Larger);
    SortPermutes(ys, Larger);
    SortPermutes([b] + ys, Larger);
    assert multiset(first) == multiset(xs) + multiset([b] + second);
    NearIsRest(a, first, xs, threshold);
    NearIsRest(b, second, ys, threshold);
    GroupsOfTwo(a, first, b, second, threshold);
    OutersOfTwo([a] + Near(a, first, threshold), [b] + Near(b, second, threshold));
    var merged := Merged([a] + rest, threshold);
    assert Iou(merged[0], merged[1]) >= threshold;
  }

  lemma SortOfClash(a: Box, xs: seq<Box>, b: Box, ys: seq<Box>, threshold: real)
    requires Clash(a, xs, b, ys, threshold)
    ensures Sort([a] + ([b] + ys + xs), Larger) == [a] + Sort([b] + ys + xs, Larger)
    ensures Sort([b] + ys, Larger) == [b] + Sort(ys, Larger)
  {
    hide Iou, Extent, Outer, Sort;
    LargestComesFirst(a, [b] + ys + xs);
    LargestComesFirst(b, ys);
  }

  /** The first seed leaves the second and its boxes, which then takes all. */
  lemma FarOfClash(a: Box, xs: seq<Box>, b: Box, ys: seq<Box>, threshold: real)
    requires Clash(a, xs, b, ys, threshold)
    ensures Far(a, Sort([b] + ys + xs, Larger), threshold) == [b] + Sort(ys, Larger)
    ensures Far(b, Sort(ys, Larger), threshold) == []
  {
    hide Iou, Extent, Outer, Sort, Far;
    SortOfClash(a, xs, b, ys, threshold);
    FarSort(a, [b] + ys + xs, threshold);
    FarAppend(a, [b] + ys, xs, threshold);
    FarOfAlike(a, [b] + ys, threshold);
    FarOfAlike(a, xs, threshold);
    assert [b] + ys + [] == [b] + ys;
    FarOfAlike(b, ys, threshold);
    FarSort(b, ys, threshold);
    NothingToSort();
  }

  lemma NothingToSort()
    ensures var none: seq<Box> := []; Sort(none, Larger) == []
  {
  }

  lemma GroupsOfTwo(a: Box, first: seq<Box>, b: Box, second: seq<Box>, threshold: real)
    requires Far(a, first, threshold) == [b] + second && Far(b, second, threshold) == []
    ensures Groups([a] + first, threshold) == [[a] + Near(a, first, threshold), [b] + Near(b, second, threshold)]
  {
    hide Near, Far;
    assert ([a] + first)[1..] == first && ([b] + second)[1..] == second;
    var none: seq<Group> := Groups([], threshold);
    assert none == [];
    assert Groups([b] + second, threshold) == [[b] + Near(b, second, threshold)] + none;
    assert Groups([a] + first, threshold) == [[a] + Near(a, first, threshold)] + Groups([b] + second, threshold);
  }

  // ---------------------------------------------------------------- exactly when

  /** Merging never leaves two results that overlap by the threshold, whatever boxes of a family
      it is given, if and only if no two boxes of the family clash. */
  lemma MergesApartIff(family: iset<Box>, threshold: real)
    ensures (forall boxes :: DrawnFrom(boxes, family) ==> AllApart(Merged(boxes, threshold), threshold))
       <==> ClashFree(family, threshold)
  {
    hide Clash, Merged;
    if ClashFree(family, threshold) {
      forall boxes | DrawnFrom(boxes, family) ensures AllApart(Merged(boxes, threshold), threshold) {
        NoClashNoOverlap(boxes, family, threshold);
      }
    }
    if forall boxes :: DrawnFrom(boxes, family) ==> AllApart(Merged(boxes, threshold), threshold) {
      forall a, xs, b, ys |
        a in family && b in family && DrawnFrom(xs, family) && DrawnFrom(ys, family) && |xs| <= 4 && |ys| <= 4
        ensures !Clash(a, xs, b, ys, threshold)
      {
        assert DrawnFrom([a] + ([b] + ys + xs), family);
        if Clash(a, xs, b, ys, threshold) {
          ClashOverlaps(a, xs, b, ys, threshold);
        }
      }
    }
  }

  lemma NoClashNoOverlap(boxes: seq<Box>, family: iset<Box>, threshold: real)
    requires ClashFree(family, threshold) && DrawnFrom(boxes, family)
    ensures AllApart(Merged(boxes, threshold), threshold)
  {
    hide Clash, Merged, Iou;
    var merged := Merged(boxes, threshold);
    forall i, j | 0 <= i < j < |merged| ensures Iou(merged[i], merged[j]) < threshold {
      if Iou(merged[i], merged[j]) >= threshold {
        var a, xs, b, ys := OverlapIsClash(boxes, family, threshold, i, j);
      }
    }
  }

  /** In particular where a box covers every smaller one that overlaps it enough. */
  lemma CoveringMergesApart(boxes: seq<Box>, threshold: real)
    requires forall a, b :: a in boxes && b in boxes && Area(a) >= Area(b) && Iou(a, b) >= threshold ==> Covers(a, b)
    ensures AllApart(Merged(boxes, threshold), threshold)
  {
    hide Merged, Iou, Area, Covers, Outer;
    var family := iset b | b in boxes;
    forall a, xs, b, ys | a in family && b in family && DrawnFrom(xs, family) && DrawnFrom(ys, family)
      ensures !Clash(a, xs, b, ys, threshold)
    {
      if Clash(a, xs, b, ys, threshold) {
        SeedIsOuter(a, xs);
        SeedIsOuter(b, ys);
      }
    }
    NoClashNoOverlap(boxes, family, threshold);
  }

  lemma SeedIsOuter(seed: Box, boxes: seq<Box>)
    requires forall b :: b in boxes ==> Covers(seed, b)
    ensures Outer([seed] + boxes) == seed
  {
    hide Outer;
    var all := [seed] + boxes;
    OuterCovers(all, seed);
    forall i | 0 <= i < |all| ensures Covers(seed, all[i]) {
      assert i > 0 ==> all[i] in boxes;
    }
    OuterIsLeast(all, seed);
    Antisymmetric(Outer(all), seed);
  }
}
