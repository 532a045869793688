/** Boxes on a page: placing them on the displayed page, and merging repeated detections. */
module Boxes {
  import opened Reals
  import opened Wrappers
  import opened Sorting

  // ---------------------------------------------------------------- boxes

  datatype Corners = Corners(x0: real, y0: real, x1: real, y1: real)

  predicate IsBox(c: Corners) {
    0.0 <= c.x0 < c.x1 <= 1.0 && 0.0 <= c.y0 < c.y1 <= 1.0
  }

  /** Top-left origin, inside the unit square, and not degenerate. */
  type Box = c: Corners | IsBox(c) witness Corners(0.0, 0.0, 1.0, 1.0)

  datatype BoxError = PageNotPositive | UnsupportedRotation | Degenerate | OutsideUnitSquare | NoBoxes

  function MakeBox(c: Corners): Result<Box, BoxError> {
    if c.x1 <= c.x0 || c.y1 <= c.y0 then Failure(Degenerate)
    else if IsBox(c) then Success(c)
    else Failure(OutsideUnitSquare)
  }

  function Min(a: real, b: real): real { if b < a then b else a }

  function Max(a: real, b: real): real { if b > a then b else a }

  // ---------------------------------------------------------------- the displayed page

  const EPSILON: real := 0.000000001

  function ClampUnit(v: real): real {
    if v < EPSILON then 0.0 else if v > 1.0 - EPSILON then 1.0 else v
  }

  function Clamped(c: Corners): Corners {
    Corners(ClampUnit(c.x0), ClampUnit(c.y0), ClampUnit(c.x1), ClampUnit(c.y1))
  }

  /** A rectangle of the unrotated page, seen from its top-left corner, in units of the page. */
  function Upright(x0: real, y0: real, x1: real, y1: real, width: real, height: real): Corners
    requires width > 0.0 && height > 0.0
  {
    Corners(Min(x0, x1) / width, 1.0 - Max(y0, y1) / height, Max(x0, x1) / width, 1.0 - Min(y0, y1) / height)
  }

  /** A quarter turn clockwise of the unit square. */
  function Turned(c: Corners): Corners {
    Corners(1.0 - c.y1, c.x0, 1.0 - c.y0, c.x1)
  }

  function Turns(c: Corners, quarters: nat): Corners {
    if quarters == 0 then c else Turned(Turns(c, quarters - 1))
  }

  /** A rectangle by its edges, measured from the top-left corner of a page `w` by `h`. */
  datatype Edges = Edges(left: real, right: real, top: real, bottom: real, w: real, h: real) {
    predicate Proper() { w > 0.0 && h > 0.0 }

    /** The edges once the viewer has turned the page clockwise, quarter by quarter. */
    function Rotated(quarters: nat): Edges {
      if quarters == 0 then this
      else
        var e := Rotated(quarters - 1);
        Edges(e.h - e.bottom, e.h - e.top, e.left, e.right, e.h, e.w)
    }

    function Clamp(): Corners
      requires Proper()
    {
      Clamped(Fractions())
    }

    function Fractions(): Corners
      requires Proper()
    {
      Corners(left / w, top / h, right / w, bottom / h)
    }

    lemma {:induction false} RotatedUnfolded()
      ensures Rotated(1) == Edges(h - bottom, h - top, left, right, h, w)
      ensures Rotated(2) == Edges(w - right, w - left, h - bottom, h - top, w, h)
      ensures Rotated(3) == Edges(top, bottom, w - right, w - left, h, w)
    {
      assert Rotated(1) == Edges(h - bottom, h - top, left, right, h, w);
      assert Rotated(2) == Edges(w - right, w - left, h - bottom, h - top, w, h);
    }
  }

  method Rotate(left0: real, right0: real, top0: real, bottom0: real, w0: real, h0: real, turn: int)
    returns (left: real, right: real, top: real, bottom: real, w: real, h: real)
    requires turn in {0, 90, 180, 270}
    ensures Edges(left, right, top, bottom, w, h) == Edges(left0, right0, top0, bottom0, w0, h0).Rotated(turn / 90)
  {
    left, right, top, bottom, w, h := left0, right0, top0, bottom0, w0, h0;
    Edges(left, right, top, bottom, w, h).RotatedUnfolded();
    if turn == 90 {
      left, right, top, bottom := h - bottom, h - top, left, right;
      w, h := h, w;
    } else if turn == 180 {
      left, right, top, bottom := w - right, w - left, h - bottom, h - top;
    } else if turn == 270 {
      left, right, top, bottom := top, bottom, w - right, w - left;
      w, h := h, w;
    }
  }

  /** Places a rectangle on a page turned by `turn`. */
  method Place(x0: real, y0: real, x1: real, y1: real, width: real, height: real, turn: int) returns (c: Corners)
    requires width > 0.0 && height > 0.0 && turn in {0, 90, 180, 270}
    ensures c == Turns(Clamped(Upright(x0, y0, x1, y1, width, height)), turn / 90)
  {
    var loX, hiX := Min(x0, x1), Max(x0, x1);
    var loY, hiY := Min(y0, y1), Max(y0, y1);
    var left, right, top, bottom, w, h := Rotate(loX, hiX, height - hiY, height - loY, width, height, turn);
    RotatedClamp(x0, y0, x1, y1, width, height, turn / 90);
    c := Edges(left, right, top, bottom, w, h).Clamp();
  }

  method ToNormalised(x0: real, y0: real, x1: real, y1: real, pageWidth: real, pageHeight: real, rotation: int)
    returns (r: Result<Box, BoxError>)
    ensures r == if pageWidth <= 0.0 || pageHeight <= 0.0 then Failure(PageNotPositive)
                 else if rotation % 90 != 0 then Failure(UnsupportedRotation)
                 else MakeBox(Turns(Clamped(Upright(x0, y0, x1, y1, pageWidth, pageHeight)), rotation % 360 / 90))
  {
    if pageWidth <= 0.0 || pageHeight <= 0.0 {
      return Failure(PageNotPositive);
    }
    var turn := rotation % 360;
    RightAngles(rotation);
    if turn != 0 && turn != 90 && turn != 180 && turn != 270 {
      return Failure(UnsupportedRotation);
    }
    var c := Place(x0, y0, x1, y1, pageWidth, pageHeight, turn);
    r := MakeBox(c);
  }

  lemma RightAngles(rotation: int)
    ensures rotation % 90 == 0 <==> rotation % 360 in {0, 90, 180, 270}
  {
    var turn := rotation % 360;
    assert rotation == 90 * (4 * (rotation / 360) + turn / 90) + turn % 90;
    Remainder(rotation, 4 * (rotation / 360) + turn / 90, turn % 90);
    assert turn == 90 * (turn / 90) + turn % 90;
  }

  lemma Remainder(a: int, q: int, r: nat)
    requires a == 90 * q + r && r < 90
    ensures a % 90 == r
  {
  }

  lemma Divided(a: real, b: real)
    requires b > 0.0
    ensures (b - a) / b == 1.0 - a / b && (b - (b - a)) / b == a / b
  {
    assert (b - a) / b == b / b - a / b;
  }

  lemma UprightEdges(x0: real, y0: real, x1: real, y1: real, w: real, h: real)
    requires w > 0.0 && h > 0.0
    ensures var e := Edges(Min(x0, x1), Max(x0, x1), h - Max(y0, y1), h - Min(y0, y1), w, h);
      e.Fractions() == Upright(x0, y0, x1, y1, w, h)
  {
    Divided(Min(y0, y1), h);
    Divided(Max(y0, y1), h);
  }

  /** Turning the page and dividing by its sides is dividing and turning the unit square. */
  lemma {:induction false} RotatedFractions(e: Edges, quarters: nat)
    requires e.Proper()
    ensures e.Rotated(quarters).Proper() && e.Rotated(quarters).Fractions() == Turns(e.Fractions(), quarters)
  {
    if quarters > 0 {
      RotatedFractions(e, quarters - 1);
      var p := e.Rotated(quarters - 1);
      Divided(p.bottom, p.h);
      Divided(p.top, p.h);
    }
  }

  lemma {:induction false} RotatedClamp(x0: real, y0: real, x1: real, y1: real, w: real, h: real, quarters: nat)
    requires w > 0.0 && h > 0.0
    ensures var e := Edges(Min(x0, x1), Max(x0, x1), h - Max(y0, y1), h - Min(y0, y1), w, h).Rotated(quarters);
      e.Proper() && e.Clamp() == Turns(Clamped(Upright(x0, y0, x1, y1, w, h)), quarters)
  {
    UprightEdges(x0, y0, x1, y1, w, h);
    RotatedFractions(Edges(Min(x0, x1), Max(x0, x1), h - Max(y0, y1), h - Min(y0, y1), w, h), quarters);
    TurnedClamped(Upright(x0, y0, x1, y1, w, h), quarters);
  }

  /** Clamping treats both edges of the page alike. */
  lemma {:induction false} TurnedClamped(c: Corners, quarters: nat)
    ensures Clamped(Turns(c, quarters)) == Turns(Clamped(c), quarters)
  {
    if quarters > 0 {
      TurnedClamped(c, quarters - 1);
    }
  }

  datatype Point = Point(x: real, y: real)

  predicate Inside(p: Point, c: Corners) {
    c.x0 <= p.x <= c.x1 && c.y0 <= p.y <= c.y1
  }

  /** Where a point of the unrotated page is seen, in units of the page from its top-left corner. */
  function Seen(p: Point, width: real, height: real): Point
    requires width > 0.0 && height > 0.0
  {
    Point(p.x / width, 1.0 - p.y / height)
  }

  function TurnedPoint(p: Point): Point {
    Point(1.0 - p.y, p.x)
  }

  function PointTurns(p: Point, quarters: nat): Point {
    if quarters == 0 then p else TurnedPoint(PointTurns(p, quarters - 1))
  }

  lemma SharesAscend(a: real, b: real, side: real)
    requires side > 0.0
    ensures a / side <= b / side <==> a <= b
  {
    var u, v := a / side, b / side;
    assert u * side == a && v * side == b;
    if u <= v {
      assert (v - u) * side >= 0.0;
    } else {
      assert (u - v) * side > 0.0;
    }
  }

  predicate OffTheEdges(p: Point) {
    EPSILON <= p.x <= 1.0 - EPSILON && EPSILON <= p.y <= 1.0 - EPSILON
  }

  lemma ClampKeepsOrder(v: real, u: real)
    requires EPSILON <= u <= 1.0 - EPSILON
    ensures (ClampUnit(v) <= u <==> v <= u) && (u <= ClampUnit(v) <==> u <= v)
  {
  }

  lemma ClampKeepsInside(p: Point, c: Corners)
    requires OffTheEdges(p)
    ensures Inside(p, Clamped(c)) <==> Inside(p, c)
  {
    ClampKeepsOrder(c.x0, p.x);
    ClampKeepsOrder(c.x1, p.x);
    ClampKeepsOrder(c.y0, p.y);
    ClampKeepsOrder(c.y1, p.y);
  }

  lemma {:induction false} TurnsKeepInside(p: Point, c: Corners, quarters: nat)
    ensures Inside(PointTurns(p, quarters), Turns(c, quarters)) <==> Inside(p, c)
  {
    if quarters > 0 {
      TurnsKeepInside(p, c, quarters - 1);
    }
  }

  /** The returned box covers, on the displayed page, exactly the points the rectangle covered
      before: lower-left origin, upper-left origin and rotation agree. Clamping matters only to
      points within the tolerance of the page's edges, or off the page. */
  lemma {:induction false} PlacementKeepsPoints(x0: real, y0: real, x1: real, y1: real, w: real, h: real,
                                                quarters: nat, p: Point)
    requires w > 0.0 && h > 0.0 && OffTheEdges(Seen(p, w, h))
    ensures Inside(PointTurns(Seen(p, w, h), quarters), Turns(Clamped(Upright(x0, y0, x1, y1, w, h)), quarters))
      <==> Min(x0, x1) <= p.x <= Max(x0, x1) && Min(y0, y1) <= p.y <= Max(y0, y1)
  {
    hide OffTheEdges, Clamped, Turns, PointTurns;
    var c := Upright(x0, y0, x1, y1, w, h);
    TurnsKeepInside(Seen(p, w, h), Clamped(c), quarters);
    ClampKeepsInside(Seen(p, w, h), c);
    SharesAscend(Min(x0, x1), p.x, w);
    SharesAscend(p.x, Max(x0, x1), w);
    SharesAscend(Min(y0, y1), p.y, h);
    SharesAscend(p.y, Max(y0, y1), h);
  }

  /** Wherever the rectangle lay, its placement is on the page: it is only ever refused for being
      empty, and whether it is does not depend on the rotation. */
  lemma {:induction false} PlacementStaysOnPage(c: Corners, quarters: nat)
    ensures var b := Turns(Clamped(c), quarters);
      0.0 <= b.x0 <= 1.0 && 0.0 <= b.y0 <= 1.0 && 0.0 <= b.x1 <= 1.0 && 0.0 <= b.y1 <= 1.0
    ensures MakeBox(Turns(Clamped(c), quarters)) != Failure(OutsideUnitSquare)
    ensures MakeBox(Turns(Clamped(c), quarters)).Success? <==> MakeBox(Clamped(c)).Success?
  {
    if quarters > 0 {
      PlacementStaysOnPage(c, quarters - 1);
    }
  }

  /** The whole page fills the unit square whatever its rotation. */
  lemma {:induction false} WholePageFillsSquare(w: real, h: real, quarters: nat)
    requires w > 0.0 && h > 0.0
    ensures Turns(Clamped(Upright(0.0, 0.0, w, h, w, h)), quarters) == Corners(0.0, 0.0, 1.0, 1.0)
  {
    if quarters > 0 {
      WholePageFillsSquare(w, h, quarters - 1);
    }
  }

  // ---------------------------------------------------------------- union and overlap

  predicate Covers(c: Corners, b: Corners) {
    c.x0 <= b.x0 && c.y0 <= b.y0 && b.x1 <= c.x1 && b.y1 <= c.y1
  }

  /** Outermost edges of two boxes. */
  function Join(a: Box, b: Box): Box {
    Corners(Min(a.x0, b.x0), Min(a.y0, b.y0), Max(a.x1, b.x1), Max(a.y1, b.y1))
  }

  function Outer(boxes: seq<Box>): (c: Box)
    requires boxes != []
  {
    if |boxes| == 1 then boxes[0] else Join(Outer(boxes[..|boxes| - 1]), boxes[|boxes| - 1])
  }

  function Union(boxes: seq<Box>): Result<Box, BoxError> {
    if boxes == [] then Failure(NoBoxes) else Success(Outer(boxes))
  }

  ghost predicate CoversAll(c: Corners, boxes: seq<Box>) {
    forall i :: 0 <= i < |boxes| ==> Covers(c, boxes[i])
  }

  lemma JoinIsLeast(c: Corners, a: Box, b: Box)
    ensures Covers(c, Join(a, b)) <==> Covers(c, a) && Covers(c, b)
  {
  }

  lemma {:induction false} OuterIsLeast(boxes: seq<Box>, c: Corners)
    requires boxes != []
    ensures Covers(c, Outer(boxes)) <==> CoversAll(c, boxes)
  {
    if |boxes| > 1 {
      var front, last := boxes[..|boxes| - 1], boxes[|boxes| - 1];
      OuterIsLeast(front, c);
      JoinIsLeast(c, Outer(front), last);
      assert CoversAll(c, boxes) <==> CoversAll(c, front) && Covers(c, last);
    }
  }

  /** The union is refused for no boxes; otherwise it is the least box that covers every input. */
  lemma UnionIsLeast(boxes: seq<Box>, c: Corners)
    ensures Union(boxes) == Failure(NoBoxes) <==> boxes == []
    ensures boxes != [] ==> Union(boxes).Success? && (Covers(c, Union(boxes).value) <==> CoversAll(c, boxes))
  {
    if boxes != [] {
      OuterIsLeast(boxes, c);
    }
  }

  function Extent(width: real, height: real): real {
    width * height
  }

  function Area(b: Corners): real {
    Extent(b.x1 - b.x0, b.y1 - b.y0)
  }

  /** How far two intervals overlap; not positive when they do not. */
  function Overlap(lo: real, hi: real, lo': real, hi': real): real {
    Min(hi, hi') - Max(lo, lo')
  }

  lemma OverlapIsPart(lo: real, hi: real, lo': real, hi': real)
    ensures Overlap(lo, hi, lo', hi') == Overlap(lo', hi', lo, hi) <= hi - lo
    ensures Overlap(lo, hi, lo', hi') == hi - lo <==> lo' <= lo && hi <= hi'
  {
  }

  /** Area of the common part. */
  function Common(a: Corners, b: Corners): real {
    var w, h := Overlap(a.x0, a.x1, b.x0, b.x1), Overlap(a.y0, a.y1, b.y0, b.y1);
    if w <= 0.0 || h <= 0.0 then 0.0 else Extent(w, h)
  }

  lemma ProductsAscend(a: real, b: real, c: real, d: real)
    requires 0.0 < a <= c && 0.0 < b <= d
    ensures 0.0 < a * b <= c * d && (a * b == c * d ==> a == c && b == d)
  {
    assert c * d - a * b == (c - a) * d + a * (d - b);
    NotNegative(c - a, d);
    NotNegative(a, d - b);
    NotNegative(a, b);
  }

  lemma PartOfArea(w: real, h: real, width: real, height: real)
    requires w <= width && h <= height && 0.0 < width && 0.0 < height
    ensures var part, whole := if w <= 0.0 || h <= 0.0 then 0.0 else Extent(w, h), Extent(width, height);
      0.0 <= part <= whole && 0.0 < whole && (part == whole <==> w == width && h == height)
  {
    ProductsAscend(width, height, width, height);
    if w > 0.0 && h > 0.0 {
      ProductsAscend(w, h, width, height);
    }
  }

  lemma CommonIsSymmetric(a: Box, b: Box)
    ensures Common(a, b) == Common(b, a)
  {
    OverlapIsPart(a.x0, a.x1, b.x0, b.x1);
    OverlapIsPart(a.y0, a.y1, b.y0, b.y1);
  }

  lemma CommonIsWithin(a: Box, b: Box)
    requires Overlap(a.x0, a.x1, b.x0, b.x1) <= a.x1 - a.x0 && Overlap(a.y0, a.y1, b.y0, b.y1) <= a.y1 - a.y0
    ensures 0.0 <= Common(a, b) <= Area(a) && 0.0 < Area(a)
    ensures Common(a, b) == Area(a) <==>
      Overlap(a.x0, a.x1, b.x0, b.x1) == a.x1 - a.x0 && Overlap(a.y0, a.y1, b.y0, b.y1) == a.y1 - a.y0
  {
    PartOfArea(Overlap(a.x0, a.x1, b.x0, b.x1), Overlap(a.y0, a.y1, b.y0, b.y1), a.x1 - a.x0, a.y1 - a.y0);
  }

  /** The common part is no larger than a box, and as large only when the other covers it. */
  lemma CommonIsPart(a: Box, b: Box)
    ensures 0.0 <= Common(a, b) <= Area(a) && 0.0 < Area(a) && (Common(a, b) == Area(a) <==> Covers(b, a))
  {
    OverlapIsPart(a.x0, a.x1, b.x0, b.x1);
    OverlapIsPart(a.y0, a.y1, b.y0, b.y1);
    CommonIsWithin(a, b);
  }

  /** Area of either or both. */
  function Whole(a: Box, b: Box): (w: real)
    ensures w > 0.0 && Common(a, b) <= w
  {
    CommonIsPart(a, b);
    CommonIsPart(b, a);
    CommonIsSymmetric(a, b);
    Area(a) + Area(b) - Common(a, b)
  }

  /** Intersection over union. */
  function Iou(a: Box, b: Box): real {
    if Common(a, b) == 0.0 then 0.0 else Common(a, b) / Whole(a, b)
  }

  lemma ShareOfWhole(part: real, whole: real)
    requires 0.0 <= part <= whole && 0.0 < whole
    ensures 0.0 <= part / whole <= 1.0 && (part / whole == 1.0 <==> part == whole)
  {
    var r := part / whole;
    assert r * whole == part;
    if r < 0.0 {
      NotNegative(-r, whole);
    }
    assert (r - 1.0) * whole == part - whole && (1.0 - r) * whole == whole - part;
    if r > 1.0 {
      NotNegative(r - 1.0, whole);
    } else {
      NotNegative(1.0 - r, whole);
    }
  }

  /** The ratio is symmetric, between zero and one, and one only for equal boxes. */
  lemma IouMeasures(a: Box, b: Box)
    ensures Iou(a, b) == Iou(b, a) && 0.0 <= Iou(a, b) <= 1.0
    ensures Iou(a, b) == 1.0 <==> a == b
  {
    CommonIsSymmetric(a, b);
    CommonIsPart(a, b);
    CommonIsPart(b, a);
    ShareOfWhole(Common(a, b), Whole(a, b));
    assert Common(a, b) == Whole(a, b) <==> Common(a, b) == Area(a) && Common(a, b) == Area(b);
  }

  // ---------------------------------------------------------------- merging

  predicate Larger(a: Box, b: Box) { Area(a) > Area(b) }

  type Group = g: seq<Box> | g != [] witness [Corners(0.0, 0.0, 1.0, 1.0)]

  function Near(seed: Box, boxes: seq<Box>, threshold: real): seq<Box> {
    if boxes == [] then []
    else
      var near, last := Near(seed, boxes[..|boxes| - 1], threshold), boxes[|boxes| - 1];
      if Iou(seed, last) >= threshold then near + [last] else near
  }

  function Far(seed: Box, boxes: seq<Box>, threshold: real): (far: seq<Box>)
    ensures |far| <= |boxes|
  {
    if boxes == [] then []
    else
      var far, last := Far(seed, boxes[..|boxes| - 1], threshold), boxes[|boxes| - 1];
      if Iou(seed, last) >= threshold then far else far + [last]
  }

  /** Each group is a seed and the later boxes that overlap it enough. */
  function Groups(boxes: seq<Box>, threshold: real): seq<Group>
    decreases |boxes|
  {
    if boxes == [] then []
    else [[boxes[0]] + Near(boxes[0], boxes[1..], threshold)] + Groups(Far(boxes[0], boxes[1..], threshold), threshold)
  }

  function Outers(groups: seq<Group>): (r: seq<Box>)
    ensures |r| == |groups| && forall i :: 0 <= i < |r| ==> r[i] == Outer(groups[i])
  {
    if groups == [] then [] else [Outer(groups[0])] + Outers(groups[1..])
  }

  method SplitBySeed(seed: Box, boxes: seq<Box>, threshold: real) returns (group: Group, rest: seq<Box>)
    ensures group == [seed] + Near(seed, boxes, threshold) && rest == Far(seed, boxes, threshold)
  {
    group, rest := [seed], [];
    var i := 0;
    while i < |boxes|
      invariant i <= |boxes|
      invariant group == [seed] + Near(seed, boxes[..i], threshold) && rest == Far(seed, boxes[..i], threshold)
    {
      assert boxes[..i + 1][..i] == boxes[..i];
      if Iou(seed, boxes[i]) >= threshold {
        group := group + [boxes[i]];
      } else {
        rest := rest + [boxes[i]];
      }
      i := i + 1;
    }
    assert boxes[..i] == boxes;
  }

  lemma {:induction false} SeedGroup(boxes: seq<Box>, threshold: real, done: seq<Box>)
    requires boxes != []
    ensures var near, far := Near(boxes[0], boxes[1..], threshold), Far(boxes[0], boxes[1..], threshold);
      done + Outers(Groups(boxes, threshold)) == done + [Outer([boxes[0]] + near)] + Outers(Groups(far, threshold))
  {
    var groups := Groups(boxes, threshold);
    assert groups[1..] == Groups(Far(boxes[0], boxes[1..], threshold), threshold);
  }

  method MergeOverlapping(boxes: seq<Box>, threshold: real) returns (merged: seq<Box>)
    ensures merged == Outers(Groups(Sort(boxes, Larger), threshold))
  {
    var remaining := Sort(boxes, Larger);
    ghost var all := Outers(Groups(remaining, threshold));
    merged := [];
    while remaining != []
      invariant all == merged + Outers(Groups(remaining, threshold))
      decreases |remaining|
    {
      var current := remaining[0];
      var group, rest := SplitBySeed(current, remaining[1..], threshold);
      var box := current;
      if |group| > 1 {
        box := Outer(group);
      }
      SeedGroup(remaining, threshold, merged);
      merged, remaining := merged + [box], rest;
    }
  }

  // ---------------------------------------------------------------- what merging keeps

  ghost function Members(groups: seq<Group>): multiset<Box> {
    if groups == [] then multiset{} else multiset(groups[0]) + Members(groups[1..])
  }

  lemma {:induction false} NearAndFar(seed: Box, boxes: seq<Box>, threshold: real)
    ensures multiset(Near(seed, boxes, threshold)) + multiset(Far(seed, boxes, threshold)) == multiset(boxes)
    ensures forall b :: b in Near(seed, boxes, threshold) ==> b in boxes && Iou(seed, b) >= threshold
    ensures forall b :: b in Far(seed, boxes, threshold) ==> b in boxes && Iou(seed, b) < threshold
  {
    if boxes != [] {
      NearAndFar(seed, boxes[..|boxes| - 1], threshold);
      assert boxes == boxes[..|boxes| - 1] + [boxes[|boxes| - 1]];
    }
  }

  /** No box is lost, invented or put in two groups. */
  lemma {:induction false} GroupsPartition(boxes: seq<Box>, threshold: real)
    ensures Members(Groups(boxes, threshold)) == multiset(boxes)
    decreases |boxes|
  {
    if boxes != [] {
      var near, far := Near(boxes[0], boxes[1..], threshold), Far(boxes[0], boxes[1..], threshold);
      NearAndFar(boxes[0], boxes[1..], threshold);
      GroupsPartition(far, threshold);
      var groups := Groups(boxes, threshold);
      assert groups[0] == [boxes[0]] + near && groups[1..] == Groups(far, threshold);
      assert boxes == [boxes[0]] + boxes[1..];
    }
  }

  /** A group is a seed and smaller boxes that overlap it enough. */
  ghost predicate SeedLeads(g: Group, threshold: real) {
    forall i :: 1 <= i < |g| ==> Iou(g[0], g[i]) >= threshold && Area(g[0]) >= Area(g[i])
  }

  ghost predicate Apart(seed: Box, g: Group, threshold: real) {
    forall b :: b in g ==> Iou(seed, b) < threshold && Area(seed) >= Area(b)
  }

  lemma LargerIsWeakOrder()
    ensures WeakOrder(Larger)
  {
  }

  lemma {:induction false} FarIsSorted(seed: Box, boxes: seq<Box>, threshold: real)
    requires Sorted(boxes, Larger)
    ensures Sorted(Far(seed, boxes, threshold), Larger)
  {
    if boxes != [] {
      var front, last := boxes[..|boxes| - 1], boxes[|boxes| - 1];
      FarIsSorted(seed, front, threshold);
      NearAndFar(seed, front, threshold);
      assert forall b :: b in front ==> !Larger(last, b);
    }
  }

  lemma {:induction false} InGroups(boxes: seq<Box>, threshold: real, j: nat, b: Box)
    requires j < |Groups(boxes, threshold)| && b in Groups(boxes, threshold)[j]
    ensures b in boxes
    decreases |boxes|
  {
    var near, far := Near(boxes[0], boxes[1..], threshold), Far(boxes[0], boxes[1..], threshold);
    NearAndFar(boxes[0], boxes[1..], threshold);
    if j > 0 {
      InGroups(far, threshold, j - 1, b);
    }
  }

  lemma {:induction false} FirstSeedLeads(boxes: seq<Box>, threshold: real)
    requires Sorted(boxes, Larger) && boxes != []
    ensures SeedLeads(Groups(boxes, threshold)[0], threshold)
  {
    var near := Near(boxes[0], boxes[1..], threshold);
    NearAndFar(boxes[0], boxes[1..], threshold);
    forall i | 0 <= i < |near| ensures Iou(boxes[0], near[i]) >= threshold && Area(boxes[0]) >= Area(near[i]) {
      assert near[i] in near;
      assert forall b :: b in boxes[1..] ==> !Larger(b, boxes[0]);
    }
  }

  /** Every group is led by its largest box. */
  lemma {:induction false} EverySeedLeads(boxes: seq<Box>, threshold: real, i: nat)
    requires Sorted(boxes, Larger) && i < |Groups(boxes, threshold)|
    ensures SeedLeads(Groups(boxes, threshold)[i], threshold)
    decreases |boxes|
  {
    if i == 0 {
      FirstSeedLeads(boxes, threshold);
    } else {
      FarIsSorted(boxes[0], boxes[1..], threshold);
      EverySeedLeads(Far(boxes[0], boxes[1..], threshold), threshold, i - 1);
    }
  }

  lemma {:induction false} FirstSeedIsApart(boxes: seq<Box>, threshold: real, j: nat)
    requires Sorted(boxes, Larger) && 0 < j < |Groups(boxes, threshold)|
    ensures Apart(boxes[0], Groups(boxes, threshold)[j], threshold)
  {
    var far := Far(boxes[0], boxes[1..], threshold);
    NearAndFar(boxes[0], boxes[1..], threshold);
    forall b | b in Groups(far, threshold)[j - 1] ensures Iou(boxes[0], b) < threshold && Area(boxes[0]) >= Area(b) {
      InGroups(far, threshold, j - 1, b);
      assert b in boxes[1..] && forall c :: c in boxes[1..] ==> !Larger(c, boxes[0]);
    }
  }

  /** Every box of a later group overlaps an earlier seed too little, and is no larger. */
  lemma {:induction false} SeedsAreApart(boxes: seq<Box>, threshold: real, i: nat, j: nat)
    requires Sorted(boxes, Larger) && i < j < |Groups(boxes, threshold)|
    ensures Apart(Groups(boxes, threshold)[i][0], Groups(boxes, threshold)[j], threshold)
    decreases |boxes|
  {
    if i == 0 {
      FirstSeedIsApart(boxes, threshold, j);
    } else {
      FarIsSorted(boxes[0], boxes[1..], threshold);
      SeedsAreApart(Far(boxes[0], boxes[1..], threshold), threshold, i - 1, j - 1);
    }
  }

  /** What a merge returns: the boxes are split into groups, each led by a largest box that
      every other member overlaps enough; leaders overlap each other too little; and each
      result is the least box around its group. */
  lemma {:induction false} MergePartitions(boxes: seq<Box>, threshold: real)
    ensures var groups := Groups(Sort(boxes, Larger), threshold);
      var merged := Outers(groups);
      && Members(groups) == multiset(boxes)
      && |merged| == |groups|
      && (forall i :: 0 <= i < |groups| ==> SeedLeads(groups[i], threshold) && merged[i] == Outer(groups[i]))
      && (forall i, j :: 0 <= i < j < |groups| ==> Apart(groups[i][0], groups[j], threshold))
  {
    var sorted := Sort(boxes, Larger);
    var groups := Groups(sorted, threshold);
    LargerIsWeakOrder();
    SortSorts(boxes, Larger);
    SortPermutes(boxes, Larger);
    GroupsPartition(sorted, threshold);
    forall i | 0 <= i < |groups| ensures SeedLeads(groups[i], threshold) {
      EverySeedLeads(sorted, threshold, i);
    }
    forall i, j | 0 <= i < j < |groups| ensures Apart(groups[i][0], groups[j], threshold) {
      SeedsAreApart(sorted, threshold, i, j);
    }
  }

  const DEFAULT_THRESHOLD: real := 0.6

  lemma ThreeSorted(a: Box, b: Box, c: Box)
    requires Area(a) >= Area(b) >= Area(c)
    ensures Sort([a, b, c], Larger) == [a, b, c]
  {
    assert [c][1..] == [] && [b, c][1..] == [c] && [a, b, c][1..] == [b, c];
    assert Sort([c], Larger) == [c];
    assert Sort([b, c], Larger) == [b, c];
  }

  lemma {:induction false} SplitOneMore(seed: Box, front: seq<Box>, last: Box, threshold: real)
    ensures Near(seed, front + [last], threshold)
      == Near(seed, front, threshold) + if Iou(seed, last) >= threshold then [last] else []
    ensures Far(seed, front + [last], threshold)
      == Far(seed, front, threshold) + if Iou(seed, last) >= threshold then [] else [last]
  {
    assert (front + [last])[..|front|] == front;
  }

  lemma {:induction false} OneGroup(a: Box, threshold: real)
    ensures Groups([a], threshold) == [[a]]
  {
    assert [a][1..] == [];
    assert [a] + Near(a, [], threshold) == [a];
  }

  lemma {:induction false} TwoGroups(a: Box, b: Box, c: Box, threshold: real)
    requires Iou(a, b) >= threshold && Iou(a, c) < threshold
    ensures Groups([a, b, c], threshold) == [[a, b], [c]]
  {
    SplitOneMore(a, [], b, threshold);
    assert [] + [b] == [b];
    SplitOneMore(a, [b], c, threshold);
    assert [b] + [c] == [b, c] == [a, b, c][1..];
    assert [a] + [b] == [a, b];
    OneGroup(c, threshold);
  }

  lemma {:induction false} ThreeGrouped(a: Box, b: Box, c: Box, threshold: real)
    requires Iou(a, b) >= threshold && Iou(a, c) < threshold
    ensures Outers(Groups([a, b, c], threshold)) == [Join(a, b), c]
  {
    TwoGroups(a, b, c, threshold);
    OutersOfTwo([a, b], [c]);
    assert [a, b][..1] == [a];
  }

  lemma {:induction false} OutersOfTwo(g: Group, h: Group)
    ensures Outers([g, h]) == [Outer(g), Outer(h)]
  {
    assert Outers([g, h])[1] == Outer(h);
  }

  /** A strip of the page, as high as the page. */
  function Strip(from: real, to: real): Box
    requires 0.0 <= from < to <= 1.0
  {
    Corners(from, 0.0, to, 1.0)
  }

  lemma ShareAtLeast(part: real, whole: real, t: real)
    requires whole > 0.0
    ensures part / whole >= t <==> part >= t * whole
  {
    var r := part / whole;
    assert r * whole == part;
    assert (r - t) * whole == part - t * whole && (t - r) * whole == t * whole - part;
    if r >= t {
      NotNegative(r - t, whole);
    } else {
      NotNegative(t - r, whole);
    }
  }

  lemma StripExtents(a: real, b: real, c: real, d: real)
    requires 0.0 <= a < b <= 1.0 && 0.0 <= c < d <= 1.0 && a <= c < b <= d
    ensures Common(Strip(a, b), Strip(c, d)) == b - c && Whole(Strip(a, b), Strip(c, d)) == d - a
  {
    StripAreas(a, b);
    StripAreas(c, d);
  }

  lemma StripsOverlap(a: real, b: real, c: real, d: real, t: real)
    requires 0.0 <= a < b <= 1.0 && 0.0 <= c < d <= 1.0 && a <= c < b <= d
    ensures Iou(Strip(a, b), Strip(c, d)) >= t <==> b - c >= t * (d - a)
  {
    StripExtents(a, b, c, d);
    ShareAtLeast(b - c, d - a, t);
  }

  lemma StripAreas(a: real, b: real)
    requires 0.0 <= a < b <= 1.0
    ensures Area(Strip(a, b)) == b - a
  {
  }

  /** Results may still overlap, since seeds are compared but unions are returned: the union
      of two strips overlaps a third that its seed does not overlap enough. */
  lemma {:induction false} ResultsCanStillOverlap(b0: real, b1: real, c0: real, c1: real, t: real)
    requires 0.0 <= b0 <= c0 < b1 <= c1 <= 1.0 && c0 < 0.5 <= b1 && 0.5 >= b1 - b0 >= c1 - c0
    requires 0.5 - b0 >= t * b1 && 0.5 - c0 < t * c1 && b1 - c0 >= t * c1
    ensures var merged := Outers(Groups(Sort([Strip(0.0, 0.5), Strip(b0, b1), Strip(c0, c1)], Larger), t));
      |merged| == 2 && Iou(merged[0], merged[1]) >= t
  {
    var a, b, c := Strip(0.0, 0.5), Strip(b0, b1), Strip(c0, c1);
    StripAreas(0.0, 0.5);
    StripAreas(b0, b1);
    StripAreas(c0, c1);
    ThreeSorted(a, b, c);
    StripsOverlap(0.0, 0.5, b0, b1, t);
    StripsOverlap(0.0, 0.5, c0, c1, t);
    ThreeGrouped(a, b, c, t);
    assert Join(a, b) == Strip(0.0, b1);
    StripsOverlap(0.0, b1, c0, c1, t);
  }

  lemma ResultsCanStillOverlapByDefault()
    ensures exists boxes :: var merged := Outers(Groups(Sort(boxes, Larger), DEFAULT_THRESHOLD));
      |merged| == 2 && Iou(merged[0], merged[1]) >= DEFAULT_THRESHOLD
  {
    hide Sort, Groups, Iou;
    ResultsCanStillOverlap(0.1, 0.595, 0.15, 0.645, DEFAULT_THRESHOLD);
  }
}
