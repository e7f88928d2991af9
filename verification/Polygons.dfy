/** Fence polygons: validation, and what acceptance says about the shape. */
module Polygons {
  import opened Basics
  import opened Geometry

  datatype PolygonError = TooFewVertices | TooManyVertices | TooFewUnique | OutOfRange
                        | ZeroArea | EdgeTooShort | SelfIntersection
  datatype Verdict = Valid | Invalid(error: PolygonError)

  const MIN_AREA2 := 0.000001
  const MIN_EDGE := 0.005

  function Next(pts: seq<Point>, i: int): Point
    requires 0 <= i < |pts|
  {
    pts[(i + 1) % |pts|]
  }

  /** Twice the signed area of the fan, as a sum over the first n edges. */
  function Shoelace(pts: seq<Point>, n: nat): real
    requires n <= |pts|
  {
    if n == 0 then 0.0
    else Shoelace(pts, n - 1) + (pts[n - 1].x * Next(pts, n - 1).y - Next(pts, n - 1).x * pts[n - 1].y)
  }

  function EdgeLengthSquared(pts: seq<Point>, i: int): real
    requires 0 <= i < |pts|
  {
    (Next(pts, i).x - pts[i].x) * (Next(pts, i).x - pts[i].x) + (Next(pts, i).y - pts[i].y) * (Next(pts, i).y - pts[i].y)
  }

  /** Edges that share a vertex by construction, including the closing edge. */
  predicate Adjacent(n: int, i: int, j: int) {
    -1 <= i - j <= 1 || (i == 0 && j == n - 1) || (j == 0 && i == n - 1)
  }

  ghost predicate EdgesMeet(pts: seq<Point>, i: int, j: int)
    requires 0 <= i < |pts| && 0 <= j < |pts|
  {
    Meet(pts[i], Next(pts, i), pts[j], Next(pts, j))
  }

  ghost predicate NoCrossing(pts: seq<Point>) {
    forall i, j :: 0 <= i < j < |pts| && !Adjacent(|pts|, i, j) ==> !EdgesMeet(pts, i, j)
  }

  predicate InUnit(p: Point) { 0.0 <= p.x <= 1.0 && 0.0 <= p.y <= 1.0 }

  /** What each check lets through, in the order the checks are made. */
  ghost predicate Passes(pts: seq<Point>, e: PolygonError) {
    match e
    case TooFewVertices => 3 <= |pts|
    case TooManyVertices => |pts| <= 32
    case TooFewUnique => 3 <= |set p | p in pts|
    case OutOfRange => forall p :: p in pts ==> InUnit(p)
    case ZeroArea => MIN_AREA2 <= Abs(Shoelace(pts, |pts|))
    case EdgeTooShort => forall i :: 0 <= i < |pts| ==> MIN_EDGE * MIN_EDGE <= EdgeLengthSquared(pts, i)
    case SelfIntersection => NoCrossing(pts)
  }

  function Rank(e: PolygonError): nat {
    match e
    case TooFewVertices => 0
    case TooManyVertices => 1
    case TooFewUnique => 2
    case OutOfRange => 3
    case ZeroArea => 4
    case EdgeTooShort => 5
    case SelfIntersection => 6
  }

  /** The verdict is the first check in order that fails, and Valid when none does. */
  ghost predicate Judged(pts: seq<Point>, v: Verdict) {
    match v
    case Valid => forall e :: Passes(pts, e)
    case Invalid(error) => !Passes(pts, error) && forall e :: Rank(e) < Rank(error) ==> Passes(pts, e)
  }

  method AllInUnit(pts: seq<Point>) returns (ok: bool)
    ensures ok <==> Passes(pts, OutOfRange)
  {
    for i := 0 to |pts|
      invariant forall p :: p in pts[..i] ==> InUnit(p)
    {
      assert pts[..i + 1] == pts[..i] + [pts[i]];
      if !InUnit(pts[i]) {
        assert pts[i] in pts;
        return false;
      }
    }
    assert pts[..|pts|] == pts;
    return true;
  }

  method Area(pts: seq<Point>) returns (area: real)
    ensures area == Shoelace(pts, |pts|)
  {
    area := 0.0;
    for i := 0 to |pts|
      invariant area == Shoelace(pts, i)
    {
      var p, q := pts[i], pts[(i + 1) % |pts|];
      area := area + (p.x * q.y - q.x * p.y);
    }
  }

  method AllEdgesLong(pts: seq<Point>) returns (ok: bool)
    ensures ok <==> Passes(pts, EdgeTooShort)
  {
    for i := 0 to |pts|
      invariant forall k :: 0 <= k < i ==> MIN_EDGE * MIN_EDGE <= EdgeLengthSquared(pts, k)
    {
      if EdgeLengthSquared(pts, i) < MIN_EDGE * MIN_EDGE {
        return false;
      }
    }
    return true;
  }

  /** The doubly nested loop over pairs of edges. */
  method FindCrossing(pts: seq<Point>) returns (crossing: bool)
    ensures crossing <==> !NoCrossing(pts)
  {
    var n := |pts|;
    for i := 0 to n
      invariant forall a, b :: 0 <= a < i && a < b < n && !Adjacent(n, a, b) ==> !EdgesMeet(pts, a, b)
    {
      for j := i + 1 to n
        invariant forall b :: i < b < j && !Adjacent(n, i, b) ==> !EdgesMeet(pts, i, b)
      {
        if Adjacent(n, i, j) {
          continue;
        }
        IntersectExact(pts[i], Next(pts, i), pts[j], Next(pts, j));
        if Intersect(pts[i], pts[(i + 1) % n], pts[j], pts[(j + 1) % n]) {
          assert EdgesMeet(pts, i, j);
          return true;
        }
      }
    }
    return false;
  }

  method ValidatePolygon(pts: seq<Point>) returns (v: Verdict)
    ensures Judged(pts, v)
  {
    if |pts| < 3 {
      return Invalid(TooFewVertices);
    }
    if |pts| > 32 {
      return Invalid(TooManyVertices);
    }
    if |set p | p in pts| < 3 {
      return Invalid(TooFewUnique);
    }
    var inUnit := AllInUnit(pts);
    if !inUnit {
      return Invalid(OutOfRange);
    }
    var area := Area(pts);
    if Abs(area) < MIN_AREA2 {
      return Invalid(ZeroArea);
    }
    var long := AllEdgesLong(pts);
    if !long {
      return Invalid(EdgeTooShort);
    }
    var crossing := FindCrossing(pts);
    if crossing {
      return Invalid(SelfIntersection);
    }
    return Valid;
  }

  // ------------------------------------------------------------ acceptance is simplicity

  /** Two parameters on the two arms of a corner that give one point: the shorter
      arm is a fraction of the longer one. */
  lemma ArmFraction(b: real, a: real, c: real, s: real, t: real, r: real)
    requires At(b, a, s) == At(b, c, t) && t > 0.0 && r * t == s
    ensures c == At(b, a, r)
  {
    var u, w := a - b, c - b;
    assert s * u == t * w;
    assert (r * u - w) * t == s * u - t * w;
    CancelFactor(r * u, w, t);
  }

  /** Edges a-b and b-c that share a point other than b fold back onto each other. */
  lemma FoldedCorner(a: Point, b: Point, c: Point, z: Point)
    requires On(z, a, b) && On(z, b, c) && z != b
    ensures On(c, a, b) || On(a, b, c)
  {
    Backwards(z, a, b);
    var s: real :| 0.0 <= s <= 1.0 && z == Along(b, a, s);
    var t: real :| 0.0 <= t <= 1.0 && z == Along(b, c, t);
    if s <= t {
      assert t > 0.0;
      Fraction(s, t);
      var r := s / t;
      ArmFraction(b.x, a.x, c.x, s, t, r);
      ArmFraction(b.y, a.y, c.y, s, t, r);
      assert c == Along(b, a, r);
      Backwards(c, b, a);
    } else {
      Fraction(t, s);
      var r := t / s;
      ArmFraction(b.x, c.x, a.x, t, s, r);
      ArmFraction(b.y, c.y, a.y, t, s, r);
      assert a == Along(b, c, r);
    }
  }

  lemma TriangleArea(pts: seq<Point>)
    requires |pts| == 3
    ensures Shoelace(pts, 3) == Orient(pts[0], pts[1], pts[2])
    ensures Orient(pts[0], pts[1], pts[2]) == Orient(pts[1], pts[2], pts[0]) == Orient(pts[2], pts[0], pts[1])
  {
    assert Next(pts, 0) == pts[1] && Next(pts, 1) == pts[2] && Next(pts, 2) == pts[0];
    assert Shoelace(pts, 3) == Shoelace(pts, 2) + (pts[2].x * pts[0].y - pts[0].x * pts[2].y);
    assert Shoelace(pts, 2) == Shoelace(pts, 1) + (pts[1].x * pts[2].y - pts[2].x * pts[1].y);
    assert Shoelace(pts, 1) == 0.0 + (pts[0].x * pts[1].y - pts[1].x * pts[0].y);
  }

  /** No corner of an accepted polygon folds back. */
  ghost predicate Folded(a: Point, b: Point, c: Point) {
    On(c, a, b) || On(a, b, c)
  }

  lemma FoldedIsFlat(a: Point, b: Point, c: Point)
    requires Folded(a, b, c)
    ensures Orient(a, b, c) == 0.0
  {
    if On(c, a, b) {
      OnInBox(a, c, b);
    } else {
      OnInBox(b, a, c);
      assert Orient(a, b, c) == Orient(b, c, a);
    }
  }

  lemma TriangleUnfolded(pts: seq<Point>, i: int, j: int, k: int)
    requires |pts| == 3 && Passes(pts, ZeroArea)
    requires 0 <= i < 3 && j == (i + 1) % 3 && k == (i + 2) % 3
    ensures !Folded(pts[i], pts[j], pts[k])
  {
    TriangleArea(pts);
    if Folded(pts[i], pts[j], pts[k]) {
      FoldedIsFlat(pts[i], pts[j], pts[k]);
    }
  }

  lemma After(i: int, n: int)
    requires 0 <= i < n
    ensures (i + 1) % n == if i + 1 == n then 0 else i + 1
  {
  }

  /** A vertex on an edge two steps away would be a crossing of non-adjacent edges. */
  lemma VertexOffEdge(pts: seq<Point>, i: int, j: int)
    requires 0 <= i < |pts| && 0 <= j < |pts| && !Adjacent(|pts|, i, j) && NoCrossing(pts)
    ensures !On(pts[j], pts[i], Next(pts, i)) && !On(Next(pts, j), pts[i], Next(pts, i))
  {
    EndsOn(pts[j], Next(pts, j));
    assert !EdgesMeet(pts, if i < j then i else j, if i < j then j else i);
  }

  lemma LargerUnfolded(pts: seq<Point>, h: int, i: int, j: int, k: int)
    requires 3 < |pts| && NoCrossing(pts)
    requires 0 <= h < |pts| && i == (h + 1) % |pts| && j == (i + 1) % |pts| && k == (j + 1) % |pts|
    ensures !Folded(pts[i], pts[j], pts[k])
  {
    var n := |pts|;
    After(h, n);
    After(i, n);
    After(j, n);
    assert !Adjacent(n, i, k) && !Adjacent(n, j, h);
    VertexOffEdge(pts, i, k);
    VertexOffEdge(pts, j, h);
  }

  lemma Unfolded(pts: seq<Point>, i: int, j: int, k: int)
    requires 3 <= |pts| && NoCrossing(pts) && Passes(pts, ZeroArea)
    requires 0 <= i < |pts| && j == (i + 1) % |pts| && k == (j + 1) % |pts|
    ensures !Folded(pts[i], pts[j], pts[k])
  {
    if |pts| == 3 {
      TriangleUnfolded(pts, i, j, k);
    } else {
      var h := if i == 0 then |pts| - 1 else i - 1;
      After(h, |pts|);
      LargerUnfolded(pts, h, i, j, k);
    }
  }

  /** Twice the signed area as a fan of triangles about the first vertex, up to the n-th. */
  function Fan(pts: seq<Point>, n: nat): real
    requires n <= |pts|
  {
    if n < 3 then 0.0 else Fan(pts, n - 1) + Orient(pts[0], pts[n - 2], pts[n - 1])
  }

  function Cross(p: Point, q: Point): real { p.x * q.y - q.x * p.y }

  lemma OrientExpands(a: Point, p: Point, q: Point)
    ensures Orient(a, p, q) == Cross(p, q) + Cross(q, a) - Cross(p, a)
    ensures Cross(p, q) == -Cross(q, p)
  {
  }

  lemma ShoelaceNext(pts: seq<Point>, n: nat)
    requires 1 < n <= |pts|
    ensures Shoelace(pts, n - 1) == Shoelace(pts, n - 2) + Cross(pts[n - 2], pts[n - 1])
  {
    assert Next(pts, n - 2) == pts[n - 1];
  }

  lemma {:induction false} FanFrom(pts: seq<Point>, n: nat)
    requires 0 < n <= |pts|
    ensures Fan(pts, n) == Shoelace(pts, n - 1) + Cross(pts[n - 1], pts[0])
  {
    if n == 1 {
      assert Fan(pts, 1) == 0.0 && Shoelace(pts, 0) == 0.0;
    } else {
      ShoelaceNext(pts, n);
      OrientExpands(pts[0], pts[n - 2], pts[n - 1]);
      if n == 2 {
        assert Fan(pts, 2) == 0.0 && Shoelace(pts, 0) == 0.0;
      } else {
        FanFrom(pts, n - 1);
      }
    }
  }

  /** The shoelace sum is the fan. */
  lemma ShoelaceIsFan(pts: seq<Point>)
    requires pts != []
    ensures Shoelace(pts, |pts|) == Fan(pts, |pts|)
  {
    var n := |pts|;
    FanFrom(pts, n);
    assert Next(pts, n - 1) == pts[0];
  }

  ghost predicate EdgesApart(pts: seq<Point>, i: int, j: int)
    requires 0 <= i < |pts| && 0 <= j < |pts|
  {
    forall z :: On(z, pts[i], Next(pts, i)) ==> !On(z, pts[j], Next(pts, j))
  }

  lemma NoCrossingIs(pts: seq<Point>)
    ensures NoCrossing(pts) <==>
              forall i, j :: 0 <= i && i + 1 < j < |pts| && !(i == 0 && j == |pts| - 1) ==> EdgesApart(pts, i, j)
  {
    forall i, j | 0 <= i < j < |pts| && !Adjacent(|pts|, i, j) ensures EdgesMeet(pts, i, j) <==> !EdgesApart(pts, i, j) {
    }
  }

  ghost predicate LongEdge(pts: seq<Point>, i: int)
    requires 0 <= i < |pts|
  {
    var p, q := pts[i], Next(pts, i);
    (p.x - q.x) * (p.x - q.x) + (p.y - q.y) * (p.y - q.y) >= 0.005 * 0.005
  }

  lemma LongEdgeIs(pts: seq<Point>, i: int)
    requires 0 <= i < |pts|
    ensures LongEdge(pts, i) <==> MIN_EDGE * MIN_EDGE <= EdgeLengthSquared(pts, i)
  {
  }

  lemma AcceptedPasses(pts: seq<Point>)
    ensures Judged(pts, Valid) <==>
              && 3 <= |pts| <= 32 && 3 <= |set p | p in pts| && Passes(pts, OutOfRange) && Passes(pts, ZeroArea)
              && Passes(pts, EdgeTooShort) && NoCrossing(pts)
  {
    if Judged(pts, Valid) {
      assert Passes(pts, TooFewVertices) && Passes(pts, TooManyVertices) && Passes(pts, TooFewUnique)
             && Passes(pts, SelfIntersection);
    }
  }

  /** What is accepted, in coordinates: 3 to 32 vertices, three of them different, in the
      unit square, a fan of at least 1e-6, no edge shorter than 0.005, and no two edges with
      a common point that do not follow each other. */
  lemma AcceptedExactly(pts: seq<Point>)
    ensures Judged(pts, Valid) <==>
              && 3 <= |pts| <= 32 && 3 <= |set p | p in pts|
              && (forall p :: p in pts ==> 0.0 <= p.x <= 1.0 && 0.0 <= p.y <= 1.0)
              && Abs(Fan(pts, |pts|)) >= 0.000001
              && (forall i :: 0 <= i < |pts| ==> LongEdge(pts, i))
              && (forall i, j :: 0 <= i && i + 1 < j < |pts| && !(i == 0 && j == |pts| - 1) ==> EdgesApart(pts, i, j))
  {
    AcceptedPasses(pts);
    NoCrossingIs(pts);
    if pts != [] {
      ShoelaceIsFan(pts);
    }
    forall i | 0 <= i < |pts| ensures LongEdge(pts, i) <==> MIN_EDGE * MIN_EDGE <= EdgeLengthSquared(pts, i) {
      LongEdgeIs(pts, i);
    }
  }

  lemma ValidPasses(pts: seq<Point>)
    requires Judged(pts, Valid)
    ensures 3 <= |pts| <= 32 && NoCrossing(pts) && Passes(pts, ZeroArea) && Passes(pts, OutOfRange)
  {
    assert Passes(pts, TooFewVertices) && Passes(pts, TooManyVertices) && Passes(pts, SelfIntersection);
  }

  /** An accepted polygon has 3 to 32 vertices in the unit square and is simple:
      non-adjacent edges are disjoint, and adjacent edges share their common vertex
      and nothing else. */
  lemma AcceptedIsSimple(pts: seq<Point>, i: int, j: int, k: int)
    requires Judged(pts, Valid)
    requires 0 <= i < |pts| && j == (i + 1) % |pts| && k == (j + 1) % |pts|
    ensures 3 <= |pts| <= 32 && (forall p :: p in pts ==> InUnit(p)) && NoCrossing(pts)
    ensures forall z :: On(z, pts[i], pts[j]) && On(z, pts[j], pts[k]) ==> z == pts[j]
  {
    ValidPasses(pts);
    var a, b, c := pts[i], pts[j], pts[k];
    Unfolded(pts, i, j, k);
    forall z | On(z, a, b) && On(z, b, c) ensures z == b {
      if z != b {
        FoldedCorner(a, b, c, z);
      }
    }
  }
}
