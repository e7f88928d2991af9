/** Exact planar geometry: segment intersection by orientation signs, segment
    against box, and simple-polygon validation. */
module Geometry {
  import opened Basics

  datatype Point = Point(x: real, y: real)

  // ------------------------------------------------------------------ the tests

  /** b lies in the bounding box of a and c. */
  predicate OnSeg(a: Point, b: Point, c: Point) {
    Min(a.x, c.x) <= b.x <= Max(a.x, c.x) && Min(a.y, c.y) <= b.y <= Max(a.y, c.y)
  }

  function Orient(a: Point, b: Point, c: Point): real {
    (b.x - a.x) * (c.y - a.y) - (b.y - a.y) * (c.x - a.x)
  }

  predicate Intersect(p1: Point, p2: Point, q1: Point, q2: Point) {
    var o1 := Orient(p1, p2, q1);
    var o2 := Orient(p1, p2, q2);
    var o3 := Orient(q1, q2, p1);
    var o4 := Orient(q1, q2, p2);
    || (o1 * o2 < 0.0 && o3 * o4 < 0.0)
    || (o1 == 0.0 && OnSeg(p1, q1, p2))
    || (o2 == 0.0 && OnSeg(p1, q2, p2))
    || (o3 == 0.0 && OnSeg(q1, p1, q2))
    || (o4 == 0.0 && OnSeg(q1, p2, q2))
  }

  predicate SegmentIntersectsBox(a: Point, b: Point, x1: real, y1: real, x2: real, y2: real) {
    || (x1 <= a.x <= x2 && y1 <= a.y <= y2)
    || (x1 <= b.x <= x2 && y1 <= b.y <= y2)
    || Intersect(a, b, Point(x1, y1), Point(x2, y1))
    || Intersect(a, b, Point(x2, y1), Point(x2, y2))
    || Intersect(a, b, Point(x2, y2), Point(x1, y2))
    || Intersect(a, b, Point(x1, y2), Point(x1, y1))
  }

  // ---------------------------------------------------------------- their meaning

  /** The coordinate a fraction q of the way from a to b. */
  function At(a: real, b: real, q: real): real { a + q * (b - a) }

  /** The point a fraction s of the way from a to b. */
  function Along(a: Point, b: Point, s: real): Point {
    Point(At(a.x, b.x, s), At(a.y, b.y, s))
  }

  ghost predicate On(z: Point, a: Point, b: Point) {
    exists s: real :: 0.0 <= s <= 1.0 && z == Along(a, b, s)
  }

  /** The two closed segments have a common point. */
  ghost predicate Meet(p1: Point, p2: Point, q1: Point, q2: Point) {
    exists z: Point :: On(z, p1, p2) && On(z, q1, q2)
  }

  // --------------------------------------------------------- real arithmetic helpers

  /** The sign of a product. */
  lemma Signs(a: real, b: real)
    ensures a * b > 0.0 <==> (a > 0.0 && b > 0.0) || (a < 0.0 && b < 0.0)
    ensures a * b < 0.0 <==> (a > 0.0 && b < 0.0) || (a < 0.0 && b > 0.0)
  {
  }

  lemma Scale(s: real, d: real)
    requires 0.0 <= s <= 1.0
    ensures Min(0.0, d) <= s * d <= Max(0.0, d)
  {
    var t := 1.0 - s;
    Signs(s, d);
    Signs(t, d);
    assert t * d == d - s * d;
  }

  lemma Between(a: real, b: real, s: real)
    requires 0.0 <= s <= 1.0
    ensures Min(a, b) <= a + s * (b - a) <= Max(a, b)
  {
    var d := b - a;
    Scale(s, d);
    var e := s * d;
    assert a + s * (b - a) == a + e;
  }

  lemma Fraction(p: real, q: real)
    requires q != 0.0
    requires (0.0 <= p <= q) || (q <= p <= 0.0)
    ensures 0.0 <= p / q <= 1.0 && p / q * q == p
  {
    var r := p / q;
    assert r * q == p;
    Signs(r, q);
    Signs(1.0 - r, q);
    assert (1.0 - r) * q == q - p;
  }

  /** From dx*ey == dy*ex and s*dx == ex, cancelling dx. */
  lemma Cancel(dx: real, sdy: real, ey: real, s: real, dy: real, ex: real)
    requires dx != 0.0 && sdy == s * dy && s * dx == ex && dx * ey == dy * ex
    ensures sdy == ey
  {
    assert dx * (sdy - ey) == dy * (s * dx) - dx * ey;
  }

  lemma CollinearFraction(dx: real, dy: real, ex: real, ey: real) returns (s: real)
    requires dx * ey == dy * ex
    requires Min(0.0, dx) <= ex <= Max(0.0, dx) && Min(0.0, dy) <= ey <= Max(0.0, dy)
    ensures 0.0 <= s <= 1.0 && s * dx == ex && s * dy == ey
  {
    s := 0.0;
    if dx != 0.0 {
      Fraction(ex, dx);
      s := ex / dx;
      Cancel(dx, s * dy, ey, s, dy, ex);
    } else if dy != 0.0 {
      Fraction(ey, dy);
      s := ey / dy;
    }
  }

  /** A collinear point inside the bounding box is on the segment. */
  lemma CollinearOn(a: Point, b: Point, c: Point)
    requires Orient(a, c, b) == 0.0 && OnSeg(a, b, c)
    ensures On(b, a, c)
  {
    var s := CollinearFraction(c.x - a.x, c.y - a.y, b.x - a.x, b.y - a.y);
    assert b == Along(a, c, s);
  }

  lemma OnInBox(a: Point, b: Point, c: Point)
    requires On(b, a, c)
    ensures OnSeg(a, b, c) && Orient(a, c, b) == 0.0
  {
    var s :| 0.0 <= s <= 1.0 && b == Along(a, c, s);
    Between(a.x, c.x, s);
    Between(a.y, c.y, s);
  }

  lemma EndsOn(a: Point, b: Point)
    ensures On(a, a, b) && On(b, a, b)
  {
    assert a == Along(a, b, 0.0) && b == Along(a, b, 1.0);
  }

  lemma BackwardsAt(a: real, b: real, s: real)
    ensures At(a, b, s) == At(b, a, 1.0 - s)
  {
  }

  /** A segment is the same set of points from either end. */
  lemma Backwards(z: Point, a: Point, b: Point)
    requires On(z, a, b)
    ensures On(z, b, a)
  {
    var s: real :| 0.0 <= s <= 1.0 && z == Along(a, b, s);
    BackwardsAt(a.x, b.x, s);
    BackwardsAt(a.y, b.y, s);
    assert z == Along(b, a, 1.0 - s);
  }

  // -------------------------------------------------------- soundness of the crossing

  lemma OppositeSigns(a: real, b: real)
    requires a * b < 0.0
    ensures (a < 0.0 < b) || (b < 0.0 < a)
  {
    Signs(a, b);
  }

  lemma OrientDifference(p1: Point, p2: Point, q1: Point, q2: Point)
    ensures Orient(p1, p2, q2) - Orient(p1, p2, q1) == Orient(q1, q2, p1) - Orient(q1, q2, p2)
    ensures Orient(p1, p2, q2) - Orient(p1, p2, q1)
            == (p2.x - p1.x) * (q2.y - q1.y) - (p2.y - p1.y) * (q2.x - q1.x)
  {
  }

  lemma CancelFactor(a: real, b: real, d: real)
    requires a * d == b * d && d != 0.0
    ensures a == b
  {
    assert (a - b) * d == 0.0;
  }

  lemma Cramer(dx: real, dy: real, ex: real, ey: real, wx: real, wy: real, s: real, t: real, d: real)
    requires d == dx * ey - dy * ex && d != 0.0
    requires s * d == wx * ey - wy * ex && t * d == wx * dy - wy * dx
    ensures s * dx - t * ex == wx && s * dy - t * ey == wy
  {
    assert (s * dx - t * ex) * d == (s * d) * dx - (t * d) * ex;
    assert (s * d) * dx - (t * d) * ex == wx * d;
    assert (s * dy - t * ey) * d == (s * d) * dy - (t * d) * ey;
    assert (s * d) * dy - (t * d) * ey == wy * d;
    CancelFactor(s * dx - t * ex, wx, d);
    CancelFactor(s * dy - t * ey, wy, d);
  }

  /** Cramer's rule for the two line parameters. */
  lemma CrossingPoint(p1: Point, p2: Point, q1: Point, q2: Point, d: real, s: real, t: real)
    requires d != 0.0 && d == Orient(p1, p2, q2) - Orient(p1, p2, q1)
    requires s * d == Orient(q1, q2, p1) && t * d == -Orient(p1, p2, q1)
    ensures Along(p1, p2, s) == Along(q1, q2, t)
  {
    var dx, dy, ex, ey := p2.x - p1.x, p2.y - p1.y, q2.x - q1.x, q2.y - q1.y;
    var wx, wy := q1.x - p1.x, q1.y - p1.y;
    OrientDifference(p1, p2, q1, q2);
    assert Orient(q1, q2, p1) == wx * ey - wy * ex;
    assert Orient(p1, p2, q1) == dx * wy - dy * wx;
    Cramer(dx, dy, ex, ey, wx, wy, s, t, d);
    var sx, sy, tx, ty := s * dx, s * dy, t * ex, t * ey;
    assert Along(p1, p2, s) == Point(p1.x + sx, p1.y + sy);
    assert Along(q1, q2, t) == Point(q1.x + tx, q1.y + ty);
  }

  /** Opposite signs on both tests put the crossing point inside both segments. */
  lemma CrossingMeets(p1: Point, p2: Point, q1: Point, q2: Point)
    requires Orient(p1, p2, q1) * Orient(p1, p2, q2) < 0.0
    requires Orient(q1, q2, p1) * Orient(q1, q2, p2) < 0.0
    ensures Meet(p1, p2, q1, q2)
  {
    var o1, o2 := Orient(p1, p2, q1), Orient(p1, p2, q2);
    var o3, o4 := Orient(q1, q2, p1), Orient(q1, q2, p2);
    OppositeSigns(o1, o2);
    OppositeSigns(o3, o4);
    var d := o3 - o4;
    assert o2 - o1 == d by { OrientDifference(p1, p2, q1, q2); }
    Fraction(o3, d);
    Fraction(-o1, d);
    var s, t := o3 / d, (-o1) / d;
    CrossingPoint(p1, p2, q1, q2, d, s, t);
    assert On(Along(p1, p2, s), p1, p2) && On(Along(p1, p2, s), q1, q2);
  }

  // ---------------------------------------------------- completeness of the crossing

  lemma CrossAtMeet(dx: real, dy: real, ex: real, ey: real, wx: real, wy: real, s: real, t: real)
    requires wx == s * dx - t * ex && wy == s * dy - t * ey
    ensures wx * ey - wy * ex == s * (dx * ey - dy * ex)
    ensures dx * wy - dy * wx == -t * (dx * ey - dy * ex)
  {
  }

  lemma OrientAtMeet(p1: Point, p2: Point, q1: Point, q2: Point, s: real, t: real, d: real)
    requires Along(p1, p2, s) == Along(q1, q2, t)
    requires d == Orient(p1, p2, q2) - Orient(p1, p2, q1)
    ensures Orient(p1, p2, q1) == -t * d && Orient(p1, p2, q2) == (1.0 - t) * d
    ensures Orient(q1, q2, p1) == s * d && Orient(q1, q2, p2) == (s - 1.0) * d
  {
    var dx, dy, ex, ey := p2.x - p1.x, p2.y - p1.y, q2.x - q1.x, q2.y - q1.y;
    var wx, wy := q1.x - p1.x, q1.y - p1.y;
    OrientDifference(p1, p2, q1, q2);
    assert wx == s * dx - t * ex && wy == s * dy - t * ey;
    assert Orient(q1, q2, p1) == wx * ey - wy * ex;
    assert Orient(p1, p2, q1) == dx * wy - dy * wx;
    CrossAtMeet(dx, dy, ex, ey, wx, wy, s, t);
    assert (1.0 - t) * d == d - t * d && (s - 1.0) * d == s * d - d;
  }

  lemma OppositeEnds(x: real, d: real, lo: real, hi: real)
    requires 0.0 < x < 1.0 && d != 0.0 && lo == -x * d && hi == (1.0 - x) * d
    ensures lo * hi < 0.0
  {
    var y := 1.0 - x;
    Signs(x, d);
    Signs(y, d);
    Signs(lo, hi);
  }

  /** Lines that cross at interior points of both segments are seen by the signs. */
  lemma InteriorCrossing(s: real, t: real, d: real, o1: real, o2: real, o3: real, o4: real)
    requires 0.0 < s < 1.0 && 0.0 < t < 1.0 && d != 0.0
    requires o1 == -t * d && o2 == (1.0 - t) * d && o3 == s * d && o4 == (s - 1.0) * d
    ensures o1 * o2 < 0.0 && o3 * o4 < 0.0
  {
    OppositeEnds(t, d, o1, o2);
    OppositeEnds(s, -d, o3, o4);
  }

  lemma EndpointTouches(p1: Point, p2: Point, q1: Point, q2: Point)
    requires On(q1, p1, p2) || On(q2, p1, p2) || On(p1, q1, q2) || On(p2, q1, q2)
    ensures Intersect(p1, p2, q1, q2)
  {
    if On(q1, p1, p2) {
      OnInBox(p1, q1, p2);
    } else if On(q2, p1, p2) {
      OnInBox(p1, q2, p2);
    } else if On(p1, q1, q2) {
      OnInBox(q1, p1, q2);
    } else {
      OnInBox(q1, p2, q2);
    }
  }

  lemma Multiple(dx: real, dy: real, ex: real, ey: real) returns (k: real)
    requires dx * ey == dy * ex && (dx != 0.0 || dy != 0.0)
    ensures ex == k * dx && ey == k * dy
  {
    if dx != 0.0 {
      k := ex / dx;
      assert k * dx == ex;
      Cancel(dx, k * dy, ey, k, dy, ex);
    } else {
      k := ey / dy;
      assert k * dy == ey;
      assert dy * ex == 0.0;
    }
  }

  lemma Parameter1(p1: real, p2: real, q1: real, q2: real, s: real, t: real, k: real)
    requires p1 + s * (p2 - p1) == q1 + t * (q2 - q1) && q2 - q1 == k * (p2 - p1)
    ensures q1 == p1 + (s - t * k) * (p2 - p1) && q2 == p1 + (s - t * k + k) * (p2 - p1)
  {
    var d := p2 - p1;
    assert t * (q2 - q1) == t * k * d;
    assert (s - t * k) * d == s * d - t * k * d;
  }

  /** Parameters of q1 and q2 along p1 p2, once both lie on its line. */
  lemma ParameterOf(p1: Point, p2: Point, q1: Point, q2: Point, s: real, t: real, k: real)
    requires Along(p1, p2, s) == Along(q1, q2, t)
    requires q2.x - q1.x == k * (p2.x - p1.x) && q2.y - q1.y == k * (p2.y - p1.y)
    ensures q1 == Along(p1, p2, s - t * k) && q2 == Along(p1, p2, s - t * k + k)
  {
    Parameter1(p1.x, p2.x, q1.x, q2.x, s, t, k);
    Parameter1(p1.y, p2.y, q1.y, q2.y, s, t, k);
  }

  /** An interval from a to a + k that meets [0, 1] but has neither end in it
      covers 0. */
  lemma CoversZero(a: real, k: real, t: real) returns (r: real)
    requires 0.0 <= t <= 1.0 && 0.0 <= a + t * k <= 1.0
    requires !(0.0 <= a <= 1.0) && !(0.0 <= a + k <= 1.0)
    ensures 0.0 <= r <= 1.0 && a + r * k == 0.0
  {
    Scale(t, k);
    Fraction(-a, k);
    r := (-a) / k;
  }

  lemma StartOf(p1: real, p2: real, q1: real, q2: real, a: real, k: real, r: real)
    requires q1 == p1 + a * (p2 - p1) && q2 - q1 == k * (p2 - p1) && a + r * k == 0.0
    ensures p1 == q1 + r * (q2 - q1)
  {
    var d := p2 - p1;
    assert r * (q2 - q1) == r * k * d;
    assert (a + r * k) * d == a * d + r * k * d;
  }

  lemma StartAt(p1: Point, p2: Point, q1: Point, q2: Point, a: real, k: real, r: real)
    requires 0.0 <= r <= 1.0 && a + r * k == 0.0 && q1 == Along(p1, p2, a)
    requires q2.x - q1.x == k * (p2.x - p1.x) && q2.y - q1.y == k * (p2.y - p1.y)
    ensures On(p1, q1, q2)
  {
    StartOf(p1.x, p2.x, q1.x, q2.x, a, k, r);
    StartOf(p1.y, p2.y, q1.y, q2.y, a, k, r);
    assert p1 == Along(q1, q2, r);
  }

  /** Overlapping segments of one line: an endpoint of one lies on the other. */
  lemma ParallelOverlap(p1: Point, p2: Point, q1: Point, q2: Point, s: real, t: real)
    requires 0.0 <= s <= 1.0 && 0.0 <= t <= 1.0 && Along(p1, p2, s) == Along(q1, q2, t)
    requires p1 != p2 && (p2.x - p1.x) * (q2.y - q1.y) == (p2.y - p1.y) * (q2.x - q1.x)
    ensures On(q1, p1, p2) || On(q2, p1, p2) || On(p1, q1, q2)
  {
    var k := Multiple(p2.x - p1.x, p2.y - p1.y, q2.x - q1.x, q2.y - q1.y);
    ParameterOf(p1, p2, q1, q2, s, t, k);
    var a := s - t * k;
    if !(0.0 <= a <= 1.0) && !(0.0 <= a + k <= 1.0) {
      var r := CoversZero(a, k, t);
      StartAt(p1, p2, q1, q2, a, k, r);
    }
  }

  lemma AlongEnds(a: Point, b: Point)
    ensures Along(a, b, 0.0) == a && Along(a, b, 1.0) == b && (a == b ==> forall s :: Along(a, b, s) == a)
  {
  }

  /** A common point strictly inside both segments. */
  lemma InteriorMeets(p1: Point, p2: Point, q1: Point, q2: Point, s: real, t: real)
    requires 0.0 < s < 1.0 && 0.0 < t < 1.0 && Along(p1, p2, s) == Along(q1, q2, t) && p1 != p2
    ensures Intersect(p1, p2, q1, q2)
  {
    var d := Orient(p1, p2, q2) - Orient(p1, p2, q1);
    if d != 0.0 {
      OrientAtMeet(p1, p2, q1, q2, s, t, d);
      InteriorCrossing(s, t, d, Orient(p1, p2, q1), Orient(p1, p2, q2), Orient(q1, q2, p1), Orient(q1, q2, p2));
    } else {
      OrientDifference(p1, p2, q1, q2);
      ParallelOverlap(p1, p2, q1, q2, s, t);
      EndpointTouches(p1, p2, q1, q2);
    }
  }

  lemma MeetIntersects(p1: Point, p2: Point, q1: Point, q2: Point)
    requires Meet(p1, p2, q1, q2)
    ensures Intersect(p1, p2, q1, q2)
  {
    var z: Point :| On(z, p1, p2) && On(z, q1, q2);
    var s: real :| 0.0 <= s <= 1.0 && z == Along(p1, p2, s);
    var t: real :| 0.0 <= t <= 1.0 && z == Along(q1, q2, t);
    AlongEnds(p1, p2);
    AlongEnds(q1, q2);
    if s == 0.0 || s == 1.0 || t == 0.0 || t == 1.0 || p1 == p2 {
      assert z == p1 || z == p2 || z == q1 || z == q2;
      EndpointTouches(p1, p2, q1, q2);
    } else {
      InteriorMeets(p1, p2, q1, q2, s, t);
    }
  }

  /** The orientation test is exact: it holds exactly when the two closed segments
      have a common point, touching, collinear and zero-length ones included. */
  lemma IntersectExact(p1: Point, p2: Point, q1: Point, q2: Point)
    ensures Intersect(p1, p2, q1, q2) <==> Meet(p1, p2, q1, q2)
  {
    if Meet(p1, p2, q1, q2) {
      MeetIntersects(p1, p2, q1, q2);
    }
    if Intersect(p1, p2, q1, q2) {
      if Orient(p1, p2, q1) == 0.0 && OnSeg(p1, q1, p2) {
        CollinearOn(p1, q1, p2);
        EndsOn(q1, q2);
      } else if Orient(p1, p2, q2) == 0.0 && OnSeg(p1, q2, p2) {
        CollinearOn(p1, q2, p2);
        EndsOn(q1, q2);
      } else if Orient(q1, q2, p1) == 0.0 && OnSeg(q1, p1, q2) {
        CollinearOn(q1, p1, q2);
        EndsOn(p1, p2);
      } else if Orient(q1, q2, p2) == 0.0 && OnSeg(q1, p2, q2) {
        CollinearOn(q1, p2, q2);
        EndsOn(p1, p2);
      } else {
        CrossingMeets(p1, p2, q1, q2);
      }
    }
  }

  // -------------------------------------------------------------- segment and box

  predicate InBox(z: Point, x1: real, y1: real, x2: real, y2: real) {
    x1 <= z.x <= x2 && y1 <= z.y <= y2
  }

  ghost predicate MeetsBox(a: Point, b: Point, x1: real, y1: real, x2: real, y2: real) {
    exists z: Point :: On(z, a, b) && InBox(z, x1, y1, x2, y2)
  }

  /** The segment has a point on one of the box's four edges. */
  ghost predicate MeetsOutline(a: Point, b: Point, x1: real, y1: real, x2: real, y2: real) {
    || Meet(a, b, Point(x1, y1), Point(x2, y1))
    || Meet(a, b, Point(x2, y1), Point(x2, y2))
    || Meet(a, b, Point(x2, y2), Point(x1, y2))
    || Meet(a, b, Point(x1, y2), Point(x1, y1))
  }

  /** On the way from a to a point inside [lo, hi]: where the interval is entered. */
  lemma Enter(a: real, b: real, lo: real, hi: real, s: real) returns (r: real)
    requires 0.0 <= s <= 1.0 && lo <= At(a, b, s) <= hi
    ensures 0.0 <= r <= s
    ensures lo <= At(a, b, r) <= hi
    ensures if lo <= a <= hi then r == 0.0 else At(a, b, r) == (if a < lo then lo else hi)
  {
    if lo <= a <= hi {
      r := 0.0;
    } else {
      var wall, d := if a < lo then lo else hi, b - a;
      var z := s * d;
      Fraction(wall - a, z);
      var f := (wall - a) / z;
      r := f * s;
      Scale(f, s);
      assert r * d == f * z;
    }
  }

  lemma AtDifference(a: real, b: real, r: real, q: real)
    ensures At(a, b, q) == At(a, b, r) + (q - r) * (b - a)
  {
  }

  lemma ProductSign(e: real, d: real)
    requires e >= 0.0
    ensures if d >= 0.0 then e * d >= 0.0 else e * d <= 0.0
  {
  }

  lemma Monotone(a: real, b: real, r: real, q: real, s: real)
    requires r <= q <= s
    ensures Min(At(a, b, r), At(a, b, s)) <= At(a, b, q) <= Max(At(a, b, r), At(a, b, s))
  {
    AtDifference(a, b, r, q);
    AtDifference(a, b, q, s);
    ProductSign(q - r, b - a);
    ProductSign(s - q, b - a);
    var x, y, z := At(a, b, r), At(a, b, q), At(a, b, s);
    assert if b - a >= 0.0 then x <= y <= z else z <= y <= x;
  }

  lemma OnVertical(z: Point, x: real, ya: real, yb: real)
    requires z.x == x && Min(ya, yb) <= z.y <= Max(ya, yb)
    ensures On(z, Point(x, ya), Point(x, yb))
  {
    CollinearOn(Point(x, ya), z, Point(x, yb));
  }

  lemma OnHorizontal(z: Point, y: real, xa: real, xb: real)
    requires z.y == y && Min(xa, xb) <= z.x <= Max(xa, xb)
    ensures On(z, Point(xa, y), Point(xb, y))
  {
    CollinearOn(Point(xa, y), z, Point(xb, y));
  }

  /** Where both coordinates have entered: the later of the two, on a wall of the
      coordinate that was outside. */
  lemma EnterBoth(xa: real, xb: real, ya: real, yb: real, x1: real, x2: real, y1: real, y2: real, s: real)
    returns (r: real, vertical: bool)
    requires 0.0 <= s <= 1.0 && x1 <= At(xa, xb, s) <= x2 && y1 <= At(ya, yb, s) <= y2
    requires !(x1 <= xa <= x2 && y1 <= ya <= y2)
    ensures 0.0 <= r <= 1.0 && x1 <= At(xa, xb, r) <= x2 && y1 <= At(ya, yb, r) <= y2
    ensures if vertical then At(xa, xb, r) == x1 || At(xa, xb, r) == x2 else At(ya, yb, r) == y1 || At(ya, yb, r) == y2
  {
    var rx := Enter(xa, xb, x1, x2, s);
    var ry := Enter(ya, yb, y1, y2, s);
    vertical := !(x1 <= xa <= x2) && ry <= rx;
    if ry <= rx {
      r := rx;
      Monotone(ya, yb, ry, r, s);
    } else {
      r := ry;
      Monotone(xa, xb, rx, r, s);
    }
  }

  lemma OnWall(a: Point, b: Point, x1: real, y1: real, x2: real, y2: real, z: Point, vertical: bool)
    requires On(z, a, b) && InBox(z, x1, y1, x2, y2)
    requires if vertical then z.x == x1 || z.x == x2 else z.y == y1 || z.y == y2
    ensures MeetsOutline(a, b, x1, y1, x2, y2)
  {
    if vertical {
      OnVertical(z, z.x, y1, y2);
      OnVertical(z, z.x, y2, y1);
    } else {
      OnHorizontal(z, z.y, x1, x2);
      OnHorizontal(z, z.y, x2, x1);
    }
  }

  /** Entering a box from outside crosses its outline. */
  lemma EnterOutline(a: Point, b: Point, x1: real, y1: real, x2: real, y2: real, s: real)
    requires 0.0 <= s <= 1.0 && InBox(Along(a, b, s), x1, y1, x2, y2) && !InBox(a, x1, y1, x2, y2)
    ensures MeetsOutline(a, b, x1, y1, x2, y2)
  {
    var r, vertical := EnterBoth(a.x, b.x, a.y, b.y, x1, x2, y1, y2, s);
    OnWall(a, b, x1, y1, x2, y2, Along(a, b, r), vertical);
  }

  lemma OutlineInBox(a: Point, b: Point, x1: real, y1: real, x2: real, y2: real)
    requires x1 <= x2 && y1 <= y2 && MeetsOutline(a, b, x1, y1, x2, y2)
    ensures MeetsBox(a, b, x1, y1, x2, y2)
  {
    var z: Point :| On(z, a, b) &&
      (|| On(z, Point(x1, y1), Point(x2, y1)) || On(z, Point(x2, y1), Point(x2, y2))
       || On(z, Point(x2, y2), Point(x1, y2)) || On(z, Point(x1, y2), Point(x1, y1)));
    if On(z, Point(x1, y1), Point(x2, y1)) {
      OnInBox(Point(x1, y1), z, Point(x2, y1));
    } else if On(z, Point(x2, y1), Point(x2, y2)) {
      OnInBox(Point(x2, y1), z, Point(x2, y2));
    } else if On(z, Point(x2, y2), Point(x1, y2)) {
      OnInBox(Point(x2, y2), z, Point(x1, y2));
    } else {
      OnInBox(Point(x1, y2), z, Point(x1, y1));
    }
    assert InBox(z, x1, y1, x2, y2);
  }

  /** The box test is exact for a proper box; with corners in the wrong order the
      closed box is empty and the test reports the outline instead. */
  lemma SegmentIntersectsBoxExact(a: Point, b: Point, x1: real, y1: real, x2: real, y2: real)
    ensures x1 <= x2 && y1 <= y2 ==>
              (SegmentIntersectsBox(a, b, x1, y1, x2, y2) <==> MeetsBox(a, b, x1, y1, x2, y2))
    ensures !(x1 <= x2 && y1 <= y2) ==>
              !MeetsBox(a, b, x1, y1, x2, y2) &&
              (SegmentIntersectsBox(a, b, x1, y1, x2, y2) <==> MeetsOutline(a, b, x1, y1, x2, y2))
  {
    IntersectExact(a, b, Point(x1, y1), Point(x2, y1));
    IntersectExact(a, b, Point(x2, y1), Point(x2, y2));
    IntersectExact(a, b, Point(x2, y2), Point(x1, y2));
    IntersectExact(a, b, Point(x1, y2), Point(x1, y1));
    EndsOn(a, b);
    if x1 <= x2 && y1 <= y2 {
      if MeetsOutline(a, b, x1, y1, x2, y2) {
        OutlineInBox(a, b, x1, y1, x2, y2);
      }
      if MeetsBox(a, b, x1, y1, x2, y2) && !InBox(a, x1, y1, x2, y2) {
        var z: Point :| On(z, a, b) && InBox(z, x1, y1, x2, y2);
        var s: real :| 0.0 <= s <= 1.0 && z == Along(a, b, s);
        EnterOutline(a, b, x1, y1, x2, y2, s);
      }
    }
  }

  /** A box with swapped corners, which contains no point, and a segment the test says
      meets it. */
  lemma SwappedBoxTouched()
    ensures var a, b := Point(0.0, 0.5), Point(1.0, 0.5);
            SegmentIntersectsBox(a, b, 0.8, 0.2, 0.2, 0.8) && !MeetsBox(a, b, 0.8, 0.2, 0.2, 0.8)
  {
    SegmentIntersectsBoxExact(Point(0.0, 0.5), Point(1.0, 0.5), 0.8, 0.2, 0.2, 0.8);
  }
}
