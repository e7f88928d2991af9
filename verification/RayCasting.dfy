/** Point-in-polygon by ray casting: the backend's variant with its epsilon, and
    the frontend's exact one. */
module RayCasting {
  import opened Basics
  import opened Geometry
  import Polygons

  datatype Edge = Edge(p: Point, q: Point)

  /** The exception a zero denominator raises is an answer of its own. */
  datatype Answer = Inside | Outside | ZeroDivision

  const EPS := 0.000000001

  predicate Straddles(e: Edge, y: real) { (e.p.y > y) != (e.q.y > y) }

  // ------------------------------------------------------------------- the loops

  /** An edge whose backend denominator is zero when it is looked at. */
  predicate Faulty(e: Edge, y: real) { Straddles(e, y) && e.q.y - e.p.y + EPS == 0.0 }

  function BackendAbscissa(p: Point, q: Point, y: real): real
    requires q.y - p.y + EPS != 0.0
  {
    (q.x - p.x) * (y - p.y) / (q.y - p.y + EPS) + p.x
  }

  predicate BackendHit(e: Edge, x: real, y: real) {
    Straddles(e, y) && !Faulty(e, y) && x < BackendAbscissa(e.p, e.q, y)
  }

  function Abscissa(p: Point, q: Point, y: real): real
    requires p.y != q.y
  {
    (q.x - p.x) * (y - p.y) / (q.y - p.y) + p.x
  }

  predicate ExactHit(e: Edge, x: real, y: real) {
    Straddles(e, y) && x < Abscissa(e.p, e.q, y)
  }

  function Succ(i: nat, n: nat): (k: nat)
    requires i < n
    ensures k == if i + 1 < n then i + 1 else 0
  {
    (i + 1) % n
  }

  /** Edges from each vertex to the next, around the polygon. */
  function Edges(poly: seq<Point>): (es: seq<Edge>)
    ensures |es| == |poly|
    ensures forall i :: 0 <= i < |poly| ==> es[i] == Edge(poly[i], poly[Succ(i, |poly|)])
  {
    seq(|poly|, i requires 0 <= i < |poly| => Edge(poly[i], poly[Succ(i, |poly|)]))
  }

  /** Edges from each vertex back to the previous one, as the frontend walks. */
  function BackEdges(poly: seq<Point>): (es: seq<Edge>)
    ensures |es| == |poly|
    ensures forall i :: 0 <= i < |poly| ==> es[i] == Edge(poly[i], if i == 0 then poly[|poly| - 1] else poly[i - 1])
  {
    seq(|poly|, i requires 0 <= i < |poly| => Edge(poly[i], if i == 0 then poly[|poly| - 1] else poly[i - 1]))
  }

  function Count(es: seq<Edge>, hit: Edge -> bool): nat {
    if es == [] then 0 else Count(es[..|es| - 1], hit) + (if hit(es[|es| - 1]) then 1 else 0)
  }

  predicate Odd(n: nat) { n % 2 == 1 }

  /** The three tests of an edge, as values. */
  function Straddling(y: real): Edge -> bool { e => Straddles(e, y) }
  function BackendTest(x: real, y: real): Edge -> bool { e => BackendHit(e, x, y) }
  function ExactTest(x: real, y: real): Edge -> bool { e => ExactHit(e, x, y) }

  ghost function EdgesAnswer(es: seq<Edge>, x: real, y: real): Answer {
    if exists e :: e in es && Faulty(e, y) then ZeroDivision
    else if Odd(Count(es, BackendTest(x, y))) then Inside
    else Outside
  }

  ghost function BackendAnswer(poly: seq<Point>, x: real, y: real): Answer {
    EdgesAnswer(Edges(poly), x, y)
  }

  ghost predicate FrontendAnswer(poly: seq<Point>, x: real, y: real) {
    Odd(Count(BackEdges(poly), ExactTest(x, y)))
  }

  lemma CountStep(es: seq<Edge>, i: nat, hit: Edge -> bool)
    requires i < |es|
    ensures Odd(Count(es[..i + 1], hit)) == (Odd(Count(es[..i], hit)) != hit(es[i]))
  {
    assert es[..i + 1][..i] == es[..i];
  }

  method PointInPolygon(x: real, y: real, poly: seq<Point>) returns (a: Answer)
    ensures a == BackendAnswer(poly, x, y)
  {
    var inside := false;
    var n := |poly|;
    ghost var es, hit := Edges(poly), BackendTest(x, y);
    for i := 0 to n
      invariant forall k :: 0 <= k < i ==> !Faulty(es[k], y)
      invariant inside == Odd(Count(es[..i], hit))
    {
      var e := Edge(poly[i], poly[Succ(i, n)]);
      CountStep(es, i, hit);
      assert es[i] == e && e in es;
      if Faulty(e, y) {
        return ZeroDivision;
      }
      if BackendHit(e, x, y) {
        inside := !inside;
      }
    }
    assert es[..n] == es;
    a := if inside then Inside else Outside;
  }

  method IsPointInPolygon(px: real, py: real, poly: seq<Point>) returns (inside: bool)
    ensures inside == FrontendAnswer(poly, px, py)
  {
    inside := false;
    var n := |poly|;
    ghost var es, hit := BackEdges(poly), ExactTest(px, py);
    var i, j := 0, n - 1;
    while i < n
      invariant 0 <= i <= n && j == if i == 0 then n - 1 else i - 1
      invariant inside == Odd(Count(es[..i], hit))
    {
      var e := Edge(poly[i], poly[j]);
      CountStep(es, i, hit);
      assert es[i] == e;
      if ExactHit(e, px, py) {
        inside := !inside;
      }
      j, i := i, i + 1;
    }
    assert es[..n] == es;
  }

  // --------------------------------------------------------------------- counting

  lemma {:induction false} CountConcat(a: seq<Edge>, b: seq<Edge>, hit: Edge -> bool)
    ensures Count(a + b, hit) == Count(a, hit) + Count(b, hit)
  {
    if b == [] {
      assert a + b == a;
    } else {
      assert (a + b)[..|a + b| - 1] == a + b[..|b| - 1];
      CountConcat(a, b[..|b| - 1], hit);
    }
  }

  lemma {:induction false} CountSame(a: seq<Edge>, b: seq<Edge>, f: Edge -> bool, g: Edge -> bool)
    requires |a| == |b| && forall i :: 0 <= i < |a| ==> f(a[i]) == g(b[i])
    ensures Count(a, f) == Count(b, g)
  {
    if a != [] {
      CountSame(a[..|a| - 1], b[..|b| - 1], f, g);
    }
  }

  lemma {:induction false} CountNone(a: seq<Edge>, f: Edge -> bool)
    requires forall i :: 0 <= i < |a| ==> !f(a[i])
    ensures Count(a, f) == 0
  {
    if a != [] {
      CountNone(a[..|a| - 1], f);
    }
  }

  // ------------------------------------------------------------------ the parity fact

  /** Along the first n edges the side of the line changes once per straddling edge. */
  lemma {:induction false} SideParity(poly: seq<Point>, y: real, n: nat)
    requires n < |poly|
    ensures Odd(Count(Edges(poly)[..n], Straddling(y))) == ((poly[0].y > y) != (poly[n].y > y))
  {
    var es := Edges(poly);
    if n == 0 {
      assert es[..0] == [];
    } else {
      SideParity(poly, y, n - 1);
      CountStep(es, n - 1, Straddling(y));
      assert es[n - 1] == Edge(poly[n - 1], poly[n]);
    }
  }

  /** A closed polygon crosses every horizontal line an even number of times. */
  lemma StraddlesEven(poly: seq<Point>, y: real)
    ensures Count(Edges(poly), Straddling(y)) % 2 == 0
  {
    var es, n := Edges(poly), |poly|;
    if n > 0 {
      SideParity(poly, y, n - 1);
      CountStep(es, n - 1, Straddling(y));
      assert es[n - 1] == Edge(poly[n - 1], poly[0]) && es[..n] == es;
    }
  }

  // ----------------------------------------------------------------- the frontend

  lemma SameAbscissa(px: real, py: real, qx: real, qy: real, y: real)
    requires py != qy
    ensures (qx - px) * (y - py) / (qy - py) + px == (px - qx) * (y - qy) / (py - qy) + qx
  {
    var d := qy - py;
    var a := (qx - px) * (y - py) / d;
    var b := (px - qx) * (y - qy) / (py - qy);
    assert a * d == (qx - px) * (y - py);
    assert b * -d == (px - qx) * (y - qy);
    assert (a + px) * d == (b + qx) * d;
    CancelFactor(a + px, b + qx, d);
  }

  /** The crossing abscissa does not depend on the edge's direction. */
  lemma ExactHitSwap(p: Point, q: Point, x: real, y: real)
    ensures ExactHit(Edge(p, q), x, y) == ExactHit(Edge(q, p), x, y)
  {
    if Straddles(Edge(p, q), y) {
      SameAbscissa(p.x, p.y, q.x, q.y, y);
      assert Abscissa(p, q, y) == Abscissa(q, p, y);
    }
  }

  lemma CountShift(es: seq<Edge>, back: seq<Edge>, hit: Edge -> bool)
    requires |es| == |back| > 0 && hit(back[0]) == hit(es[|es| - 1])
    requires forall i :: 0 <= i < |es| - 1 ==> hit(back[i + 1]) == hit(es[i])
    ensures Count(back, hit) == Count(es, hit)
  {
    var n := |es|;
    var first, rest, last, init := back[..1], back[1..], es[n - 1..], es[..n - 1];
    forall i | 0 <= i < n - 1 ensures hit(rest[i]) == hit(init[i]) {
      assert rest[i] == back[i + 1];
    }
    CountSame(rest, init, hit, hit);
    CountSame(first, last, hit, hit);
    CountConcat(first, rest, hit);
    CountConcat(init, last, hit);
    assert back == first + rest && es == init + last;
  }

  /** Walking the edges backwards or forwards counts the same exact hits. */
  lemma FrontendCounts(poly: seq<Point>, x: real, y: real)
    ensures Count(BackEdges(poly), ExactTest(x, y)) == Count(Edges(poly), ExactTest(x, y))
  {
    if |poly| > 0 {
      var n, hit := |poly|, ExactTest(x, y);
      var es, back := Edges(poly), BackEdges(poly);
      forall i | 0 <= i < n - 1 ensures hit(back[i + 1]) == hit(es[i]) {
        assert Succ(i, n) == i + 1;
        ExactHitSwap(poly[i], poly[i + 1], x, y);
      }
      ExactHitSwap(poly[n - 1], poly[0], x, y);
      CountShift(es, back, hit);
    }
  }

  ghost predicate OutsideBox(poly: seq<Point>, x: real, y: real) {
    || (forall p :: p in poly ==> x < p.x) || (forall p :: p in poly ==> p.x < x)
    || (forall p :: p in poly ==> y < p.y) || (forall p :: p in poly ==> p.y < y)
  }

  /** A fraction t of the way up an edge, the crossing is a fraction t of the way across. */
  lemma AbscissaAt(p: Point, q: Point, y: real, t: real)
    requires p.y != q.y && t * (q.y - p.y) == y - p.y
    ensures Abscissa(p, q, y) == p.x + t * (q.x - p.x)
  {
    var d := q.y - p.y;
    var a := (q.x - p.x) * (y - p.y) / d;
    assert a * d == (q.x - p.x) * (t * d) == ((q.x - p.x) * t) * d;
    CancelFactor(a, (q.x - p.x) * t, d);
  }

  /** A straddled edge crosses the line between its end points' abscissas. */
  lemma AbscissaBetween(p: Point, q: Point, y: real)
    requires Straddles(Edge(p, q), y)
    ensures Min(p.x, q.x) <= Abscissa(p, q, y) <= Max(p.x, q.x)
  {
    Fraction(y - p.y, q.y - p.y);
    var t := (y - p.y) / (q.y - p.y);
    AbscissaAt(p, q, y, t);
    Between(p.x, q.x, t);
  }

  lemma HitBeside(e: Edge, x: real, y: real)
    ensures x < e.p.x && x < e.q.x ==> ExactHit(e, x, y) == Straddles(e, y)
    ensures e.p.x < x && e.q.x < x ==> !ExactHit(e, x, y)
  {
    if Straddles(e, y) {
      AbscissaBetween(e.p, e.q, y);
    }
  }

  /** The frontend reports every point outside the vertex bounding box as outside. */
  lemma OutsideBoxIsOutside(poly: seq<Point>, x: real, y: real)
    requires OutsideBox(poly, x, y)
    ensures !FrontendAnswer(poly, x, y)
  {
    FrontendCounts(poly, x, y);
    var es, hit := Edges(poly), ExactTest(x, y);
    StraddlesEven(poly, y);
    forall i | 0 <= i < |es|
      ensures hit(es[i]) == ((forall p :: p in poly ==> x < p.x) && Straddles(es[i], y))
    {
      assert es[i].p in poly && es[i].q in poly;
      HitBeside(es[i], x, y);
    }
    if forall p :: p in poly ==> x < p.x {
      CountSame(es, es, hit, Straddling(y));
    } else {
      CountNone(es, hit);
    }
  }

  // --------------------------------------------------------- what a hit is, and the inside

  /** On an edge that crosses the line of height y, the crossing is a point of the edge, and
      the only one at that height. */
  lemma AbscissaOnly(p: Point, q: Point, y: real, z: Point)
    requires Straddles(Edge(p, q), y) && On(z, p, q) && z.y == y
    ensures z.x == Abscissa(p, q, y)
  {
    var s: real :| 0.0 <= s <= 1.0 && z == Along(p, q, s);
    AbscissaAt(p, q, y, s);
  }

  lemma AbscissaOn(p: Point, q: Point, y: real)
    requires Straddles(Edge(p, q), y)
    ensures On(Point(Abscissa(p, q, y), y), p, q)
    ensures forall z :: On(z, p, q) && z.y == y ==> z.x == Abscissa(p, q, y)
  {
    Fraction(y - p.y, q.y - p.y);
    var t := (y - p.y) / (q.y - p.y);
    AbscissaAt(p, q, y, t);
    assert Point(Abscissa(p, q, y), y) == Along(p, q, t);
    forall z | On(z, p, q) && z.y == y ensures z.x == Abscissa(p, q, y) {
      AbscissaOnly(p, q, y, z);
    }
  }

  /** The edge has one end above the line of height y, the other not, and a point at that
      height to the right of x. */
  ghost predicate CrossesRight(e: Edge, x: real, y: real) {
    ((e.p.y > y && e.q.y <= y) || (e.p.y <= y && e.q.y > y)) && exists z :: On(z, e.p, e.q) && z.y == y && x < z.x
  }

  /** The frontend's hits are the edges that cross the ray to the right. */
  lemma HitIsCrossing(e: Edge, x: real, y: real)
    ensures ExactHit(e, x, y) <==> CrossesRight(e, x, y)
  {
    if Straddles(e, y) {
      AbscissaOn(e.p, e.q, y);
    }
  }

  /** How many of the edges from the first n vertices cross the ray. */
  ghost function Crossings(poly: seq<Point>, n: nat, x: real, y: real): nat
    requires n <= |poly|
  {
    if n == 0 then 0
    else Crossings(poly, n - 1, x, y)
         + (if CrossesRight(Edge(poly[n - 1], poly[if n < |poly| then n else 0]), x, y) then 1 else 0)
  }

  lemma {:induction false} CrossingsCounted(poly: seq<Point>, n: nat, x: real, y: real)
    requires n <= |poly|
    ensures Count(Edges(poly)[..n], ExactTest(x, y)) == Crossings(poly, n, x, y)
  {
    var es := Edges(poly);
    if n == 0 {
      assert es[..0] == [];
    } else {
      CrossingsCounted(poly, n - 1, x, y);
      assert es[..n][..n - 1] == es[..n - 1];
      assert es[n - 1] == Edge(poly[n - 1], poly[if n < |poly| then n else 0]);
      HitIsCrossing(es[n - 1], x, y);
    }
  }

  /** The frontend reports a point as inside exactly when an odd number of edges cross the
      ray to its right. */
  lemma InsideIsOdd(poly: seq<Point>, x: real, y: real)
    ensures FrontendAnswer(poly, x, y) <==> Crossings(poly, |poly|, x, y) % 2 == 1
  {
    FrontendCounts(poly, x, y);
    CrossingsCounted(poly, |poly|, x, y);
    assert Edges(poly)[..|poly|] == Edges(poly);
  }

  /** An edge going up is hit from its left, one going down from its right. */
  lemma HitBySide(p: Point, q: Point, x: real, y: real)
    ensures p.y <= y < q.y ==> (ExactHit(Edge(p, q), x, y) <==> Orient(p, q, Point(x, y)) > 0.0)
    ensures q.y <= y < p.y ==> (ExactHit(Edge(p, q), x, y) <==> Orient(p, q, Point(x, y)) < 0.0)
    ensures !(p.y <= y < q.y) && !(q.y <= y < p.y) ==> !ExactHit(Edge(p, q), x, y)
  {
    if Straddles(Edge(p, q), y) {
      var d := q.y - p.y;
      var a := (q.x - p.x) * (y - p.y) / d;
      assert a * d == (q.x - p.x) * (y - p.y);
      assert Orient(p, q, Point(x, y)) == (a + p.x - x) * d;
      Signs(a + p.x - x, d);
    }
  }

  /** A point weighs the corners of a triangle by the areas it cuts off. */
  lemma Weights(a: Point, b: Point, c: Point, z: Point)
    ensures Orient(b, c, z) * (a.y - z.y) + Orient(c, a, z) * (b.y - z.y) + Orient(a, b, z) * (c.y - z.y) == 0.0
  {
  }

  /** So a point strictly inside has a corner above it and one not above it. */
  lemma CornersApart(a: Point, b: Point, c: Point, z: Point, sign: real)
    requires sign == 1.0 || sign == -1.0
    requires sign * Orient(a, b, z) > 0.0 && sign * Orient(b, c, z) > 0.0 && sign * Orient(c, a, z) > 0.0
    ensures !(a.y > z.y && b.y > z.y && c.y > z.y) && !(a.y <= z.y && b.y <= z.y && c.y <= z.y)
  {
    Weights(a, b, c, z);
    Signs(Orient(b, c, z), a.y - z.y);
    Signs(Orient(c, a, z), b.y - z.y);
    Signs(Orient(a, b, z), c.y - z.y);
  }

  /** The frontend reports every point strictly inside a triangle as inside, whichever way
      round it is drawn. */
  lemma InsideTriangle(a: Point, b: Point, c: Point, x: real, y: real, sign: real)
    requires sign == 1.0 || sign == -1.0
    requires var z := Point(x, y);
             sign * Orient(a, b, z) > 0.0 && sign * Orient(b, c, z) > 0.0 && sign * Orient(c, a, z) > 0.0
    ensures FrontendAnswer([a, b, c], x, y)
  {
    var es, hit := Edges([a, b, c]), ExactTest(x, y);
    FrontendCounts([a, b, c], x, y);
    CornersApart(a, b, c, Point(x, y), sign);
    HitBySide(a, b, x, y);
    HitBySide(b, c, x, y);
    HitBySide(c, a, x, y);
    assert es == [Edge(a, b), Edge(b, c), Edge(c, a)];
    assert es[..3] == es && es[..0] == [];
    CountStep(es, 0, hit);
    CountStep(es, 1, hit);
    CountStep(es, 2, hit);
  }

  // ------------------------------------------------------------------ the backend

  function Rotate<T>(s: seq<T>, k: nat): seq<T>
    requires k <= |s|
  {
    s[k..] + s[..k]
  }

  lemma RotateEdges(poly: seq<Point>, k: nat)
    requires k <= |poly|
    ensures Edges(Rotate(poly, k)) == Rotate(Edges(poly), k)
  {
    var n, r, es := |poly|, Rotate(poly, k), Edges(poly);
    forall i | 0 <= i < n ensures Edges(r)[i] == Rotate(es, k)[i] {
      var a := if i + k < n then i + k else i + k - n;
      assert r[i] == poly[a] && Rotate(es, k)[i] == es[a];
      assert r[Succ(i, n)] == poly[Succ(a, n)];
    }
  }

  lemma RotateAnswer(es: seq<Edge>, k: nat, x: real, y: real)
    requires k <= |es|
    ensures EdgesAnswer(Rotate(es, k), x, y) == EdgesAnswer(es, x, y)
  {
    var hit, a, b := BackendTest(x, y), es[..k], es[k..];
    CountConcat(b, a, hit);
    CountConcat(a, b, hit);
    assert es == a + b;
    assert forall e :: e in b + a <==> e in es;
  }

  /** Which vertex a polygon's list starts with does not matter, to the parity or to
      the exception. */
  lemma RotationInvariant(poly: seq<Point>, k: nat, x: real, y: real)
    requires k <= |poly|
    ensures BackendAnswer(Rotate(poly, k), x, y) == BackendAnswer(poly, x, y)
  {
    RotateEdges(poly, k);
    RotateAnswer(Edges(poly), k, x, y);
  }

  /** An edge whose stretched denominator throws its crossing past one of its ends: it
      falls across the ray to a vertex less than EPS below it, and the point lies between
      the crossing and the upper vertex. */
  predicate Stray(e: Edge, x: real, y: real) {
    && e.q.y <= y < e.p.y && y - e.q.y < EPS && !Faulty(e, y)
    && ((x < e.p.x) != (x < BackendAbscissa(e.p, e.q, y)))
  }

  function StrayTest(x: real, y: real): Edge -> bool { e => Stray(e, x, y) }

  /** On every other straddling edge the crossing lies between the end points. */
  lemma BackendBetween(p: Point, q: Point, y: real)
    requires Straddles(Edge(p, q), y) && !(q.y <= y < p.y && y - q.y < EPS)
    ensures !Faulty(Edge(p, q), y)
    ensures Min(p.x, q.x) <= BackendAbscissa(p, q, y) <= Max(p.x, q.x)
  {
    var d := q.y - p.y + EPS;
    Fraction(y - p.y, d);
    var t := (y - p.y) / d;
    var a := (q.x - p.x) * (y - p.y) / d;
    assert a * d == (q.x - p.x) * (t * d) == ((q.x - p.x) * t) * d;
    CancelFactor(a, (q.x - p.x) * t, d);
    Between(p.x, q.x, t);
    var w := t * (q.x - p.x);
    assert BackendAbscissa(p, q, y) == a + p.x == w + p.x;
  }

  /** Beside an edge a hit is a straddle, unless the edge is stray. */
  lemma BackendHitBeside(e: Edge, x: real, y: real)
    requires !Faulty(e, y)
    ensures x < e.p.x && x < e.q.x ==> BackendHit(e, x, y) == (Straddles(e, y) != Stray(e, x, y))
    ensures e.p.x < x && e.q.x < x ==> BackendHit(e, x, y) == Stray(e, x, y)
  {
    assert e == Edge(e.p, e.q);
    if Straddles(e, y) && !(e.q.y <= y < e.p.y && y - e.q.y < EPS) {
      BackendBetween(e.p, e.q, y);
    }
  }

  lemma {:induction false} CountXor(es: seq<Edge>, f: Edge -> bool, g: Edge -> bool, h: Edge -> bool)
    requires forall i :: 0 <= i < |es| ==> f(es[i]) == (g(es[i]) != h(es[i]))
    ensures Odd(Count(es, f)) == (Odd(Count(es, g)) != Odd(Count(es, h)))
  {
    if es != [] {
      CountXor(es[..|es| - 1], f, g, h);
    }
  }

  /** The backend reports a point outside the bounding box as outside exactly when no
      straddling edge has a zero denominator and the stray edges are even in number. */
  lemma BackendOutsideExact(poly: seq<Point>, x: real, y: real)
    requires OutsideBox(poly, x, y)
    ensures BackendAnswer(poly, x, y) == Outside
       <==> (forall e :: e in Edges(poly) ==> !Faulty(e, y)) && !Odd(Count(Edges(poly), StrayTest(x, y)))
  {
    var es, hit := Edges(poly), BackendTest(x, y);
    if forall e :: e in es ==> !Faulty(e, y) {
      StraddlesEven(poly, y);
      var left := forall p :: p in poly ==> x < p.x;
      var base: Edge -> bool := if left then Straddling(y) else (_ => false);
      CountNone(es, _ => false);
      forall i | 0 <= i < |es| ensures hit(es[i]) == (base(es[i]) != Stray(es[i], x, y)) {
        assert es[i] in es && es[i].p in poly && es[i].q in poly;
        BackendHitBeside(es[i], x, y);
      }
      CountXor(es, hit, base, StrayTest(x, y));
    }
  }

  /** No vertex lies within EPS below the ray. */
  ghost predicate Clear(poly: seq<Point>, y: real) {
    forall p :: p in poly ==> p.y > y || p.y <= y - EPS
  }

  /** A polygon with no vertex there has no stray edge and no zero denominator. */
  lemma BackendOutsideBox(poly: seq<Point>, x: real, y: real)
    requires OutsideBox(poly, x, y) && Clear(poly, y)
    ensures BackendAnswer(poly, x, y) == Outside
  {
    var es := Edges(poly);
    forall e | e in es ensures !Faulty(e, y) && !Stray(e, x, y) {
      assert e.p in poly && e.q in poly && e == Edge(e.p, e.q);
      if Straddles(e, y) {
        BackendBetween(e.p, e.q, y);
      }
    }
    CountNone(es, StrayTest(x, y));
    BackendOutsideExact(poly, x, y);
  }

  /** A straddling edge whose stretched crossing and true crossing lie on different sides
      of the point. */
  predicate Parted(e: Edge, x: real, y: real) {
    && Straddles(e, y) && !Faulty(e, y)
    && var b, a := BackendAbscissa(e.p, e.q, y), Abscissa(e.p, e.q, y);
       Min(a, b) <= x < Max(a, b)
  }

  function PartedTest(x: real, y: real): Edge -> bool { e => Parted(e, x, y) }

  /** How far the epsilon reaches: wherever the point lies, the backend gives the
      frontend's answer as long as no straddling edge has a zero denominator and the edges
      on which their two tests differ cancel out in pairs. */
  lemma BackendAgreesExactly(poly: seq<Point>, x: real, y: real)
    ensures BackendAnswer(poly, x, y) == (if FrontendAnswer(poly, x, y) then Inside else Outside)
       <==> (forall e :: e in Edges(poly) ==> !Faulty(e, y)) && !Odd(Count(Edges(poly), PartedTest(x, y)))
  {
    var es := Edges(poly);
    FrontendCounts(poly, x, y);
    if forall e :: e in es ==> !Faulty(e, y) {
      CountXor(es, BackendTest(x, y), ExactTest(x, y), PartedTest(x, y));
    }
  }

  const LEAK := [Point(0.0, 0.5000000015), Point(0.5, 0.5), Point(0.25, 1.0)]

  lemma LeakIsValid()
    ensures Polygons.Judged(LEAK, Polygons.Valid)
  {
    var a, b, c := LEAK[0], LEAK[1], LEAK[2];
    assert {a, b, c} == set p | p in LEAK;
    assert |{a, b, c}| == 3;
    assert Polygons.Next(LEAK, 0) == b && Polygons.Next(LEAK, 1) == c && Polygons.Next(LEAK, 2) == a;
    assert Polygons.Shoelace(LEAK, 3) == Polygons.Shoelace(LEAK, 2) + (c.x * a.y - a.x * c.y);
    assert Polygons.Shoelace(LEAK, 2) == Polygons.Shoelace(LEAK, 1) + (b.x * c.y - c.x * b.y);
    assert Polygons.Shoelace(LEAK, 1) == a.x * b.y - b.x * a.y;
  }

  /** A stray edge of an accepted polygon: the backend reports a point to the right of
      the whole triangle as inside. */
  lemma BackendEpsilonLeaks()
    ensures Polygons.Judged(LEAK, Polygons.Valid)
    ensures OutsideBox(LEAK, 1.0, 0.5000000001) && BackendAnswer(LEAK, 1.0, 0.5000000001) == Inside
  {
    LeakIsValid();
    var a, b, c, y := LEAK[0], LEAK[1], LEAK[2], 0.5000000001;
    var es, stray := Edges(LEAK), StrayTest(1.0, y);
    assert es == [Edge(a, b), Edge(b, c), Edge(c, a)];
    assert stray(Edge(a, b)) && !stray(Edge(b, c)) && !stray(Edge(c, a));
    assert es[..3] == es && es[..2][..1] == es[..1] && es[..0] == [];
    CountStep(es, 0, stray);
    CountStep(es, 1, stray);
    CountStep(es, 2, stray);
    assert forall e :: e in es ==> !Faulty(e, y);
    BackendOutsideExact(LEAK, 1.0, y);
  }
}
