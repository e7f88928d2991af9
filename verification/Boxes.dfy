/** Axis-aligned boxes in normalised coordinates. */
module Boxes {
  import opened Basics

  datatype Box = Box(x1: real, y1: real, x2: real, y2: real)

  /** The quotient, from the spans of the intersection and of the two boxes. */
  function SpanIou(iw: real, ih: real, aw: real, ah: real, bw: real, bh: real): real {
    if iw <= 0.0 || ih <= 0.0 then 0.0 else
    var inter := iw * ih;
    var union := aw * ah + bw * bh - inter;
    if union > 0.0 then inter / union else 0.0
  }

  function BoxIou(a: Box, b: Box): real {
    SpanIou(Min(a.x2, b.x2) - Max(a.x1, b.x1), Min(a.y2, b.y2) - Max(a.y1, b.y1),
            a.x2 - a.x1, a.y2 - a.y1, b.x2 - b.x1, b.y2 - b.y1)
  }

  ghost predicate Strictly(a: Box, x: real, y: real) {
    a.x1 < x < a.x2 && a.y1 < y < a.y2
  }

  /** The open rectangles have a common point. */
  ghost predicate Overlap(a: Box, b: Box) {
    exists x: real, y: real ::
      Strictly(a, x, y) && Strictly(b, x, y)
  }

  ghost predicate Contains(outer: Box, inner: Box) {
    outer.x1 <= inner.x1 && inner.x2 <= outer.x2 && outer.y1 <= inner.y1 && inner.y2 <= outer.y2
  }

  lemma MulMono(a: real, b: real, c: real, d: real)
    requires 0.0 < a <= c && 0.0 < b <= d
    ensures 0.0 < a * b <= c * d
  {
    assert a * b <= c * b <= c * d;
  }

  /** A quotient is at most k when the numerator is at most k times the
      (positive) denominator, and at least k in the mirrored case. */
  lemma QuotientBound(p: real, q: real, k: real)
    requires q > 0.0
    ensures p <= k * q <==> p / q <= k
    ensures k * q <= p <==> k <= p / q
  {
    var r := p / q;
    assert r * q == p;
    if r < k {
      assert r * q < k * q;
    } else if k < r {
      assert k * q < r * q;
    }
  }

  lemma OverlapSpans(a: Box, b: Box)
    ensures Overlap(a, b) <==> Max(a.x1, b.x1) < Min(a.x2, b.x2) && Max(a.y1, b.y1) < Min(a.y2, b.y2)
  {
    if Max(a.x1, b.x1) < Min(a.x2, b.x2) && Max(a.y1, b.y1) < Min(a.y2, b.y2) {
      var x := (Max(a.x1, b.x1) + Min(a.x2, b.x2)) / 2.0;
      var y := (Max(a.y1, b.y1) + Min(a.y2, b.y2)) / 2.0;
      assert Strictly(a, x, y) && Strictly(b, x, y);
    }
  }

  lemma QuotientOf(inter: real, areaA: real, areaB: real)
    requires 0.0 < inter <= areaA && inter <= areaB
    ensures areaA + areaB - inter > 0.0
    ensures 0.0 < inter / (areaA + areaB - inter) <= 1.0
  {
    var union := areaA + areaB - inter;
    QuotientBound(inter, union, 1.0);
    QuotientBound(inter, union, 0.0);
  }

  lemma SpanIouRange(iw: real, ih: real, aw: real, ah: real, bw: real, bh: real)
    requires iw <= aw && iw <= bw && ih <= ah && ih <= bh
    ensures 0.0 <= SpanIou(iw, ih, aw, ah, bw, bh) <= 1.0
    ensures SpanIou(iw, ih, aw, ah, bw, bh) > 0.0 <==> iw > 0.0 && ih > 0.0
  {
    if iw > 0.0 && ih > 0.0 {
      MulMono(iw, ih, aw, ah);
      MulMono(iw, ih, bw, bh);
      QuotientOf(iw * ih, aw * ah, bw * bh);
    }
  }

  /** Intersection over union is a number between 0 and 1, positive exactly when
      the boxes overlap in an open region. */
  lemma BoxIouMeaning(a: Box, b: Box)
    ensures 0.0 <= BoxIou(a, b) <= 1.0
    ensures BoxIou(a, b) > 0.0 <==> Overlap(a, b)
  {
    OverlapSpans(a, b);
    SpanIouRange(Min(a.x2, b.x2) - Max(a.x1, b.x1), Min(a.y2, b.y2) - Max(a.y1, b.y1),
                 a.x2 - a.x1, a.y2 - a.y1, b.x2 - b.x1, b.y2 - b.y1);
  }
}
