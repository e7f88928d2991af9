/** Why a large constant on forbidden pairs turns a minimum-cost assignment into
    a maximum matching of the permitted pairs. */
module GatedMatching {
  import opened Matching

  const BIG := 100000.0
  const LO := -0.30
  const HI := 0.70

  /** Every entry is either a permitted pair's small cost or the forbidden
      constant. */
  ghost predicate TwoTier(c: Matrix) {
    c.Valid() && forall r, k :: 0 <= r < c.rows && 0 <= k < c.cols ==>
      LO <= c.cell[r][k] <= HI || c.cell[r][k] == BIG
  }

  /** A matching that uses only pairs costing at most `limit`. */
  ghost predicate Within(c: Matrix, limit: real, rs: seq<int>, cs: seq<int>) {
    c.Valid() && IsMatching(c.rows, c.cols, rs, cs) &&
    forall k :: 0 <= k < |rs| ==> c.cell[rs[k]][cs[k]] <= limit
  }

  /** The positions a cutoff keeps, in order. */
  ghost function Kept(c: Matrix, limit: real, rs: seq<int>, cs: seq<int>): (kept: (seq<int>, seq<int>))
    requires Pairs(c, rs, cs)
    ensures Pairs(c, kept.0, kept.1) && |kept.0| <= |rs|
  {
    if rs == [] then ([], []) else
    var n := |rs| - 1;
    var rest := Kept(c, limit, rs[..n], cs[..n]);
    if c.cell[rs[n]][cs[n]] <= limit then (rest.0 + [rs[n]], rest.1 + [cs[n]]) else rest
  }

  /** Of a matching the cutoff keeps a matching of pairs within the limit. */
  lemma {:induction false} KeptWithin(c: Matrix, limit: real, rs: seq<int>, cs: seq<int>)
    requires c.Valid() && IsMatching(c.rows, c.cols, rs, cs)
    ensures Within(c, limit, Kept(c, limit, rs, cs).0, Kept(c, limit, rs, cs).1)
    ensures forall r :: r in Kept(c, limit, rs, cs).0 ==> r in rs
    ensures forall k :: k in Kept(c, limit, rs, cs).1 ==> k in cs
  {
    if rs != [] {
      var n := |rs| - 1;
      KeptWithin(c, limit, rs[..n], cs[..n]);
      assert rs[n] !in rs[..n] && cs[n] !in cs[..n];
    }
  }

  lemma TimesNext(k: real, n: nat)
    ensures k * (n + 1) as real == k * n as real + k
  {
  }

  lemma TotalSnoc(c: Matrix, rs: seq<int>, cs: seq<int>, r: int, k: int)
    requires Pairs(c, rs, cs) && 0 <= r < c.rows && 0 <= k < c.cols
    ensures Pairs(c, rs + [r], cs + [k])
    ensures Total(c, rs + [r], cs + [k]) == Total(c, rs, cs) + c.cell[r][k]
  {
    assert (rs + [r])[..|rs|] == rs && (cs + [k])[..|cs|] == cs;
  }

  /** One more pair adds its cost, and is kept when it is within the limit. */
  lemma KeptNext(c: Matrix, limit: real, rs: seq<int>, cs: seq<int>)
    requires Pairs(c, rs, cs) && rs != []
    ensures var n := |rs| - 1;
            var cost := c.cell[rs[n]][cs[n]];
            var (rest, kept) := (Kept(c, limit, rs[..n], cs[..n]), Kept(c, limit, rs, cs));
            && Total(c, rs, cs) == Total(c, rs[..n], cs[..n]) + cost
            && |kept.0| == (if cost <= limit then |rest.0| + 1 else |rest.0|)
            && Total(c, kept.0, kept.1)
                 == (if cost <= limit then Total(c, rest.0, rest.1) + cost else Total(c, rest.0, rest.1))
  {
    var n := |rs| - 1;
    var rest := Kept(c, limit, rs[..n], cs[..n]);
    if c.cell[rs[n]][cs[n]] <= limit {
      TotalSnoc(c, rest.0, rest.1, rs[n], cs[n]);
    }
  }

  lemma {:induction false} KeptTotal(c: Matrix, limit: real, rs: seq<int>, cs: seq<int>)
    requires TwoTier(c) && HI <= limit < BIG && Pairs(c, rs, cs)
    ensures var kept := Kept(c, limit, rs, cs);
            Total(c, rs, cs) == Total(c, kept.0, kept.1) + BIG * (|rs| - |kept.0|) as real
    ensures var kept := Kept(c, limit, rs, cs);
            LO * |kept.0| as real <= Total(c, kept.0, kept.1)
  {
    if rs != [] {
      var n := |rs| - 1;
      var rest := Kept(c, limit, rs[..n], cs[..n]);
      KeptTotal(c, limit, rs[..n], cs[..n]);
      KeptNext(c, limit, rs, cs);
      TimesNext(BIG, n - |rest.0|);
      TimesNext(LO, |rest.0|);
    }
  }

  lemma {:induction false} WithinTotal(c: Matrix, limit: real, rs: seq<int>, cs: seq<int>)
    requires TwoTier(c) && limit < BIG && Within(c, limit, rs, cs)
    ensures Total(c, rs, cs) <= HI * |rs| as real
  {
    if rs != [] {
      var n := |rs| - 1;
      WithinTotal(c, limit, rs[..n], cs[..n]);
      TimesNext(HI, n);
      assert c.cell[rs[n]][cs[n]] <= HI;
    }
  }

  lemma OneMorePair(c: Matrix, rs: seq<int>, cs: seq<int>, r: int, k: int)
    requires TwoTier(c) && IsMatching(c.rows, c.cols, rs, cs)
    requires 0 <= r < c.rows && r !in rs && 0 <= k < c.cols && k !in cs
    ensures IsMatching(c.rows, c.cols, rs + [r], cs + [k])
    ensures Total(c, rs + [r], cs + [k]) <= Total(c, rs, cs) + BIG
  {
    assert (rs + [r])[..|rs|] == rs && (cs + [k])[..|cs|] == cs;
    assert c.cell[r][k] <= BIG;
  }

  /** A matching extends to a complete one, paying at most BIG per added pair. */
  lemma {:induction false} Extend(c: Matrix, rs: seq<int>, cs: seq<int>) returns (rs': seq<int>, cs': seq<int>)
    requires TwoTier(c) && IsMatching(c.rows, c.cols, rs, cs)
    ensures IsMatching(c.rows, c.cols, rs', cs') && |rs'| == Min(c.rows, c.cols)
    ensures |rs| <= |rs'|
    ensures Total(c, rs', cs') <= Total(c, rs, cs) + BIG * (|rs'| - |rs|) as real
    decreases c.rows - |rs|
  {
    rs', cs' := rs, cs;
    Pigeonhole(rs, c.rows);
    Pigeonhole(cs, c.cols);
    if |rs| < Min(c.rows, c.cols) {
      var r: int :| 0 <= r < c.rows && r !in rs;
      var k: int :| 0 <= k < c.cols && k !in cs;
      OneMorePair(c, rs, cs, r, k);
      rs', cs' := Extend(c, rs + [r], cs + [k]);
      TimesNext(BIG, |rs'| - |rs| - 1);
    }
  }

  /** Below the cutoff, an optimal complete assignment of fewer than 100,000 pairs
      keeps a maximum matching of the permitted pairs, and among the maximum
      matchings a cheapest one. */
  lemma KeptIsMaximum(c: Matrix, limit: real, rs: seq<int>, cs: seq<int>, rs2: seq<int>, cs2: seq<int>)
    requires TwoTier(c) && HI <= limit < BIG
    requires IsMatching(c.rows, c.cols, rs, cs) && |rs| == Min(c.rows, c.cols) < 100000
    requires forall rs3, cs3 :: IsMatching(c.rows, c.cols, rs3, cs3) && |rs3| == |rs| ==>
               Total(c, rs, cs) <= Total(c, rs3, cs3)
    requires Within(c, limit, rs2, cs2)
    ensures var kept := Kept(c, limit, rs, cs);
            && |rs2| <= |kept.0|
            && (|rs2| == |kept.0| ==> Total(c, kept.0, kept.1) <= Total(c, rs2, cs2))
  {
    var kept := Kept(c, limit, rs, cs);
    KeptTotal(c, limit, rs, cs);
    WithinTotal(c, limit, rs2, cs2);
    var rs3, cs3 := Extend(c, rs2, cs2);
    var g, g2 := |kept.0|, |rs2|;
    assert Total(c, kept.0, kept.1) + BIG * (|rs| - g) as real
        <= Total(c, rs2, cs2) + BIG * (|rs| - g2) as real;
  }
}
