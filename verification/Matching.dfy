/** Matchings of a rectangular cost matrix: their total cost, and the counting
    facts every argument about them rests on. */
module Matching {

  /** A cost matrix with an explicit shape, so that an empty side keeps the
      length of the other. */
  datatype Matrix = Matrix(rows: nat, cols: nat, cell: seq<seq<real>>) {
    ghost predicate Valid() {
      |cell| == rows && forall r :: 0 <= r < rows ==> |cell[r]| == cols
    }

    function Transpose(): (t: Matrix)
      requires Valid()
      ensures t.Valid() && t.rows == cols && t.cols == rows
      ensures forall r, k :: 0 <= r < rows && 0 <= k < cols ==> t.cell[k][r] == cell[r][k]
    {
      Matrix(cols, rows, seq(cols, k requires 0 <= k < cols => seq(rows, r requires 0 <= r < rows => cell[r][k])))
    }
  }

  function Min(a: nat, b: nat): nat { if a <= b then a else b }

  ghost predicate Distinct(s: seq<int>) {
    forall a, b :: 0 <= a < b < |s| ==> s[a] != s[b]
  }

  ghost predicate Below(s: seq<int>, n: nat) {
    forall k :: 0 <= k < |s| ==> 0 <= s[k] < n
  }

  /** Pairs (rs[k], cs[k]) that use no row twice and no column twice. */
  ghost predicate IsMatching(rows: nat, cols: nat, rs: seq<int>, cs: seq<int>) {
    |rs| == |cs| && Distinct(rs) && Distinct(cs) && Below(rs, rows) && Below(cs, cols)
  }

  /** Cells of a matrix, as two index lists. */
  ghost predicate Pairs(c: Matrix, rs: seq<int>, cs: seq<int>) {
    c.Valid() && |rs| == |cs| && Below(rs, c.rows) && Below(cs, c.cols)
  }

  ghost function Total(c: Matrix, rs: seq<int>, cs: seq<int>): real
    requires Pairs(c, rs, cs)
  {
    if rs == [] then 0.0
    else Total(c, rs[..|rs| - 1], cs[..|cs| - 1]) + c.cell[rs[|rs| - 1]][cs[|cs| - 1]]
  }

  /** Exchanging one pair moves the total by the difference of the two costs. */
  lemma {:induction false} TotalExchange(c: Matrix, rs: seq<int>, cs: seq<int>, k: nat, r: int, j: int)
    requires Pairs(c, rs, cs) && k < |rs| && 0 <= r < c.rows && 0 <= j < c.cols
    ensures Pairs(c, rs[k := r], cs[k := j])
    ensures Total(c, rs[k := r], cs[k := j]) == Total(c, rs, cs) - c.cell[rs[k]][cs[k]] + c.cell[r][j]
  {
    var n := |rs| - 1;
    if k == n {
      assert rs[k := r][..n] == rs[..n] && cs[k := j][..n] == cs[..n];
    } else {
      assert rs[k := r][..n] == rs[..n][k := r] && cs[k := j][..n] == cs[..n][k := j];
      TotalExchange(c, rs[..n], cs[..n], k, r, j);
    }
  }

  ghost function Sum(s: seq<real>): real {
    if s == [] then 0.0 else Sum(s[..|s| - 1]) + s[|s| - 1]
  }

  /** The entries of s at the positions of idx, added up. */
  ghost function PickSum(s: seq<real>, idx: seq<int>): real
    requires Below(idx, |s|)
  {
    if idx == [] then 0.0 else PickSum(s, idx[..|idx| - 1]) + s[idx[|idx| - 1]]
  }

  lemma {:induction false} SumUpdate(s: seq<real>, k: nat, x: real)
    requires k < |s|
    ensures Sum(s[k := x]) == Sum(s) - s[k] + x
  {
    var t := s[k := x];
    if k == |s| - 1 {
      assert t[..|s| - 1] == s[..|s| - 1];
    } else {
      assert t[..|s| - 1] == s[..|s| - 1][k := x];
      SumUpdate(s[..|s| - 1], k, x);
    }
  }

  lemma {:induction false} SumSign(s: seq<real>)
    ensures (forall j :: 0 <= j < |s| ==> s[j] <= 0.0) ==> Sum(s) <= 0.0
    ensures (forall j :: 0 <= j < |s| ==> s[j] == 0.0) ==> Sum(s) == 0.0
  {
    if s != [] {
      SumSign(s[..|s| - 1]);
    }
  }

  lemma {:induction false} PickSumUpdate(s: seq<real>, idx: seq<int>, k: nat, x: real)
    requires Below(idx, |s|) && k < |s| && k !in idx
    ensures PickSum(s[k := x], idx) == PickSum(s, idx)
  {
    if idx != [] {
      PickSumUpdate(s, idx[..|idx| - 1], k, x);
    }
  }

  /** Picking each position at most once compares with the whole sum: what is
      left out is non-positive, or zero. */
  lemma {:induction false} PickSumTotal(s: seq<real>, idx: seq<int>)
    requires Below(idx, |s|) && Distinct(idx)
    ensures (forall j :: 0 <= j < |s| && j !in idx ==> s[j] <= 0.0) ==> Sum(s) <= PickSum(s, idx)
    ensures (forall j :: 0 <= j < |s| && j !in idx ==> s[j] == 0.0) ==> Sum(s) == PickSum(s, idx)
    decreases |idx|
  {
    if idx == [] {
      SumSign(s);
    } else {
      var rest, k := idx[..|idx| - 1], idx[|idx| - 1];
      assert k !in rest;
      var t := s[k := 0.0];
      SumUpdate(s, k, 0.0);
      PickSumUpdate(s, rest, k, 0.0);
      PickSumTotal(t, rest);
      forall j | 0 <= j < |t| && j !in rest ensures j == k || j !in idx {
        assert idx == rest + [k];
      }
    }
  }

  ghost function Range(n: nat): (s: set<int>)
    ensures |s| == n
    ensures forall j :: j in s <==> 0 <= j < n
  {
    if n == 0 then {} else Range(n - 1) + {n - 1}
  }

  lemma {:induction false} DistinctSize(s: seq<int>)
    requires Distinct(s)
    ensures |set x | x in s| == |s|
  {
    if s != [] {
      var rest := s[..|s| - 1];
      DistinctSize(rest);
      assert (set x | x in s) == (set x | x in rest) + {s[|s| - 1]};
    } else {
      assert (set x | x in s) == {};
    }
  }

  lemma SubsetSize(a: set<int>, b: set<int>)
    requires a <= b
    ensures |a| <= |b|
  {
    assert b == a + (b - a);
  }

  /** A duplicate-free sequence below n that has fewer than n entries misses a
      value; one with n entries misses none. */
  lemma Pigeonhole(s: seq<int>, n: nat)
    requires Distinct(s) && Below(s, n)
    ensures |s| <= n
    ensures |s| < n ==> exists j :: 0 <= j < n && j !in s
    ensures |s| == n ==> forall j :: 0 <= j < n ==> j in s
  {
    DistinctSize(s);
    var d := set x | x in s;
    assert d <= Range(n);
    SubsetSize(d, Range(n));
    if |s| < n && forall j :: 0 <= j < n ==> j in s {
      assert Range(n) <= d;
      SubsetSize(Range(n), d);
    }
    if |s| == n && exists j :: 0 <= j < n && j !in s {
      var j :| 0 <= j < n && j !in s;
      SubsetSize(d, Range(n) - {j});
    }
  }

  /** A sequence that hits each value below n exactly once has n entries. */
  lemma CoverSize(s: seq<int>, n: nat)
    requires Distinct(s) && Below(s, n)
    requires forall j :: 0 <= j < n ==> j in s
    ensures |s| == n
  {
    Pigeonhole(s, n);
  }

  /** Swapping the two sides of a matrix and of a matching changes no cost. */
  lemma {:induction false} TotalTranspose(c: Matrix, rs: seq<int>, cs: seq<int>)
    requires c.Valid() && IsMatching(c.rows, c.cols, rs, cs)
    ensures Total(c.Transpose(), cs, rs) == Total(c, rs, cs)
  {
    if rs != [] {
      TotalTranspose(c, rs[..|rs| - 1], cs[..|cs| - 1]);
    }
  }

  /** Weak duality: potentials that never exceed a cost bound every matching
      from below by what they pay on its rows and columns; tight potentials
      attain the bound. */
  lemma {:induction false} DualBound(c: Matrix, u: seq<real>, v: seq<real>, rs: seq<int>, cs: seq<int>)
    requires c.Valid() && |u| == c.rows && |v| == c.cols
    requires IsMatching(c.rows, c.cols, rs, cs)
    requires forall k :: 0 <= k < |rs| ==> u[rs[k]] + v[cs[k]] <= c.cell[rs[k]][cs[k]]
    ensures PickSum(u, rs) + PickSum(v, cs) <= Total(c, rs, cs)
    ensures (forall k :: 0 <= k < |rs| ==> u[rs[k]] + v[cs[k]] == c.cell[rs[k]][cs[k]])
            ==> PickSum(u, rs) + PickSum(v, cs) == Total(c, rs, cs)
  {
    if rs != [] {
      DualBound(c, u, v, rs[..|rs| - 1], cs[..|cs| - 1]);
    }
  }
}
