/** The Kuhn-Munkres assignment engine: potentials, the search tree of one row
    insertion, and the optimality of the result. */
module LinearSumAssignment {
  import opened Matching

  /** The engine's running minima start at infinity. */
  datatype Bound = Inf | Fin(val: real)

  predicate Less(a: real, b: Bound) { b.Inf? || a < b.val }

  // ---------------------------------------------------------------- potentials

  ghost predicate Shape(c: Matrix, u: seq<real>, v: seq<real>) {
    c.Valid() && |u| == c.rows && |v| == c.cols
  }

  function Slack(c: Matrix, u: seq<real>, v: seq<real>, r: int, j: int): real
    requires c.Valid() && |u| == c.rows && |v| == c.cols
    requires 0 <= r < c.rows && 0 <= j < c.cols
  {
    c.cell[r][j] - u[r] - v[j]
  }

  ghost predicate Feasible(c: Matrix, u: seq<real>, v: seq<real>, k: int)
    requires Shape(c, u, v) && k <= c.rows
  {
    forall r, j :: 0 <= r < k && 0 <= j < c.cols ==> 0.0 <= Slack(c, u, v, r, j)
  }

  /** p sends columns to rows, q is its inverse on rows 0..k; column `hole` is
      not looked at. */
  ghost predicate Matched(p: seq<int>, q: seq<int>, k: int, hole: int) {
    && |q| == k
    && (forall r :: 0 <= r < k ==> 0 <= q[r] < |p| && q[r] != hole && p[q[r]] == r)
    && (forall j :: 0 <= j < |p| && j != hole ==> p[j] == -1 || (0 <= p[j] < k && q[p[j]] == j))
  }

  ghost predicate TightOn(c: Matrix, u: seq<real>, v: seq<real>, p: seq<int>, hole: int)
    requires Shape(c, u, v)
  {
    forall j :: 0 <= j < |p| && |p| == c.cols && j != hole && 0 <= p[j] < c.rows ==> Slack(c, u, v, p[j], j) == 0.0
  }

  /** What every outer iteration keeps: the first k rows are matched along tight
      edges, their potentials are feasible, v is non-positive and vanishes on
      unmatched columns. */
  ghost predicate OuterInv(c: Matrix, u: seq<real>, v: seq<real>, p: seq<int>, q: seq<int>, k: int) {
    && Shape(c, u, v) && |p| == c.cols && 0 <= k <= c.rows
    && Matched(p, q, k, -1)
    && TightOn(c, u, v, p, -1)
    && Feasible(c, u, v, k)
    && (forall j :: 0 <= j < c.cols ==> v[j] <= 0.0)
    && (forall j :: 0 <= j < c.cols && p[j] == -1 ==> v[j] == 0.0)
  }

  // ---------------------------------------------------------------- search tree

  ghost predicate InTree(visited: seq<bool>, l: int) {
    l == -1 || (0 <= l < |visited| && visited[l])
  }

  function RowOf(p: seq<int>, i: int, l: int): int
    requires l == -1 || 0 <= l < |p|
  {
    if l == -1 then i else p[l]
  }

  /** Every visited column hangs by a tight edge below a tree row of smaller
      rank; only `last` may be unmatched. */
  ghost predicate TreeOK(c: Matrix, u: seq<real>, v: seq<real>, p: seq<int>, i: int,
                         links: seq<int>, visited: seq<bool>, rank: seq<int>, last: int)
    requires Shape(c, u, v) && 0 <= i < c.rows
  {
    && |p| == |links| == |visited| == |rank| == c.cols
    && (forall j :: 0 <= j < c.cols ==> -1 <= p[j] < i)
    && (forall j :: 0 <= j < c.cols && visited[j] && j != last ==> p[j] != -1)
    && (forall j :: 0 <= j < c.cols && visited[j] ==>
          && InTree(visited, links[j]) && links[j] != last
          && 0 <= rank[j] && (links[j] != -1 ==> rank[links[j]] < rank[j])
          && Slack(c, u, v, RowOf(p, i, links[j]), j) == 0.0)
  }

  /** For each unvisited column the running minimum is the least slack to a tree
      row, attained along its link; the row reached through `ex` has not been
      scanned yet (-2: all have). */
  ghost predicate MinsOK(c: Matrix, u: seq<real>, v: seq<real>, p: seq<int>, i: int,
                         links: seq<int>, mins: seq<Bound>, visited: seq<bool>, ex: int)
    requires Shape(c, u, v) && 0 <= i < c.rows
  {
    && |p| == |links| == |visited| == |mins| == c.cols
    && (forall j :: 0 <= j < c.cols ==> -1 <= p[j] < i)
    && (forall l :: 0 <= l < c.cols && visited[l] && l != ex ==> p[l] != -1)
    && (forall j :: 0 <= j < c.cols && !visited[j] ==> (mins[j].Inf? <==> ex == -1))
    && (forall j :: 0 <= j < c.cols && !visited[j] && ex != -1 ==>
          InTree(visited, links[j]) && links[j] != ex && mins[j].val == Slack(c, u, v, RowOf(p, i, links[j]), j))
    && (forall j, l :: 0 <= j < c.cols && !visited[j] && ex != -1 && InTree(visited, l) && l != ex ==>
          mins[j].val <= Slack(c, u, v, RowOf(p, i, l), j))
  }

  /** The state at the head of the inner search for row i. */
  ghost predicate SearchInv(c: Matrix, u: seq<real>, v: seq<real>, p: seq<int>, q: seq<int>, i: int,
                            links: seq<int>, mins: seq<Bound>, visited: seq<bool>, rank: seq<int>,
                            markedJ: int)
  {
    && OuterInv(c, u, v, p, q, i) && i < c.rows
    && TreeOK(c, u, v, p, i, links, visited, rank, markedJ)
    && (markedJ == -1 || (0 <= markedJ < c.cols && visited[markedJ]))
    && (markedJ == -1 ==> forall j :: 0 <= j < c.cols ==> !visited[j])
    && (markedJ != -1 ==> Feasible(c, u, v, i + 1))
    && MinsOK(c, u, v, p, i, links, mins, visited, markedJ)
  }

  // ------------------------------------------------- one step of the inner search

  ghost predicate Scanned(c: Matrix, u: seq<real>, v: seq<real>, row: int, markedJ: int,
                          links: seq<int>, mins: seq<Bound>, visited: seq<bool>,
                          links': seq<int>, mins': seq<Bound>, n: int)
    requires Shape(c, u, v) && 0 <= row < c.rows && n <= c.cols
  {
    && |links'| == |links| == |mins| == |mins'| == |visited| == c.cols
    && forall j :: 0 <= j < c.cols ==>
         if j < n && !visited[j] && Less(Slack(c, u, v, row, j), mins[j])
         then mins'[j] == Fin(Slack(c, u, v, row, j)) && links'[j] == markedJ
         else mins'[j] == mins[j] && links'[j] == links[j]
  }

  /** The first for-loop of the search: scan one row against all unvisited
      columns and pick the least running minimum. */
  method ScanRow(c: Matrix, row: int, markedJ: int, u: array<real>, v: array<real>, visited: array<bool>,
                 links: array<int>, mins: array<Bound>) returns (jStar: int, delta: Bound)
    requires Shape(c, u[..], v[..]) && 0 <= row < c.rows
    requires visited.Length == links.Length == mins.Length == c.cols
    modifies links, mins
    ensures Scanned(c, u[..], v[..], row, markedJ, old(links[..]), old(mins[..]), visited[..],
                    links[..], mins[..], c.cols)
    ensures jStar == -1 ==> forall j :: 0 <= j < c.cols ==> visited[j]
    ensures jStar != -1 ==> 0 <= jStar < c.cols && !visited[jStar] && delta == mins[jStar] && delta.Fin?
    ensures jStar != -1 ==> forall j :: 0 <= j < c.cols && !visited[j] ==> mins[j].Fin? && delta.val <= mins[j].val
  {
    jStar, delta := -1, Inf;
    for j := 0 to c.cols
      invariant Scanned(c, u[..], v[..], row, markedJ, old(links[..]), old(mins[..]), visited[..],
                        links[..], mins[..], j)
      invariant jStar == -1 ==> delta.Inf? && forall k :: 0 <= k < j ==> visited[k]
      invariant jStar != -1 ==> 0 <= jStar < j && !visited[jStar] && delta == mins[jStar] && delta.Fin?
      invariant jStar != -1 ==> forall k :: 0 <= k < j && !visited[k] ==> mins[k].Fin? && delta.val <= mins[k].val
    {
      if !visited[j] {
        var cur := c.cell[row][j] - u[row] - v[j];
        assert cur == Slack(c, u[..], v[..], row, j);
        if Less(cur, mins[j]) {
          mins[j] := Fin(cur);
          links[j] := markedJ;
        }
        if mins[j].Fin? && Less(mins[j].val, delta) {
          delta := mins[j];
          jStar := j;
        }
      }
    }
  }

  ghost predicate Shifted(u: seq<real>, v: seq<real>, mins: seq<Bound>, q: seq<int>, i: int, visited: seq<bool>,
                          delta: real, u': seq<real>, v': seq<real>, mins': seq<Bound>)
  {
    && |u'| == |u| && |v'| == |v| == |mins'| == |mins| == |visited| && 0 <= i < |u| && |q| == i
    && (forall r :: 0 <= r < i ==> 0 <= q[r] < |visited| && u'[r] == if visited[q[r]] then u[r] + delta else u[r])
    && u'[i] == u[i] + delta
    && (forall r :: i < r < |u| ==> u'[r] == u[r])
    && (forall j :: 0 <= j < |v| ==> v'[j] == if visited[j] then v[j] - delta else v[j])
    && (forall j :: 0 <= j < |v| && !visited[j] ==> mins[j].Fin? && mins'[j] == Fin(mins[j].val - delta))
    && (forall j :: 0 <= j < |v| && visited[j] ==> mins'[j] == mins[j])
  }

  /** The second for-loop: move the tree's potentials by delta. */
  method ShiftPotentials(p: array<int>, ghost q: seq<int>, i: int, visited: array<bool>, delta: real,
                         u: array<real>, v: array<real>, mins: array<Bound>)
    requires p.Length == visited.Length == v.Length == mins.Length && 0 <= i < u.Length && u != v
    requires Matched(p[..], q, i, -1)
    requires forall j :: 0 <= j < p.Length && visited[j] ==> p[j] != -1
    requires forall j :: 0 <= j < p.Length && !visited[j] ==> mins[j].Fin?
    modifies u, v, mins
    ensures Shifted(old(u[..]), old(v[..]), old(mins[..]), q, i, visited[..], delta, u[..], v[..], mins[..])
  {
    for j := 0 to p.Length
      invariant forall r :: 0 <= r < i ==>
                  u[r] == if q[r] < j && visited[q[r]] then old(u[r]) + delta else old(u[r])
      invariant forall r :: i <= r < u.Length ==> u[r] == old(u[r])
      invariant forall k :: 0 <= k < v.Length ==> v[k] == if k < j && visited[k] then old(v[k]) - delta else old(v[k])
      invariant forall k :: 0 <= k < j && !visited[k] ==> mins[k] == Fin(old(mins[k].val) - delta)
      invariant forall k :: 0 <= k < j && visited[k] ==> mins[k] == old(mins[k])
      invariant forall k :: j <= k < v.Length ==> mins[k] == old(mins[k])
    {
      if visited[j] {
        u[p[j]] := u[p[j]] + delta;
        v[j] := v[j] - delta;
      } else {
        mins[j] := Fin(mins[j].val - delta);
      }
    }
    u[i] := u[i] + delta;
  }

  lemma ScanKeeps(c: Matrix, u: seq<real>, v: seq<real>, p: seq<int>, i: int, markedJ: int, rank: seq<int>,
                  links: seq<int>, mins: seq<Bound>, visited: seq<bool>, links': seq<int>, mins': seq<Bound>)
    requires Shape(c, u, v) && 0 <= i < c.rows
    requires TreeOK(c, u, v, p, i, links, visited, rank, markedJ)
    requires markedJ == -1 || (0 <= markedJ < c.cols && visited[markedJ] && p[markedJ] != -1)
    requires markedJ == -1 ==> forall j :: 0 <= j < c.cols ==> !visited[j]
    requires MinsOK(c, u, v, p, i, links, mins, visited, markedJ)
    requires Scanned(c, u, v, RowOf(p, i, markedJ), markedJ, links, mins, visited, links', mins', c.cols)
    ensures TreeOK(c, u, v, p, i, links', visited, rank, markedJ)
    ensures MinsOK(c, u, v, p, i, links', mins', visited, -2)
  {
    forall j, l | 0 <= j < c.cols && !visited[j] && InTree(visited, l)
      ensures mins'[j].Fin? && mins'[j].val <= Slack(c, u, v, RowOf(p, i, l), j)
    {
    }
    forall j | 0 <= j < c.cols && !visited[j]
      ensures InTree(visited, links'[j]) && mins'[j].val == Slack(c, u, v, RowOf(p, i, links'[j]), j)
    {
    }
  }

  /** Slack after a shift: a tree row pays delta more, a visited column delta less. */
  lemma ShiftedSlack(c: Matrix, u: seq<real>, v: seq<real>, p: seq<int>, q: seq<int>, i: int,
                     mins: seq<Bound>, visited: seq<bool>, delta: real,
                     u': seq<real>, v': seq<real>, mins': seq<Bound>, r: int, j: int)
    requires Shape(c, u, v) && 0 <= r <= i < c.rows && 0 <= j < c.cols && |visited| == c.cols
    requires Shifted(u, v, mins, q, i, visited, delta, u', v', mins')
    ensures Slack(c, u', v', r, j) == Slack(c, u, v, r, j)
              - (if r == i || visited[q[r]] then delta else 0.0) + (if visited[j] then delta else 0.0)
  {
  }

  /** Only the first shift of a row insertion can be negative. */
  lemma DeltaSign(c: Matrix, u: seq<real>, v: seq<real>, p: seq<int>, i: int, links: seq<int>,
                  mins: seq<Bound>, visited: seq<bool>, delta: real, markedJ: int)
    requires Shape(c, u, v) && 0 <= i < c.rows
    requires MinsOK(c, u, v, p, i, links, mins, visited, -2)
    requires markedJ != -1 ==> Feasible(c, u, v, i + 1)
    requires exists j :: 0 <= j < c.cols && !visited[j] && mins[j] == Fin(delta)
    ensures markedJ != -1 ==> 0.0 <= delta
  {
    var j :| 0 <= j < c.cols && !visited[j] && mins[j] == Fin(delta);
    assert InTree(visited, links[j]);
  }

  /** Shifting by the least running minimum keeps the outer facts and makes row i
      feasible. */
  lemma ShiftKeepsOuter(c: Matrix, u: seq<real>, v: seq<real>, p: seq<int>, q: seq<int>, i: int, markedJ: int,
                        links: seq<int>, mins: seq<Bound>, visited: seq<bool>, delta: real,
                        u': seq<real>, v': seq<real>, mins': seq<Bound>)
    requires OuterInv(c, u, v, p, q, i) && i < c.rows
    requires MinsOK(c, u, v, p, i, links, mins, visited, -2)
    requires markedJ == -1 ==> forall j :: 0 <= j < c.cols ==> !visited[j]
    requires markedJ != -1 ==> Feasible(c, u, v, i + 1)
    requires exists j :: 0 <= j < c.cols && !visited[j] && mins[j] == Fin(delta)
    requires forall j :: 0 <= j < c.cols && !visited[j] ==> delta <= mins[j].val
    requires Shifted(u, v, mins, q, i, visited, delta, u', v', mins')
    ensures OuterInv(c, u', v', p, q, i)
    ensures Feasible(c, u', v', i + 1)
  {
    forall r, j | 0 <= r <= i && 0 <= j < c.cols
      ensures (r < i || markedJ != -1 ==> 0.0 <= Slack(c, u, v, r, j))
    {
    }
    DeltaSign(c, u, v, p, i, links, mins, visited, delta, markedJ);
    forall r, j | 0 <= r <= i && 0 <= j < c.cols
      ensures 0.0 <= Slack(c, u', v', r, j)
    {
      ShiftedSlack(c, u, v, p, q, i, mins, visited, delta, u', v', mins', r, j);
      var inTree := r == i || visited[q[r]];
      if inTree && !visited[j] {
        var l := if r == i then -1 else q[r];
        assert InTree(visited, l) && RowOf(p, i, l) == r;
      }
    }
    forall j | 0 <= j < c.cols && 0 <= p[j] < c.rows
      ensures Slack(c, u', v', p[j], j) == 0.0
    {
      ShiftedSlack(c, u, v, p, q, i, mins, visited, delta, u', v', mins', p[j], j);
    }
  }

  lemma ShiftKeepsTree(c: Matrix, u: seq<real>, v: seq<real>, p: seq<int>, q: seq<int>, i: int, rank: seq<int>,
                       links: seq<int>, mins: seq<Bound>, visited: seq<bool>, delta: real, last: int,
                       u': seq<real>, v': seq<real>, mins': seq<Bound>)
    requires OuterInv(c, u, v, p, q, i) && i < c.rows
    requires TreeOK(c, u, v, p, i, links, visited, rank, last)
    requires forall j :: 0 <= j < c.cols && visited[j] ==> p[j] != -1
    requires MinsOK(c, u, v, p, i, links, mins, visited, -2)
    requires Shifted(u, v, mins, q, i, visited, delta, u', v', mins')
    ensures TreeOK(c, u', v', p, i, links, visited, rank, last)
    ensures MinsOK(c, u', v', p, i, links, mins', visited, -2)
  {
    forall l, j | InTree(visited, l) && 0 <= j < c.cols
      ensures Slack(c, u', v', RowOf(p, i, l), j)
              == Slack(c, u, v, RowOf(p, i, l), j) - (if visited[j] then 0.0 else delta)
    {
      ShiftedSlack(c, u, v, p, q, i, mins, visited, delta, u', v', mins', RowOf(p, i, l), j);
    }
  }

  /** Visiting one more column adds it to the tree and nothing else. */
  lemma InTreeAfter(visited: seq<bool>, jStar: int, l: int)
    requires 0 <= jStar < |visited| && !visited[jStar]
    ensures InTree(visited[jStar := true], l) <==> InTree(visited, l) || l == jStar
    ensures InTree(visited, l) ==> l != jStar
  {
  }

  /** Visiting the column whose slack just became zero. */
  lemma VisitKeepsTree(c: Matrix, u: seq<real>, v: seq<real>, p: seq<int>, i: int, rank: seq<int>, step: int,
                       links: seq<int>, mins: seq<Bound>, visited: seq<bool>, last: int, jStar: int)
    requires Shape(c, u, v) && 0 <= i < c.rows
    requires TreeOK(c, u, v, p, i, links, visited, rank, last)
    requires last == -1 || (0 <= last < c.cols && p[last] != -1)
    requires MinsOK(c, u, v, p, i, links, mins, visited, -2)
    requires 0 <= jStar < c.cols && !visited[jStar] && mins[jStar] == Fin(0.0)
    requires 0 <= step && forall j :: 0 <= j < c.cols ==> rank[j] < step
    ensures TreeOK(c, u, v, p, i, links, visited[jStar := true], rank[jStar := step], jStar)
  {
    var vis, rank' := visited[jStar := true], rank[jStar := step];
    forall j | 0 <= j < c.cols && vis[j]
      ensures InTree(vis, links[j]) && links[j] != jStar
      ensures 0 <= rank'[j] && (links[j] != -1 ==> rank'[links[j]] < rank'[j])
      ensures Slack(c, u, v, RowOf(p, i, links[j]), j) == 0.0
    {
      assert InTree(visited, links[j]);
      InTreeAfter(visited, jStar, links[j]);
    }
  }

  lemma VisitKeepsMins(c: Matrix, u: seq<real>, v: seq<real>, p: seq<int>, i: int,
                       links: seq<int>, mins: seq<Bound>, visited: seq<bool>, jStar: int)
    requires Shape(c, u, v) && 0 <= i < c.rows
    requires MinsOK(c, u, v, p, i, links, mins, visited, -2)
    requires 0 <= jStar < c.cols && !visited[jStar]
    ensures MinsOK(c, u, v, p, i, links, mins, visited[jStar := true], jStar)
  {
    var vis := visited[jStar := true];
    forall j | 0 <= j < c.cols && !vis[j] ensures InTree(vis, links[j]) && links[j] != jStar {
      InTreeAfter(visited, jStar, links[j]);
    }
    forall j, l | 0 <= j < c.cols && !vis[j] && InTree(vis, l) && l != jStar
      ensures mins[j].Fin? && mins[j].val <= Slack(c, u, v, RowOf(p, i, l), j)
    {
      InTreeAfter(visited, jStar, l);
    }
  }

  /** Some column is unvisited as long as every visited one is matched below i. */
  lemma UnvisitedExists(p: seq<int>, q: seq<int>, i: int, n: int, visited: seq<bool>)
    requires Matched(p, q, i, -1) && 0 <= i < n <= |p| == |visited|
    requires forall j :: 0 <= j < |p| && visited[j] ==> p[j] != -1
    ensures exists j :: 0 <= j < |p| && !visited[j]
  {
    assert Distinct(q) by {
      forall a, b | 0 <= a < b < |q| ensures q[a] != q[b] {
        assert p[q[a]] == a && p[q[b]] == b;
      }
    }
    Pigeonhole(q, |p|);
    var j :| 0 <= j < |p| && j !in q;
    assert p[j] == -1;
  }

  // ------------------------------------------------------------- augmentation

  /** The matching part-way along the path: only column `hole` is not yet
      re-matched, and the tree below it still carries the old rows. */
  ghost predicate Flipping(c: Matrix, u: seq<real>, v: seq<real>, p0: seq<int>, i: int, visited: seq<bool>,
                           rank: seq<int>, p: seq<int>, q: seq<int>, hole: int)
    requires Shape(c, u, v)
  {
    && |p| == |p0| == |visited| == |rank| == c.cols
    && InTree(visited, hole)
    && (forall j :: 0 <= j < c.cols && visited[j] && hole != -1 && rank[j] <= rank[hole] ==> p[j] == p0[j])
    && Matched(p, q, if hole == -1 then i + 1 else i, hole)
    && TightOn(c, u, v, p, hole)
    && (forall j :: 0 <= j < c.cols && p0[j] != -1 ==> p[j] != -1)
  }

  lemma FlipKeeps(c: Matrix, u: seq<real>, v: seq<real>, p0: seq<int>, i: int, links: seq<int>,
                  visited: seq<bool>, rank: seq<int>, start: int, p: seq<int>, q: seq<int>, hole: int,
                  p': seq<int>, q': seq<int>)
    requires Shape(c, u, v) && 0 <= i < c.rows
    requires TreeOK(c, u, v, p0, i, links, visited, rank, start)
    requires Flipping(c, u, v, p0, i, visited, rank, p, q, hole) && hole != -1
    requires p' == p[hole := if links[hole] == -1 then i else p[links[hole]]]
    requires q' == if links[hole] == -1 then q + [hole] else q[p0[links[hole]] := hole]
    ensures Flipping(c, u, v, p0, i, visited, rank, p', q', links[hole])
    ensures links[hole] != -1 ==> rank[links[hole]] < rank[hole]
  {
    var prev := links[hole];
    var r := RowOf(p0, i, prev);
    assert Slack(c, u, v, r, hole) == 0.0;
    assert p'[hole] == r && 0 <= r <= i;
    if prev != -1 {
      assert p[prev] == r && q[r] == prev && prev != hole;
    }
  }

  /** The search for row i is over: potentials feasible on it too, and a tight tree that
      ends in an unmatched column. */
  ghost predicate Reached(c: Matrix, u: seq<real>, v: seq<real>, p: seq<int>, q: seq<int>, i: int,
                          links: seq<int>, visited: seq<bool>, rank: seq<int>, start: int)
  {
    && OuterInv(c, u, v, p, q, i) && i < c.rows && Feasible(c, u, v, i + 1)
    && TreeOK(c, u, v, p, i, links, visited, rank, start)
    && 0 <= start < c.cols && visited[start] && p[start] == -1
  }

  /** Flipping the matching along the links, from an unmatched column back to
      row i. */
  method Augment(c: Matrix, i: int, start: int, links: array<int>, p: array<int>, ghost q: seq<int>,
                 ghost u: seq<real>, ghost v: seq<real>, ghost visited: seq<bool>, ghost rank: seq<int>)
    returns (ghost q': seq<int>)
    requires Reached(c, u, v, p[..], q, i, links[..], visited, rank, start) && links != p
    modifies p
    ensures OuterInv(c, u, v, p[..], q', i + 1)
    ensures forall j :: 0 <= j < c.cols && old(p[j]) != -1 ==> p[j] != -1
  {
    ghost var p0 := p[..];
    var markedJ := start;
    q' := q;
    while markedJ != -1
      invariant Flipping(c, u, v, p0, i, visited, rank, p[..], q', markedJ)
      decreases if markedJ == -1 then 0 else 1 + rank[markedJ]
    {
      ghost var before, qBefore, hole := p[..], q', markedJ;
      var prevJ := links[markedJ];
      assert prevJ == -1 || p[prevJ] == p0[prevJ];
      q' := if prevJ == -1 then q' + [markedJ] else q'[p0[prevJ] := markedJ];
      p[markedJ] := if prevJ == -1 then i else p[prevJ];
      FlipKeeps(c, u, v, p0, i, links[..], visited, rank, start, before, qBefore, hole, p[..], q');
      markedJ := prevJ;
    }
  }

  // ---------------------------------------------------------- one outer iteration

  /** Unvisited columns, the measure of the inner search. */
  ghost function Unvisited(visited: seq<bool>): nat {
    |set j | 0 <= j < |visited| && !visited[j]|
  }

  lemma VisitShrinks(visited: seq<bool>, k: int)
    requires 0 <= k < |visited| && !visited[k]
    ensures Unvisited(visited[k := true]) < Unvisited(visited)
  {
    var a := set j | 0 <= j < |visited| && !visited[j];
    var t := visited[k := true];
    assert (set j | 0 <= j < |t| && !t[j]) == a - {k};
  }

  lemma SearchStep(c: Matrix, u: seq<real>, v: seq<real>, p: seq<int>, q: seq<int>, i: int, rank: seq<int>,
                   step: int, markedJ: int, links: seq<int>, mins: seq<Bound>, visited: seq<bool>,
                   links': seq<int>, mins1: seq<Bound>, jStar: int, delta: Bound,
                   u': seq<real>, v': seq<real>, mins2: seq<Bound>)
    requires SearchInv(c, u, v, p, q, i, links, mins, visited, rank, markedJ)
    requires RowOf(p, i, markedJ) != -1
    requires 0 <= step && forall j :: 0 <= j < c.cols ==> rank[j] < step
    requires Scanned(c, u, v, RowOf(p, i, markedJ), markedJ, links, mins, visited, links', mins1, c.cols)
    requires 0 <= jStar < c.cols && !visited[jStar] && delta == mins1[jStar] && delta.Fin?
    requires forall j :: 0 <= j < c.cols && !visited[j] ==> mins1[j].Fin? && delta.val <= mins1[j].val
    requires Shifted(u, v, mins1, q, i, visited, delta.val, u', v', mins2)
    ensures SearchInv(c, u', v', p, q, i, links', mins2, visited[jStar := true], rank[jStar := step], jStar)
    ensures Unvisited(visited[jStar := true]) < Unvisited(visited)
  {
    ScanKeeps(c, u, v, p, i, markedJ, rank, links, mins, visited, links', mins1);
    ShiftKeepsOuter(c, u, v, p, q, i, markedJ, links', mins1, visited, delta.val, u', v', mins2);
    ShiftKeepsTree(c, u, v, p, q, i, rank, links', mins1, visited, delta.val, markedJ, u', v', mins2);
    VisitKeepsTree(c, u', v', p, i, rank, step, links', mins2, visited, markedJ, jStar);
    VisitKeepsMins(c, u', v', p, i, links', mins2, visited, jStar);
    VisitShrinks(visited, jStar);
  }

  /** What the two for-loops of the search need. */
  ghost predicate Ready(c: Matrix, u: seq<real>, v: seq<real>, p: seq<int>, q: seq<int>, i: int, row: int,
                        visited: seq<bool>)
  {
    && Shape(c, u, v) && 0 <= i < c.rows <= c.cols && 0 <= row < c.rows && |p| == |visited| == c.cols
    && Matched(p, q, i, -1) && forall j :: 0 <= j < c.cols && visited[j] ==> p[j] != -1
  }

  lemma SearchIsReady(c: Matrix, u: seq<real>, v: seq<real>, p: seq<int>, q: seq<int>, i: int,
                      links: seq<int>, mins: seq<Bound>, visited: seq<bool>, rank: seq<int>, markedJ: int)
    requires SearchInv(c, u, v, p, q, i, links, mins, visited, rank, markedJ) && c.rows <= c.cols
    requires RowOf(p, i, markedJ) != -1
    ensures Ready(c, u, v, p, q, i, RowOf(p, i, markedJ), visited)
  {
  }

  /** Both for-loops of the search, in terms of the values they start from. */
  method ScanAndShift(c: Matrix, i: int, markedI: int, markedJ: int, u: array<real>, v: array<real>, p: array<int>,
                      ghost q: seq<int>, links: array<int>, mins: array<Bound>, visited: array<bool>)
    returns (jStar: int, ghost delta: Bound, ghost mins1: seq<Bound>)
    requires Ready(c, u[..], v[..], p[..], q, i, markedI, visited[..]) && u != v && p != links
    requires links.Length == mins.Length == c.cols
    modifies u, v, links, mins
    ensures 0 <= jStar < c.cols && !visited[jStar] && |mins1| == c.cols && delta == mins1[jStar] && delta.Fin?
    ensures forall j :: 0 <= j < c.cols && !visited[j] ==> mins1[j].Fin? && delta.val <= mins1[j].val
    ensures Scanned(c, old(u[..]), old(v[..]), markedI, markedJ, old(links[..]), old(mins[..]), visited[..],
                    links[..], mins1, c.cols)
    ensures Shifted(old(u[..]), old(v[..]), mins1, q, i, visited[..], delta.val, u[..], v[..], mins[..])
  {
    UnvisitedExists(p[..], q, i, c.rows, visited[..]);
    var d;
    jStar, d := ScanRow(c, markedI, markedJ, u, v, visited, links, mins);
    delta, mins1 := d, mins[..];
    ShiftPotentials(p, q, i, visited, d.val, u, v, mins);
  }

  /** One pass of the inner search: scan the marked row, shift, visit the
      cheapest column. */
  method Grow(c: Matrix, i: int, markedI: int, markedJ: int, u: array<real>, v: array<real>, p: array<int>,
              ghost q: seq<int>, links: array<int>, mins: array<Bound>, visited: array<bool>,
              ghost rank: seq<int>, ghost step: int)
    returns (jStar: int)
    requires SearchInv(c, u[..], v[..], p[..], q, i, links[..], mins[..], visited[..], rank, markedJ)
    requires markedI == RowOf(p[..], i, markedJ) && markedI != -1 && c.rows <= c.cols && u != v && p != links
    requires 0 <= step && forall j :: 0 <= j < c.cols ==> rank[j] < step
    modifies u, v, links, mins, visited
    ensures 0 <= jStar < c.cols
    ensures SearchInv(c, u[..], v[..], p[..], q, i, links[..], mins[..], visited[..], rank[jStar := step], jStar)
    ensures Unvisited(visited[..]) < Unvisited(old(visited[..]))
    ensures forall r :: i < r < c.rows ==> u[r] == old(u[r])
    ensures markedJ == -1 ==> v[..] == old(v[..])
  {
    ghost var u0, v0, l0, m0, vis := u[..], v[..], links[..], mins[..], visited[..];
    ghost var delta, m1;
    SearchIsReady(c, u0, v0, p[..], q, i, l0, m0, vis, rank, markedJ);
    jStar, delta, m1 := ScanAndShift(c, i, markedI, markedJ, u, v, p, q, links, mins, visited);
    visited[jStar] := true;
    assert visited[..] == vis[jStar := true];
    SearchStep(c, u0, v0, p[..], q, i, rank, step, markedJ, l0, m0, vis, links[..], m1, jStar, delta,
               u[..], v[..], mins[..]);
  }

  lemma SearchStarts(c: Matrix, u: seq<real>, v: seq<real>, p: seq<int>, q: seq<int>, i: int,
                     links: seq<int>, mins: seq<Bound>, visited: seq<bool>, rank: seq<int>)
    requires OuterInv(c, u, v, p, q, i) && i < c.rows
    requires |links| == |mins| == |visited| == |rank| == c.cols
    requires forall j :: 0 <= j < c.cols ==> mins[j].Inf? && !visited[j]
    ensures SearchInv(c, u, v, p, q, i, links, mins, visited, rank, -1)
  {
  }

  lemma SearchEnds(c: Matrix, u: seq<real>, v: seq<real>, p: seq<int>, q: seq<int>, i: int,
                   links: seq<int>, mins: seq<Bound>, visited: seq<bool>, rank: seq<int>, markedJ: int)
    requires SearchInv(c, u, v, p, q, i, links, mins, visited, rank, markedJ) && RowOf(p, i, markedJ) == -1
    ensures Reached(c, u, v, p, q, i, links, visited, rank, markedJ)
  {
  }

  /** The search loop: grow the tight-edge tree of row i until it reaches an unmatched
      column. */
  method SearchRow(c: Matrix, i: int, u: array<real>, v: array<real>, p: array<int>, ghost q: seq<int>)
    returns (markedJ: int, links: array<int>, ghost visited: seq<bool>, ghost rank: seq<int>)
    requires OuterInv(c, u[..], v[..], p[..], q, i) && i < c.rows <= c.cols && u != v
    modifies u, v
    ensures fresh(links) && links.Length == c.cols
    ensures Reached(c, u[..], v[..], p[..], q, i, links[..], visited, rank, markedJ)
    ensures forall r :: i < r < c.rows ==> u[r] == old(u[r])
    ensures i == 0 ==> v[..] == old(v[..])
  {
    links := new int[c.cols](_ => -1);
    var mins := new Bound[c.cols](_ => Inf);
    var seen := new bool[c.cols](_ => false);
    var markedI := i;
    markedJ := -1;
    ghost var step := 0;
    rank := seq(c.cols, _ => -1);
    SearchStarts(c, u[..], v[..], p[..], q, i, links[..], mins[..], seen[..], rank);
    while markedI != -1
      invariant SearchInv(c, u[..], v[..], p[..], q, i, links[..], mins[..], seen[..], rank, markedJ)
      invariant forall r :: i < r < c.rows ==> u[r] == old(u[r])
      invariant i == 0 ==> v[..] == old(v[..]) && (markedJ == -1 || markedI == -1)
      invariant markedI == RowOf(p[..], i, markedJ)
      invariant 0 <= step && forall j :: 0 <= j < c.cols ==> rank[j] < step
      decreases Unvisited(seen[..])
    {
      markedJ := Grow(c, i, markedI, markedJ, u, v, p, q, links, mins, seen, rank, step);
      markedI := p[markedJ];
      rank, step := rank[markedJ := step], step + 1;
    }
    visited := seen[..];
    SearchEnds(c, u[..], v[..], p[..], q, i, links[..], mins[..], visited, rank, markedJ);
  }

  /** One pass of the outer loop: search, then augment. */
  method InsertRow(c: Matrix, i: int, u: array<real>, v: array<real>, p: array<int>, ghost q: seq<int>)
    returns (ghost q': seq<int>)
    requires OuterInv(c, u[..], v[..], p[..], q, i) && i < c.rows <= c.cols && u != v
    modifies u, v, p
    ensures OuterInv(c, u[..], v[..], p[..], q', i + 1)
    ensures forall r :: i < r < c.rows ==> u[r] == old(u[r])
    ensures i == 0 ==> v[..] == old(v[..])
  {
    var markedJ, links;
    ghost var visited, rank;
    markedJ, links, visited, rank := SearchRow(c, i, u, v, p, q);
    q' := Augment(c, i, markedJ, links, p, q, u[..], v[..], visited, rank);
  }

  // ----------------------------------------------------------- rows not yet inserted

  ghost predicate Untouched(u: seq<real>, k: int) {
    forall r :: 0 <= k <= r < |u| ==> u[r] == 0.0
  }

  /** The potentials after k insertions: feasible on the rows inserted, zero on the
      others, and never positive on a column. */
  ghost predicate Snapshot(c: Matrix, u: seq<real>, v: seq<real>, k: int) {
    && Shape(c, u, v) && 0 <= k <= c.rows && Feasible(c, u, v, k) && Untouched(u, k)
    && forall j :: 0 <= j < c.cols ==> v[j] <= 0.0
  }

  ghost predicate FeasibleOnAll(c: Matrix, u: seq<real>, v: seq<real>) {
    Shape(c, u, v) && Feasible(c, u, v, c.rows)
  }

  predicate Zeros(v: seq<real>) { forall j :: 0 <= j < |v| ==> v[j] == 0.0 }

  /** us and vs are potentials after 1, 2, ... insertions. */
  ghost predicate Snapshots(c: Matrix, us: seq<seq<real>>, vs: seq<seq<real>>) {
    |us| == |vs| && forall k, n :: 0 <= k < |us| && n == k + 1 ==> Snapshot(c, us[k], vs[k], n)
  }

  /** No row after the first has a negative cost. */
  predicate NonNegativeBelow(c: Matrix)
    requires c.Valid()
  {
    forall r, j :: 1 <= r < c.rows && 0 <= j < c.cols ==> 0.0 <= c.cell[r][j]
  }

  /** A row still to come is feasible when its costs are not below the columns'
      potentials. */
  lemma SnapshotFeasible(c: Matrix, u: seq<real>, v: seq<real>, k: int)
    requires Snapshot(c, u, v, k)
    ensures Feasible(c, u, v, c.rows) <==> forall r, j :: k <= r < c.rows && 0 <= j < c.cols ==> v[j] <= c.cell[r][j]
  {
    forall r, j | k <= r < c.rows && 0 <= j < c.cols
      ensures 0.0 <= Slack(c, u, v, r, j) <==> v[j] <= c.cell[r][j]
    {
      assert u[r] == 0.0;
    }
  }

  /** us and vs are the potentials after each insertion; the first leaves the columns'
      at zero. They are feasible on every row of the matrix after every insertion
      exactly when no row after the first has a negative cost. */
  lemma EveryRowFeasible(c: Matrix, us: seq<seq<real>>, vs: seq<seq<real>>)
    requires c.Valid() && |us| == c.rows && Snapshots(c, us, vs) && (c.rows > 0 ==> Zeros(vs[0]))
    ensures (forall k :: 0 <= k < c.rows ==> FeasibleOnAll(c, us[k], vs[k])) <==> NonNegativeBelow(c)
  {
    forall k | 0 <= k < c.rows ensures NonNegativeBelow(c) ==> FeasibleOnAll(c, us[k], vs[k]) {
      SnapshotFeasible(c, us[k], vs[k], k + 1);
    }
    if c.rows > 0 {
      assert Snapshot(c, us[0], vs[0], 1);
      SnapshotFeasible(c, us[0], vs[0], 1);
      if FeasibleOnAll(c, us[0], vs[0]) {
        forall r, j | 1 <= r < c.rows && 0 <= j < c.cols ensures 0.0 <= c.cell[r][j] {
          assert vs[0][j] == 0.0 <= c.cell[r][j];
        }
      }
    }
  }

  /** The outer loop. The ghost results record the potentials after each iteration. */
  method InsertRows(c: Matrix, u: array<real>, v: array<real>, p: array<int>)
    returns (ghost q: seq<int>, ghost us: seq<seq<real>>, ghost vs: seq<seq<real>>)
    requires c.rows <= c.cols && u != v && OuterInv(c, u[..], v[..], p[..], [], 0)
    requires Untouched(u[..], 0) && Zeros(v[..])
    modifies u, v, p
    ensures OuterInv(c, u[..], v[..], p[..], q, c.rows)
    ensures |us| == c.rows && Snapshots(c, us, vs)
    ensures c.rows > 0 ==> us[c.rows - 1] == u[..] && vs[c.rows - 1] == v[..]
    ensures (forall k :: 0 <= k < c.rows ==> FeasibleOnAll(c, us[k], vs[k])) <==> NonNegativeBelow(c)
  {
    q, us, vs := [], [], [];
    for i := 0 to c.rows
      invariant OuterInv(c, u[..], v[..], p[..], q, i) && Untouched(u[..], i)
      invariant |us| == i && Snapshots(c, us, vs)
      invariant if i == 0 then Zeros(v[..]) else Zeros(vs[0]) && us[i - 1] == u[..] && vs[i - 1] == v[..]
    {
      q := InsertRow(c, i, u, v, p, q);
      assert Snapshot(c, u[..], v[..], i + 1);
      us, vs := us + [u[..]], vs + [v[..]];
    }
    EveryRowFeasible(c, us, vs);
  }

  /** With a negative cost below the first row, inserting the first row leaves the
      second infeasible. */
  method NegativeCostInfeasible() returns (u: seq<real>, v: seq<real>)
    ensures var c := Matrix(2, 2, [[0.0, 0.0], [-1.0, 0.0]]);
            Snapshot(c, u, v, 1) && !Feasible(c, u, v, 2)
  {
    var c := Matrix(2, 2, [[0.0, 0.0], [-1.0, 0.0]]);
    var ua, va, p := new real[2](_ => 0.0), new real[2](_ => 0.0), new int[2](_ => -1);
    ghost var q := InsertRow(c, 0, ua, va, p, []);
    u, v := ua[..], va[..];
    assert Slack(c, u, v, 1, 0) == -1.0;
  }

  // ------------------------------------------------------------------ the result

  ghost predicate Increasing(s: seq<int>) {
    forall a, b :: 0 <= a < b < |s| ==> s[a] < s[b]
  }

  /** A certificate of optimality: feasible potentials, tight on the matching,
      that charge nothing on the columns left over. */
  ghost predicate Certified(c: Matrix, rs: seq<int>, cs: seq<int>, u: seq<real>, v: seq<real>) {
    && Shape(c, u, v) && IsMatching(c.rows, c.cols, rs, cs) && |rs| == c.rows
    && Feasible(c, u, v, c.rows)
    && (forall k :: 0 <= k < |rs| ==> Slack(c, u, v, rs[k], cs[k]) == 0.0)
    && (forall j :: 0 <= j < c.cols ==> v[j] <= 0.0)
    && (forall j :: 0 <= j < c.cols && j !in cs ==> v[j] == 0.0)
  }

  /** A certified matching is at most as expensive as any other matching of all
      the rows. */
  lemma CertifiedOptimal(c: Matrix, rs: seq<int>, cs: seq<int>, u: seq<real>, v: seq<real>,
                         rs2: seq<int>, cs2: seq<int>)
    requires Certified(c, rs, cs, u, v)
    requires IsMatching(c.rows, c.cols, rs2, cs2) && |rs2| == c.rows
    ensures Total(c, rs, cs) <= Total(c, rs2, cs2)
  {
    Pigeonhole(rs, c.rows);
    Pigeonhole(rs2, c.rows);
    PickSumTotal(u, rs);
    PickSumTotal(u, rs2);
    PickSumTotal(v, cs);
    PickSumTotal(v, cs2);
    assert forall k :: 0 <= k < |rs| ==> Slack(c, u, v, rs[k], cs[k]) == 0.0;
    assert forall k :: 0 <= k < |rs2| ==> 0.0 <= Slack(c, u, v, rs2[k], cs2[k]);
    DualBound(c, u, v, rs, cs);
    DualBound(c, u, v, rs2, cs2);
  }

  /** The pairs of p over the first n columns, in column order. */
  ghost predicate Collected(c: Matrix, p: seq<int>, n: int, rowInd: seq<int>, colInd: seq<int>) {
    && |p| == c.cols && 0 <= n <= c.cols
    && |rowInd| == |colInd| && Below(colInd, n) && Below(rowInd, c.rows) && Increasing(colInd)
    && (forall k :: 0 <= k < |rowInd| ==> p[colInd[k]] == rowInd[k])
    && (forall j :: 0 <= j < n && p[j] != -1 ==> j in colInd)
  }

  lemma CollectedAll(c: Matrix, p: seq<int>, q: seq<int>, rowInd: seq<int>, colInd: seq<int>)
    requires Matched(p, q, c.rows, -1) && Collected(c, p, c.cols, rowInd, colInd)
    ensures IsMatching(c.rows, c.cols, rowInd, colInd) && |rowInd| == c.rows
    ensures forall j :: 0 <= j < c.cols && j !in colInd ==> p[j] == -1
  {
    forall k | 0 <= k < |rowInd| ensures q[rowInd[k]] == colInd[k] {
    }
    forall r | 0 <= r < c.rows ensures r in rowInd {
      assert p[q[r]] == r && q[r] in colInd;
      var k :| 0 <= k < |colInd| && colInd[k] == q[r];
      assert rowInd[k] == r;
    }
    CoverSize(rowInd, c.rows);
  }

  method Collect(c: Matrix, p: array<int>, ghost q: seq<int>) returns (rowInd: seq<int>, colInd: seq<int>)
    requires p.Length == c.cols && Matched(p[..], q, c.rows, -1)
    ensures IsMatching(c.rows, c.cols, rowInd, colInd) && |rowInd| == c.rows
    ensures forall k :: 0 <= k < |rowInd| ==> p[colInd[k]] == rowInd[k]
    ensures forall j :: 0 <= j < c.cols && j !in colInd ==> p[j] == -1
  {
    rowInd, colInd := [], [];
    for j := 0 to c.cols
      invariant Collected(c, p[..], j, rowInd, colInd)
    {
      if p[j] != -1 && p[j] < c.rows {
        rowInd := rowInd + [p[j]];
        colInd := colInd + [j];
        assert colInd[|colInd| - 1] == j;
      }
    }
    CollectedAll(c, p[..], q, rowInd, colInd);
  }

  /** The first i positions, ordered by their keys. */
  ghost predicate SortedOrder(r: seq<int>, order: seq<int>, i: int) {
    && 0 <= i <= |r| && |order| == i && Below(order, i) && Distinct(order)
    && forall a, b :: 0 <= a < b < |order| ==> r[order[a]] < r[order[b]]
  }

  function Inserted(order: seq<int>, k: int, i: int): (t: seq<int>)
    requires 0 <= k <= |order|
    ensures |t| == |order| + 1
    ensures forall a :: 0 <= a < |t| ==> t[a] == if a < k then order[a] else if a == k then i else order[a - 1]
  {
    order[..k] + [i] + order[k..]
  }

  /** Keys before the new one are smaller, keys after it larger. */
  lemma InsertOrders(r: seq<int>, order: seq<int>, i: int, k: int, a: int)
    requires SortedOrder(r, order, i) && i < |r| && Distinct(r) && 0 <= k <= i && 0 <= a < i
    requires forall a :: 0 <= a < k ==> r[order[a]] < r[i]
    requires k < i ==> r[i] <= r[order[k]]
    ensures order[a] < i && (if a < k then r[order[a]] < r[i] else r[i] < r[order[a]])
  {
    if a >= k {
      assert r[order[k]] != r[i];
    }
  }

  lemma InsertKeeps(r: seq<int>, order: seq<int>, i: int, k: int)
    requires SortedOrder(r, order, i) && i < |r| && Distinct(r) && 0 <= k <= i
    requires forall a :: 0 <= a < k ==> r[order[a]] < r[i]
    requires k < i ==> r[i] <= r[order[k]]
    ensures SortedOrder(r, Inserted(order, k, i), i + 1)
  {
    var t := Inserted(order, k, i);
    forall a | 0 <= a < i ensures order[a] < i && (if a < k then r[order[a]] < r[i] else r[i] < r[order[a]]) {
      InsertOrders(r, order, i, k, a);
    }
    forall a, b | 0 <= a < b < |t| ensures t[a] != t[b] && r[t[a]] < r[t[b]] {
    }
  }

  /** The order that sorts distinct keys ascending. */
  method ArgSort(r: seq<int>) returns (order: seq<int>)
    requires Distinct(r)
    ensures |order| == |r| && Below(order, |r|) && Distinct(order)
    ensures forall a, b :: 0 <= a < b < |order| ==> r[order[a]] < r[order[b]]
  {
    order := [];
    for i := 0 to |r|
      invariant SortedOrder(r, order, i)
    {
      var k := 0;
      while k < |order| && r[order[k]] < r[i]
        invariant 0 <= k <= |order|
        invariant forall a :: 0 <= a < k ==> r[order[a]] < r[i]
      {
        k := k + 1;
      }
      InsertKeeps(r, order, i, k);
      order := Inserted(order, k, i);
    }
  }

  function Gather(s: seq<int>, order: seq<int>): (t: seq<int>)
    requires forall k :: 0 <= k < |order| ==> 0 <= order[k] < |s|
    ensures |t| == |order| && forall k :: 0 <= k < |order| ==> t[k] == s[order[k]]
  {
    seq(|order|, k requires 0 <= k < |order| => s[order[k]])
  }

  /** Both index lists in the order of the first. */
  method SortPairs(r: seq<int>, c: seq<int>) returns (r': seq<int>, c': seq<int>, ghost order: seq<int>)
    requires |r| == |c| && Distinct(r) && Distinct(c)
    ensures |order| == |r| == |r'| == |c'| && Below(order, |r|)
    ensures forall k :: 0 <= k < |r'| ==> r'[k] == r[order[k]] && c'[k] == c[order[k]]
    ensures Increasing(r') && Distinct(r') && Distinct(c')
    ensures forall x :: x in c ==> x in c'
    ensures forall x :: x in r ==> x in r'
  {
    var o := ArgSort(r);
    r', c', order := Gather(r, o), Gather(c, o), o;
    Pigeonhole(o, |r|);
    forall a | 0 <= a < |c| ensures c[a] in c' && r[a] in r' {
      assert a in o;
      var k: int :| 0 <= k < |o| && o[k] == a;
      assert c'[k] == c[a] && r'[k] == r[a];
    }
  }

  /** The engine proper, on a matrix at least as wide as it is tall: outer loop
      and extraction, rows in column order. */
  method Solve(c: Matrix) returns (rowInd: seq<int>, colInd: seq<int>, ghost u: seq<real>, ghost v: seq<real>)
    requires c.Valid() && c.rows <= c.cols
    ensures Certified(c, rowInd, colInd, u, v)
  {
    if c.rows == 0 || c.cols == 0 {
      return [], [], [], seq(c.cols, _ => 0.0);
    }
    if c.rows == 1 && c.cols == 1 {
      return [0], [0], [c.cell[0][0]], [0.0];
    }
    var ua := new real[c.rows](_ => 0.0);
    var va := new real[c.cols](_ => 0.0);
    var p := new int[c.cols](_ => -1);
    ghost var q, _, _ := InsertRows(c, ua, va, p);
    rowInd, colInd := Collect(c, p, q);
    u, v := ua[..], va[..];
  }

  lemma TransposeBack(c: Matrix, rs: seq<int>, cs: seq<int>, rs2: seq<int>, cs2: seq<int>)
    requires c.Valid()
    requires IsMatching(c.rows, c.cols, rs, cs) && IsMatching(c.rows, c.cols, rs2, cs2)
    requires Total(c.Transpose(), cs, rs) <= Total(c.Transpose(), cs2, rs2)
    ensures Total(c, rs, cs) <= Total(c, rs2, cs2)
  {
    TotalTranspose(c, rs, cs);
    TotalTranspose(c, rs2, cs2);
  }

  /** Minimum-cost assignment of any rectangular cost matrix: the smaller side is
      matched completely, in row order, and no other complete matching of it costs
      less. */
  method Assign(cost: Matrix) returns (rs: seq<int>, cs: seq<int>)
    requires cost.Valid()
    ensures IsMatching(cost.rows, cost.cols, rs, cs) && |rs| == Min(cost.rows, cost.cols)
    ensures Increasing(rs)
    ensures forall rs2, cs2 :: IsMatching(cost.rows, cost.cols, rs2, cs2) && |rs2| == |rs| ==>
              Total(cost, rs, cs) <= Total(cost, rs2, cs2)
  {
    var transposed := cost.rows > cost.cols;
    var c := if transposed then cost.Transpose() else cost;
    var rowInd, colInd;
    ghost var u, v;
    rowInd, colInd, u, v := Solve(c);
    ghost var order;
    if transposed {
      rs, cs, order := SortPairs(colInd, rowInd);
      assert forall k :: 0 <= k < |rs| ==> Slack(c, u, v, rowInd[order[k]], colInd[order[k]]) == 0.0;
      assert Certified(c, cs, rs, u, v);
      forall rs2, cs2 | IsMatching(cost.rows, cost.cols, rs2, cs2) && |rs2| == |rs|
        ensures Total(cost, rs, cs) <= Total(cost, rs2, cs2)
      {
        CertifiedOptimal(c, cs, rs, u, v, cs2, rs2);
        TransposeBack(cost, rs, cs, rs2, cs2);
      }
    } else {
      rs, cs, order := SortPairs(rowInd, colInd);
      assert forall k :: 0 <= k < |rs| ==> Slack(c, u, v, rowInd[order[k]], colInd[order[k]]) == 0.0;
      assert Certified(c, rs, cs, u, v);
      forall rs2, cs2 | IsMatching(cost.rows, cost.cols, rs2, cs2) && |rs2| == |rs|
        ensures Total(cost, rs, cs) <= Total(cost, rs2, cs2)
      {
        CertifiedOptimal(c, rs, cs, u, v, rs2, cs2);
      }
    }
  }
}
