/** Faces to person tracks: the head-region gate, the gated cost matrix, the
    assignment, and the provenance links of face-anchored tracks. */
module FaceAssociation {
  import M = Matching
  import LinearSumAssignment
  import opened GatedMatching
  import opened Boxes
  import opened Basics

  datatype Track = Track(id: int, className: string, box: Box, synthetic: bool,
                         locked: bool, threat: Option<string>)
  datatype Face = Face(box: Box, qualityPassed: bool)

  const EPS := 0.00001

  // ------------------------------------------------------------- the cost of a pair

  function Width(t: Track): real { Max(EPS, t.box.x2 - t.box.x1) }
  function Height(t: Track): real { Max(EPS, t.box.y2 - t.box.y1) }
  function FaceX(f: Face): real { (f.box.x1 + f.box.x2) / 2.0 }
  function FaceY(f: Face): real { (f.box.y1 + f.box.y2) / 2.0 }
  function Ratio(t: Track, f: Face): real { Max(EPS, f.box.y2 - f.box.y1) / Height(t) }

  predicate Gate(t: Track, f: Face) {
    && t.box.x1 + 0.18 * Width(t) <= FaceX(f) <= t.box.x2 - 0.18 * Width(t)
    && t.box.y1 + 0.02 * Height(t) <= FaceY(f)
    && FaceY(f) <= t.box.y1 + (if Ratio(t, f) >= 0.28 then 0.60 else 0.42) * Height(t)
    && 0.08 <= Ratio(t, f) <= 0.58
  }

  function Dx(t: Track, f: Face): real {
    Abs(FaceX(f) - (t.box.x1 + t.box.x2) / 2.0) / Max(Width(t), EPS)
  }

  function Dy(t: Track, f: Face): real {
    Abs(FaceY(f) - (t.box.y1 + 0.12 * Height(t))) / Max(Height(t), EPS)
  }

  function LockedBonus(t: Track): real {
    if t.locked && t.threat == Some("CRITICAL") then 0.30 else if t.locked then 0.18 else 0.0
  }

  /** The engine's square root, as a parameter. */
  ghost predicate IsRoot(root: real -> real) {
    forall x :: 0.0 <= x ==> 0.0 <= root(x) && root(x) * root(x) == x
  }

  function SquareSum(x: real, y: real): real { x * x + y * y }

  function Distance(root: real -> real, t: Track, f: Face): real {
    root(SquareSum(Dx(t, f), Dy(t, f)))
  }

  function PairCost(root: real -> real, t: Track, f: Face): real {
    if Gate(t, f)
    then Distance(root, t, f) + 0.32 * Abs(Ratio(t, f) - 0.22) - LockedBonus(t)
    else BIG
  }

  lemma SquareBound(x: real, k: real)
    requires 0.0 <= x <= k
    ensures 0.0 <= x * x <= k * k
  {
    assert x * x <= x * k <= k * k;
  }

  lemma SquareGrows(k: real, x: real)
    requires 0.0 <= k < x
    ensures k * k < x * x
  {
    assert k * (x - k) >= 0.0;
    assert x * (x - k) > 0.0;
  }

  lemma RootBound(root: real -> real, x: real, y: real)
    requires IsRoot(root)
    requires 0.0 <= x <= 0.32 && 0.0 <= y <= 0.48
    ensures 0.0 <= root(SquareSum(x, y)) <= 0.58
  {
    SquareBound(x, 0.32);
    SquareBound(y, 0.48);
    var z := SquareSum(x, y);
    assert 0.0 <= root(z) && root(z) * root(z) == z;
    if root(z) > 0.58 {
      SquareGrows(0.58, root(z));
    }
  }

  lemma GateDistances(t: Track, f: Face)
    requires Gate(t, f)
    ensures 0.0 <= Dx(t, f) <= 0.32 && 0.0 <= Dy(t, f) <= 0.48
  {
    var a := Abs(FaceX(f) - (t.box.x1 + t.box.x2) / 2.0);
    assert a <= 0.32 * Width(t);
    QuotientBound(a, Width(t), 0.32);
    QuotientBound(a, Width(t), 0.0);
    var b := Abs(FaceY(f) - (t.box.y1 + 0.12 * Height(t)));
    assert b <= 0.48 * Height(t);
    QuotientBound(b, Height(t), 0.48);
    QuotientBound(b, Height(t), 0.0);
  }

  /** The head gate in lengths: the face's centre lies in the middle 64% of the person's
      width, from 2% down to 42% of the height, or 60% when the face is at least 28% as
      tall, and the face is between 8% and 58% as tall as the person. */
  lemma GateExactly(t: Track, f: Face)
    ensures var w, h := Max(EPS, t.box.x2 - t.box.x1), Max(EPS, t.box.y2 - t.box.y1);
            var x, y := (f.box.x1 + f.box.x2) / 2.0, (f.box.y1 + f.box.y2) / 2.0;
            var fh := Max(EPS, f.box.y2 - f.box.y1);
            Gate(t, f) <==>
              && 0.18 * w <= x - t.box.x1 && 0.18 * w <= t.box.x2 - x
              && 0.02 * h <= y - t.box.y1 && y - t.box.y1 <= (if 0.28 * h <= fh then 0.60 * h else 0.42 * h)
              && 0.08 * h <= fh && fh <= 0.58 * h
  {
    var h, fh := Height(t), Max(EPS, f.box.y2 - f.box.y1);
    QuotientBound(fh, h, 0.08);
    QuotientBound(fh, h, 0.28);
    QuotientBound(fh, h, 0.58);
  }

  lemma DistanceRange(root: real -> real, t: Track, f: Face)
    requires IsRoot(root) && Gate(t, f)
    ensures 0.0 <= Distance(root, t, f) <= 0.58
  {
    GateDistances(t, f);
    RootBound(root, Dx(t, f), Dy(t, f));
  }

  /** A permitted pair is cheap, whatever the boxes; a forbidden one costs BIG. */
  lemma PairCostTiers(root: real -> real, t: Track, f: Face)
    requires IsRoot(root)
    ensures Gate(t, f) ==> LO <= PairCost(root, t, f) <= HI
    ensures !Gate(t, f) ==> PairCost(root, t, f) == BIG
  {
    if Gate(t, f) {
      DistanceRange(root, t, f);
      var ratio := Ratio(t, f);
      assert Abs(ratio - 0.22) <= 0.36;
    }
  }

  // ------------------------------------------------------------------- association

  function Persons(tracks: seq<Track>): (ps: seq<Track>)
    ensures forall t :: t in ps <==> t in tracks && t.className == "person"
  {
    if tracks == [] then []
    else if tracks[0].className == "person" then [tracks[0]] + Persons(tracks[1..])
    else Persons(tracks[1..])
  }

  function CostMatrix(root: real -> real, ps: seq<Track>, faces: seq<Face>): (c: M.Matrix)
    ensures c.Valid() && c.rows == |ps| && c.cols == |faces|
    ensures forall r, k :: 0 <= r < |ps| && 0 <= k < |faces| ==> c.cell[r][k] == PairCost(root, ps[r], faces[k])
  {
    M.Matrix(|ps|, |faces|,
             seq(|ps|, r requires 0 <= r < |ps| =>
               seq(|faces|, k requires 0 <= k < |faces| => PairCost(root, ps[r], faces[k]))))
  }

  ghost predicate UniqueIds(tracks: seq<Track>) {
    forall a, b :: 0 <= a < b < |tracks| ==> tracks[a].id != tracks[b].id
  }

  /** A matching of the gate graph: persons rs[k] with faces cs[k]. */
  ghost predicate GateMatching(ps: seq<Track>, faces: seq<Face>, rs: seq<int>, cs: seq<int>) {
    M.IsMatching(|ps|, |faces|, rs, cs) &&
    forall k :: 0 <= k < |rs| ==> Gate(ps[rs[k]], faces[cs[k]])
  }

  /** The map the engine returns, read as a matching. */
  ghost predicate Reads(ps: seq<Track>, rs: seq<int>, cs: seq<int>, assignments: map<int, nat>) {
    && |rs| == |cs|
    && (forall k :: 0 <= k < |rs| ==>
          0 <= rs[k] < |ps| && ps[rs[k]].id in assignments && assignments[ps[rs[k]].id] == cs[k])
    && (forall id :: id in assignments ==> exists k :: 0 <= k < |rs| && ps[rs[k]].id == id)
  }

  lemma TwoTierCosts(root: real -> real, ps: seq<Track>, faces: seq<Face>)
    requires IsRoot(root)
    ensures TwoTier(CostMatrix(root, ps, faces))
  {
    forall r, k | 0 <= r < |ps| && 0 <= k < |faces|
      ensures LO <= PairCost(root, ps[r], faces[k]) <= HI || PairCost(root, ps[r], faces[k]) == BIG
    {
      PairCostTiers(root, ps[r], faces[k]);
    }
  }

  lemma WithinIsGate(root: real -> real, ps: seq<Track>, faces: seq<Face>, limit: real, rs: seq<int>, cs: seq<int>)
    requires IsRoot(root) && HI <= limit < BIG
    ensures Within(CostMatrix(root, ps, faces), limit, rs, cs) <==> GateMatching(ps, faces, rs, cs)
  {
    if M.IsMatching(|ps|, |faces|, rs, cs) {
      forall k | 0 <= k < |rs|
        ensures PairCost(root, ps[rs[k]], faces[cs[k]]) <= limit <==> Gate(ps[rs[k]], faces[cs[k]])
      {
        PairCostTiers(root, ps[rs[k]], faces[cs[k]]);
      }
    }
  }

  /** The table of a matching, later pairs overwriting earlier ones. */
  function Assigned(ps: seq<Track>, rs: seq<int>, cs: seq<int>): map<int, nat>
    requires |rs| == |cs| && M.Below(rs, |ps|) && forall k :: 0 <= k < |cs| ==> 0 <= cs[k]
  {
    if rs == [] then map[] else
    var n := |rs| - 1;
    Assigned(ps, rs[..n], cs[..n])[ps[rs[n]].id := cs[n]]
  }

  lemma ReadsAppend(ps: seq<Track>, rs: seq<int>, cs: seq<int>, r: int, f: nat, assignments: map<int, nat>)
    requires UniqueIds(ps) && Reads(ps, rs, cs, assignments)
    requires 0 <= r < |ps| && r !in rs
    ensures Reads(ps, rs + [r], cs + [f], assignments[ps[r].id := f])
  {
    var rs', m := rs + [r], assignments[ps[r].id := f];
    assert rs'[|rs|] == r;
    forall id | id in m ensures exists k :: 0 <= k < |rs'| && ps[rs'[k]].id == id {
      if id != ps[r].id {
        var k :| 0 <= k < |rs| && ps[rs[k]].id == id;
        assert rs'[k] == rs[k];
      }
    }
  }

  lemma {:induction false} AssignedReads(ps: seq<Track>, rs: seq<int>, cs: seq<int>, faces: nat)
    requires M.IsMatching(|ps|, faces, rs, cs)
    ensures forall id :: id in Assigned(ps, rs, cs) ==>
              Assigned(ps, rs, cs)[id] < faces && exists t :: t in ps && t.id == id
    ensures UniqueIds(ps) ==> Reads(ps, rs, cs, Assigned(ps, rs, cs))
  {
    if rs != [] {
      var n := |rs| - 1;
      AssignedReads(ps, rs[..n], cs[..n], faces);
      if UniqueIds(ps) {
        assert rs[n] !in rs[..n] && rs == rs[..n] + [rs[n]] && cs == cs[..n] + [cs[n]];
        ReadsAppend(ps, rs[..n], cs[..n], rs[n], cs[n], Assigned(ps, rs[..n], cs[..n]));
      }
    }
  }

  lemma AssignedSnoc(ps: seq<Track>, rs: seq<int>, cs: seq<int>, r: int, f: nat)
    requires |rs| == |cs| && M.Below(rs, |ps|) && (forall k :: 0 <= k < |cs| ==> 0 <= cs[k]) && 0 <= r < |ps|
    ensures Assigned(ps, rs + [r], cs + [f]) == Assigned(ps, rs, cs)[ps[r].id := f]
  {
    assert (rs + [r])[..|rs|] == rs && (cs + [f])[..|cs|] == cs;
  }

  /** The table of the pairs the cutoff keeps. */
  ghost function KeptTable(c: M.Matrix, ps: seq<Track>, maxCost: real, rows: seq<int>, cols: seq<int>): map<int, nat>
    requires c.Valid() && c.rows == |ps| && M.IsMatching(c.rows, c.cols, rows, cols)
  {
    var kept := Kept(c, maxCost, rows, cols);
    Assigned(ps, kept.0, kept.1)
  }

  lemma KeptTableNext(c: M.Matrix, ps: seq<Track>, maxCost: real, rows: seq<int>, cols: seq<int>, k: nat)
    requires c.Valid() && c.rows == |ps| && M.IsMatching(c.rows, c.cols, rows, cols) && k < |rows|
    ensures KeptTable(c, ps, maxCost, rows[..k + 1], cols[..k + 1])
         == if c.cell[rows[k]][cols[k]] <= maxCost
            then KeptTable(c, ps, maxCost, rows[..k], cols[..k])[ps[rows[k]].id := cols[k]]
            else KeptTable(c, ps, maxCost, rows[..k], cols[..k])
  {
    assert rows[..k + 1][..k] == rows[..k] && cols[..k + 1][..k] == cols[..k];
    var kept := Kept(c, maxCost, rows[..k], cols[..k]);
    if c.cell[rows[k]][cols[k]] <= maxCost {
      AssignedSnoc(ps, kept.0, kept.1, rows[k], cols[k]);
    }
  }

  /** The filter loop: the table of the optimum's pairs below the cutoff. */
  method FilterPairs(c: M.Matrix, ps: seq<Track>, maxCost: real, rows: seq<int>, cols: seq<int>)
    returns (assignments: map<int, nat>)
    requires c.Valid() && c.rows == |ps| && M.IsMatching(c.rows, c.cols, rows, cols)
    ensures var kept := Kept(c, maxCost, rows, cols); assignments == Assigned(ps, kept.0, kept.1)
  {
    assignments := map[];
    for k := 0 to |rows|
      invariant assignments == KeptTable(c, ps, maxCost, rows[..k], cols[..k])
    {
      KeptTableNext(c, ps, maxCost, rows, cols, k);
      if c.cell[rows[k]][cols[k]] <= maxCost {
        assignments := assignments[ps[rows[k]].id := cols[k]];
      }
    }
    assert rows[..|rows|] == rows && cols[..|cols|] == cols;
  }

  /** A matching of the gate graph with as many pairs as any, and a cheapest one of that
      size. */
  ghost predicate MaximumGate(root: real -> real, ps: seq<Track>, faces: seq<Face>, rs: seq<int>, cs: seq<int>) {
    && GateMatching(ps, faces, rs, cs)
    && forall rs2, cs2 :: GateMatching(ps, faces, rs2, cs2) ==>
         && |rs2| <= |rs|
         && (|rs2| == |rs| ==>
               M.Total(CostMatrix(root, ps, faces), rs, cs) <= M.Total(CostMatrix(root, ps, faces), rs2, cs2))
  }

  /** What the cutoff keeps of an optimal assignment. */
  lemma KeptIsMaximumGate(root: real -> real, ps: seq<Track>, faces: seq<Face>, maxCost: real,
                          rows: seq<int>, cols: seq<int>)
    requires IsRoot(root) && HI <= maxCost < BIG
    requires M.IsMatching(|ps|, |faces|, rows, cols) && |rows| == M.Min(|ps|, |faces|) < 100000
    requires forall rs2, cs2 :: M.IsMatching(|ps|, |faces|, rs2, cs2) && |rs2| == |rows| ==>
               M.Total(CostMatrix(root, ps, faces), rows, cols) <= M.Total(CostMatrix(root, ps, faces), rs2, cs2)
    ensures var kept := Kept(CostMatrix(root, ps, faces), maxCost, rows, cols);
            MaximumGate(root, ps, faces, kept.0, kept.1)
  {
    var c := CostMatrix(root, ps, faces);
    var kept := Kept(c, maxCost, rows, cols);
    TwoTierCosts(root, ps, faces);
    KeptWithin(c, maxCost, rows, cols);
    WithinIsGate(root, ps, faces, maxCost, kept.0, kept.1);
    forall rs2, cs2 | GateMatching(ps, faces, rs2, cs2)
      ensures |rs2| <= |kept.0|
      ensures |rs2| == |kept.0| ==> M.Total(c, kept.0, kept.1) <= M.Total(c, rs2, cs2)
    {
      WithinIsGate(root, ps, faces, maxCost, rs2, cs2);
      KeptIsMaximum(c, maxCost, rows, cols, rs2, cs2);
    }
  }

  // ------------------------------------------------------------- what the cost decides

  /** How far the face's centre is from the point 12% down the middle of the person's box,
      in widths and heights of that box, squared. */
  function OffsetSquared(t: Track, f: Face): real {
    var w, h := Max(EPS, t.box.x2 - t.box.x1), Max(EPS, t.box.y2 - t.box.y1);
    var x := ((f.box.x1 + f.box.x2) / 2.0 - (t.box.x1 + t.box.x2) / 2.0) / w;
    var y := ((f.box.y1 + f.box.y2) / 2.0 - (t.box.y1 + 0.12 * h)) / h;
    x * x + y * y
  }

  /** How far the face's height is from 22% of the person's. */
  function ScaleOff(t: Track, f: Face): real {
    Abs(Max(EPS, f.box.y2 - f.box.y1) / Max(EPS, t.box.y2 - t.box.y1) - 0.22)
  }

  predicate Critical(t: Track) { t.threat == Some("CRITICAL") }

  predicate SameLock(t1: Track, t2: Track) { t1.locked == t2.locked && (t1.locked ==> Critical(t1) == Critical(t2)) }

  lemma AbsQuotient(a: real, q: real)
    requires q > 0.0
    ensures Abs(a) / q == Abs(a / q)
    ensures (Abs(a) / q) * (Abs(a) / q) == (a / q) * (a / q)
  {
  }

  lemma OffsetIs(t: Track, f: Face)
    ensures SquareSum(Dx(t, f), Dy(t, f)) == OffsetSquared(t, f) >= 0.0
  {
    AbsQuotient(FaceX(f) - (t.box.x1 + t.box.x2) / 2.0, Width(t));
    AbsQuotient(FaceY(f) - (t.box.y1 + 0.12 * Height(t)), Height(t));
    SquareBound(Dx(t, f), Dx(t, f));
    SquareBound(Dy(t, f), Dy(t, f));
  }

  lemma RootGrows(root: real -> real, a: real, b: real)
    requires IsRoot(root) && 0.0 <= a && 0.0 <= b
    ensures root(a) < root(b) <==> a < b
  {
    if root(a) < root(b) {
      SquareGrows(root(a), root(b));
    }
    if root(b) < root(a) {
      SquareGrows(root(b), root(a));
    }
  }

  /** What a pair that passes the gate costs, in the coordinates and flags of its two
      sides. */
  lemma PairCostIs(root: real -> real, t: Track, f: Face)
    requires Gate(t, f)
    ensures PairCost(root, t, f) == root(OffsetSquared(t, f)) + 0.32 * ScaleOff(t, f)
                                      - (if !t.locked then 0.0 else if Critical(t) then 0.30 else 0.18)
  {
    OffsetIs(t, f);
  }

  /** Of two persons whose gates take a face, equally locked and equally off its scale,
      the one whose head point is nearer is cheaper. */
  lemma NearerIsCheaper(root: real -> real, t1: Track, t2: Track, f1: Face, f2: Face)
    requires IsRoot(root) && Gate(t1, f1) && Gate(t2, f2)
    requires SameLock(t1, t2) && ScaleOff(t1, f1) == ScaleOff(t2, f2)
    ensures PairCost(root, t1, f1) < PairCost(root, t2, f2) <==> OffsetSquared(t1, f1) < OffsetSquared(t2, f2)
  {
    PairCostIs(root, t1, f1);
    PairCostIs(root, t2, f2);
    OffsetIs(t1, f1);
    OffsetIs(t2, f2);
    RootGrows(root, OffsetSquared(t1, f1), OffsetSquared(t2, f2));
  }

  /** Equally near, what decides is the scale, at 0.32 per unit, and the lock: a critical
      lock is worth 0.30, any other 0.18. */
  lemma LockAndScaleAreWorth(root: real -> real, t1: Track, t2: Track, f1: Face, f2: Face)
    requires Gate(t1, f1) && Gate(t2, f2) && OffsetSquared(t1, f1) == OffsetSquared(t2, f2)
    ensures var d := PairCost(root, t2, f2) - PairCost(root, t1, f1) - 0.32 * (ScaleOff(t2, f2) - ScaleOff(t1, f1));
            && (SameLock(t1, t2) ==> d == 0.0)
            && (t1.locked && !Critical(t1) && !t2.locked ==> d == 0.18)
            && (t1.locked && Critical(t1) && !t2.locked ==> d == 0.30)
            && (t1.locked && Critical(t1) && t2.locked && !Critical(t2) ==> d == 0.12)
  {
    PairCostIs(root, t1, f1);
    PairCostIs(root, t2, f2);
  }

  lemma ExchangedIsMatching(rows: nat, cols: nat, rs: seq<int>, cs: seq<int>, k: nat, r: int, j: int)
    requires M.IsMatching(rows, cols, rs, cs) && k < |rs| && 0 <= r < rows && 0 <= j < cols
    requires r == rs[k] || r !in rs
    requires j == cs[k] || j !in cs
    ensures M.IsMatching(rows, cols, rs[k := r], cs[k := j])
  {
  }

  /** No pair of the matching can be exchanged for a cheaper one with an unmatched person
      or an unmatched face. */
  lemma NoCheaperExchange(root: real -> real, ps: seq<Track>, faces: seq<Face>, rs: seq<int>, cs: seq<int>,
                          k: nat, r: int, j: int)
    requires MaximumGate(root, ps, faces, rs, cs) && k < |rs|
    requires 0 <= r < |ps| && 0 <= j < |faces| && Gate(ps[r], faces[j])
    requires r == rs[k] || r !in rs
    requires j == cs[k] || j !in cs
    ensures PairCost(root, ps[rs[k]], faces[cs[k]]) <= PairCost(root, ps[r], faces[j])
  {
    var c, rs2, cs2 := CostMatrix(root, ps, faces), rs[k := r], cs[k := j];
    ExchangedIsMatching(|ps|, |faces|, rs, cs, k, r, j);
    assert GateMatching(ps, faces, rs2, cs2);
    M.TotalExchange(c, rs, cs, k, r, j);
  }

  /** The person at r has no face, and the gate of the person at r takes the k-th. */
  predicate CouldHave(ps: seq<Track>, faces: seq<Face>, assignments: map<int, nat>, r: int, k: int) {
    0 <= r < |ps| && 0 <= k < |faces| && ps[r].id !in assignments && Gate(ps[r], faces[k])
  }

  /** A face never goes to the farther of two persons, equally locked and equally off its
      scale, while the nearer one has none. */
  lemma FaceGoesToNearer(root: real -> real, ps: seq<Track>, faces: seq<Face>, rs: seq<int>, cs: seq<int>,
                         assignments: map<int, nat>, a: int, b: int)
    requires IsRoot(root) && UniqueIds(ps)
    requires MaximumGate(root, ps, faces, rs, cs) && Reads(ps, rs, cs, assignments)
    requires 0 <= a < |ps| && ps[a].id in assignments && CouldHave(ps, faces, assignments, b, assignments[ps[a].id])
    requires var f := faces[assignments[ps[a].id]]; SameLock(ps[a], ps[b]) && ScaleOff(ps[a], f) == ScaleOff(ps[b], f)
    ensures Gate(ps[a], faces[assignments[ps[a].id]])
    ensures OffsetSquared(ps[a], faces[assignments[ps[a].id]]) <= OffsetSquared(ps[b], faces[assignments[ps[a].id]])
  {
    var k :| 0 <= k < |rs| && ps[rs[k]].id == ps[a].id;
    assert rs[k] == a && assignments[ps[a].id] == cs[k];
    NoCheaperExchange(root, ps, faces, rs, cs, k, b, cs[k]);
    NearerIsCheaper(root, ps[b], ps[a], faces[cs[k]], faces[cs[k]]);
  }

  /** A maximum matching leaves no person and face that could still be joined. */
  lemma NothingLeftToJoin(root: real -> real, ps: seq<Track>, faces: seq<Face>, rs: seq<int>, cs: seq<int>, r: int, j: int)
    requires MaximumGate(root, ps, faces, rs, cs) && 0 <= r < |ps| && 0 <= j < |faces| && Gate(ps[r], faces[j])
    ensures r in rs || j in cs
  {
    if r !in rs && j !in cs {
      assert GateMatching(ps, faces, rs + [r], cs + [j]);
    }
  }

  lemma ReadsOne(ps: seq<Track>, rs: seq<int>, cs: seq<int>, assignments: map<int, nat>)
    requires Reads(ps, rs, cs, assignments) && |rs| == 1 && cs[0] == 0
    ensures assignments == map[ps[rs[0]].id := 0]
  {
    forall id | id in assignments ensures id == ps[rs[0]].id {
      var k :| 0 <= k < |rs| && ps[rs[k]].id == id;
    }
  }

  /** One face that two persons could have goes to the nearer one, if they are equally
      locked and equally off its scale. */
  lemma OneFaceTwoPersons(root: real -> real, ps: seq<Track>, f: Face, rs: seq<int>, cs: seq<int>,
                          assignments: map<int, nat>, a: int, b: int)
    requires IsRoot(root) && UniqueIds(ps) && 0 <= a < |ps| && 0 <= b < |ps| && a != b
    requires MaximumGate(root, ps, [f], rs, cs) && Reads(ps, rs, cs, assignments)
    requires forall r :: 0 <= r < |ps| ==> (Gate(ps[r], f) <==> r == a || r == b)
    requires SameLock(ps[a], ps[b]) && ScaleOff(ps[a], f) == ScaleOff(ps[b], f)
    requires OffsetSquared(ps[a], f) < OffsetSquared(ps[b], f)
    ensures assignments == map[ps[a].id := 0]
  {
    NothingLeftToJoin(root, ps, [f], rs, cs, a, 0);
    M.Pigeonhole(cs, 1);
    assert |rs| == 1 && cs[0] == 0 && Gate(ps[rs[0]], [f][cs[0]]);
    if rs[0] == b {
      NoCheaperExchange(root, ps, [f], rs, cs, 0, a, 0);
      NearerIsCheaper(root, ps[a], ps[b], f, f);
    }
    ReadsOne(ps, rs, cs, assignments);
  }

  lemma NothingToMatch(root: real -> real, ps: seq<Track>, faces: seq<Face>)
    requires |ps| == 0 || |faces| == 0
    ensures MaximumGate(root, ps, faces, [], [])
  {
    forall rs2, cs2 | GateMatching(ps, faces, rs2, cs2) ensures rs2 == [] && cs2 == [] {
      M.Pigeonhole(rs2, |ps|);
      M.Pigeonhole(cs2, |faces|);
    }
  }

  /** Track ids to face indices. With unique track ids, a cutoff between the two
      cost tiers and fewer than 100,000 pairs, the result is a matching of the gate
      graph with as many pairs as any, and a cheapest one of that size. */
  method AssociateFacesToTracks(root: real -> real, tracks: seq<Track>, faces: seq<Face>, maxCost: real)
    returns (assignments: map<int, nat>, ghost rs: seq<int>, ghost cs: seq<int>)
    requires IsRoot(root)
    ensures forall id :: id in assignments ==>
              assignments[id] < |faces| && exists t :: t in tracks && t.className == "person" && t.id == id
    ensures var ps := Persons(tracks);
            UniqueIds(ps) && HI <= maxCost < BIG && M.Min(|ps|, |faces|) < 100000 ==>
              MaximumGate(root, ps, faces, rs, cs) && Reads(ps, rs, cs, assignments)
  {
    var ps := Persons(tracks);
    rs, cs := [], [];
    if |ps| == 0 || |faces| == 0 {
      NothingToMatch(root, ps, faces);
      return map[], [], [];
    }
    var c := CostMatrix(root, ps, faces);
    var rows, cols := LinearSumAssignment.Assign(c);
    assignments := FilterPairs(c, ps, maxCost, rows, cols);
    ghost var kept := Kept(c, maxCost, rows, cols);
    rs, cs := kept.0, kept.1;
    KeptWithin(c, maxCost, rows, cols);
    AssignedReads(ps, rs, cs, |faces|);
    if HI <= maxCost < BIG && M.Min(|ps|, |faces|) < 100000 {
      KeptIsMaximumGate(root, ps, faces, maxCost, rows, cols);
    }
  }

  // ------------------------------------------------------------- face-anchored tracks

  /** The approximate person box of a face without a body, fitted into the frame. */
  function ProjectPersonBox(f: Box): (body: Option<Box>)
  {
    var fw, fh := f.x2 - f.x1, f.y2 - f.y1;
    if fw <= 0.0 || fh <= 0.0 then None else
    var fcx := (f.x1 + f.x2) / 2.0;
    var bodyW, bodyH := 2.2 * fw, 6.0 * fh;
    var x1 := Max(0.0, fcx - bodyW / 2.0);
    var x2 := Min(1.0, fcx + bodyW / 2.0);
    var bottom0 := Min(1.0, f.y1 - 0.1 * fh + bodyH);
    var top0 := bottom0 - bodyH;
    var top := if top0 < 0.0 then 0.0 else top0;
    var bottom := if top0 < 0.0 then Min(1.0, bodyH) else bottom0;
    if x2 <= x1 || bottom <= top then None else Some(Box(x1, top, x2, bottom))
  }

  ghost predicate InFrame(b: Box) {
    0.0 <= b.x1 && b.x2 <= 1.0 && 0.0 <= b.y1 && b.y2 <= 1.0
  }

  /** Every projected box is a proper box inside the frame. */
  lemma ProjectedBoxInFrame(f: Box)
    ensures match ProjectPersonBox(f)
            case None => true
            case Some(b) => InFrame(b) && b.x1 < b.x2 && b.y1 < b.y2
  {
  }

  /** A face inside the frame has a projected box exactly when it has an area; the
      box then contains the whole face, is six faces tall or as tall as the frame,
      and overlaps the face, so that a track spawned from it can be linked back. */
  lemma ProjectedBoxHoldsFace(f: Box)
    requires InFrame(f)
    ensures ProjectPersonBox(f).Some? <==> f.x1 < f.x2 && f.y1 < f.y2
    ensures match ProjectPersonBox(f)
            case None => true
            case Some(b) =>
              && Contains(b, f)
              && b.y2 - b.y1 == Min(1.0, 6.0 * (f.y2 - f.y1))
              && BoxIou(f, b) > 0.0
  {
    if f.x1 < f.x2 && f.y1 < f.y2 {
      var b := ProjectPersonBox(f).value;
      assert Strictly(f, (f.x1 + f.x2) / 2.0, (f.y1 + f.y2) / 2.0);
      assert Strictly(b, (f.x1 + f.x2) / 2.0, (f.y1 + f.y2) / 2.0);
      BoxIouMeaning(f, b);
    }
  }

  /** Where a projected box is: 2.2 face widths about the face, cut off at the frame, from
      a tenth of a face above it, or higher where six faces do not fit below that. */
  lemma ProjectedBoxIs(f: Box)
    ensures match ProjectPersonBox(f)
            case None => true
            case Some(b) =>
              var w, h := f.x2 - f.x1, f.y2 - f.y1;
              && b.x1 == Max(0.0, f.x1 - 0.6 * w) && b.x2 == Min(1.0, f.x2 + 0.6 * w)
              && b.y1 == Max(0.0, Min(f.y1 - 0.1 * h, 1.0 - 6.0 * h)) && b.y2 == Min(1.0, b.y1 + 6.0 * h)
  {
  }

  predicate RealPerson(t: Track) { t.className == "person" && !t.synthetic }

  /** The face may be linked to this face-anchored track by provenance. */
  predicate Linkable(tracks: seq<Track>, t: Track, f: Face) {
    && f.qualityPassed
    && BoxIou(f.box, t.box) > 0.0
    && forall r :: r in tracks && RealPerson(r) ==> BoxIou(f.box, r.box) <= 0.0
  }

  /** Which faces those are: of passed quality, with a region in common with the track, and
      with none in common with any real person. */
  lemma LinkableExactly(tracks: seq<Track>, t: Track, f: Face)
    ensures Linkable(tracks, t, f) <==>
              && f.qualityPassed && Overlap(f.box, t.box)
              && forall r :: r in tracks && r.className == "person" && !r.synthetic ==> !Overlap(f.box, r.box)
  {
    BoxIouMeaning(f.box, t.box);
    forall r | r in tracks ensures BoxIou(f.box, r.box) <= 0.0 <==> !Overlap(f.box, r.box) {
      BoxIouMeaning(f.box, r.box);
    }
  }

  ghost predicate Served(tracks: seq<Track>, faces: seq<Face>, a: int, id: int, k: nat)
    requires 0 <= a < |tracks|
  {
    tracks[a].synthetic && tracks[a].id == id && k < |faces| && Linkable(tracks, tracks[a], faces[k])
  }

  predicate Holds(links: map<int, nat>, id: int, k: nat) { id in links && links[id] == k }

  ghost predicate Taken(links: map<int, nat>, k: nat) { exists id :: Holds(links, id, k) }

  /** The track of id is among the first n, and link k of it is one it may have. */
  ghost predicate ServedOf(tracks: seq<Track>, faces: seq<Face>, n: int, id: int, k: nat) {
    exists a :: 0 <= a < n && a < |tracks| && Served(tracks, faces, a, id, k)
  }

  /** Nothing linkable is left for a track without a link. */
  ghost predicate NothingLeft(tracks: seq<Track>, faces: seq<Face>, a: int, links: map<int, nat>, used: set<nat>)
    requires 0 <= a < |tracks|
  {
    tracks[a].synthetic && tracks[a].id !in links ==>
      forall k | 0 <= k < |faces| :: Linkable(tracks, tracks[a], faces[k]) ==> k in used
  }

  /** What the link table means part-way: n tracks have been served. */
  ghost predicate Links(tracks: seq<Track>, faces: seq<Face>, n: int, links: map<int, nat>, used: set<nat>) {
    && 0 <= n <= |tracks|
    && (forall id :: id in links ==> ServedOf(tracks, faces, n, id, links[id]))
    && (forall id :: id in links ==> links[id] in used)
    && (forall id1, id2 :: id1 in links && id2 in links && id1 != id2 ==> links[id1] != links[id2])
    && (UniqueIds(tracks) ==> forall k :: k in used ==> Taken(links, k))
    && (forall a :: 0 <= a < n ==> NothingLeft(tracks, faces, a, links, used))
  }

  /** The first face from the k-th on that is unused and linkable, or the number of
      faces. */
  function FirstFree(tracks: seq<Track>, track: Track, faces: seq<Face>, used: set<nat>, k: nat): (f: nat)
    requires k <= |faces|
    ensures k <= f <= |faces|
    ensures f < |faces| ==> f !in used && Linkable(tracks, track, faces[f])
    ensures forall a :: k <= a < f ==> a in used || !Linkable(tracks, track, faces[a])
    decreases |faces| - k
  {
    if k < |faces| && (k in used || !Linkable(tracks, track, faces[k]))
    then FirstFree(tracks, track, faces, used, k + 1) else k
  }

  /** The links and the used faces once n tracks have been served, first come first
      served. */
  function Greedy(tracks: seq<Track>, faces: seq<Face>, n: nat): (map<int, nat>, set<nat>)
    requires n <= |tracks|
  {
    if n == 0 then (map[], {}) else
    var (links, used) := Greedy(tracks, faces, n - 1);
    var k := FirstFree(tracks, tracks[n - 1], faces, used, 0);
    if tracks[n - 1].synthetic && k < |faces| then (links[tracks[n - 1].id := k], used + {k}) else (links, used)
  }

  lemma UsedAppend(links: map<int, nat>, used: set<nat>, id: int, k: nat)
    requires id !in links && forall f :: f in used ==> Taken(links, f)
    ensures forall f :: f in used + {k} ==> Taken(links[id := k], f)
  {
    assert Holds(links[id := k], id, k);
    forall f | f in used ensures Taken(links[id := k], f) {
      var j :| Holds(links, j, f);
      assert Holds(links[id := k], j, f);
    }
  }

  lemma ServedLater(tracks: seq<Track>, faces: seq<Face>, n: int, id: int, k: nat)
    requires ServedOf(tracks, faces, n, id, k)
    ensures ServedOf(tracks, faces, n + 1, id, k)
  {
  }

  lemma ServedAppend(tracks: seq<Track>, faces: seq<Face>, n: int, links: map<int, nat>, k: nat)
    requires 0 <= n < |tracks| && Served(tracks, faces, n, tracks[n].id, k)
    requires forall id :: id in links ==> ServedOf(tracks, faces, n, id, links[id])
    ensures var m := links[tracks[n].id := k]; forall id :: id in m ==> ServedOf(tracks, faces, n + 1, id, m[id])
  {
    var m := links[tracks[n].id := k];
    forall id | id in m ensures ServedOf(tracks, faces, n + 1, id, m[id]) {
      if id == tracks[n].id {
        assert Served(tracks, faces, n, id, m[id]);
      } else {
        ServedLater(tracks, faces, n, id, m[id]);
      }
    }
  }

  lemma NotServedYet(tracks: seq<Track>, faces: seq<Face>, n: int, links: map<int, nat>, used: set<nat>)
    requires UniqueIds(tracks) && Links(tracks, faces, n, links, used) && n < |tracks|
    ensures tracks[n].id !in links
  {
  }

  lemma NothingLeftLater(tracks: seq<Track>, faces: seq<Face>, a: int, links: map<int, nat>, used: set<nat>, id: int,
                         k: nat)
    requires 0 <= a < |tracks| && (NothingLeft(tracks, faces, a, links, used) || tracks[a].id == id)
    ensures NothingLeft(tracks, faces, a, links[id := k], used + {k})
  {
  }

  lemma LinksAppend(tracks: seq<Track>, faces: seq<Face>, n: int, links: map<int, nat>, used: set<nat>, k: nat)
    requires Links(tracks, faces, n, links, used) && n < |tracks|
    requires k < |faces| && k !in used && Served(tracks, faces, n, tracks[n].id, k)
    ensures Links(tracks, faces, n + 1, links[tracks[n].id := k], used + {k})
  {
    ServedAppend(tracks, faces, n, links, k);
    var m, u := links[tracks[n].id := k], used + {k};
    forall a | 0 <= a < n + 1 ensures NothingLeft(tracks, faces, a, m, u) {
      NothingLeftLater(tracks, faces, a, links, used, tracks[n].id, k);
    }
    if UniqueIds(tracks) {
      NotServedYet(tracks, faces, n, links, used);
      UsedAppend(links, used, tracks[n].id, k);
    }
  }

  lemma LinksSkip(tracks: seq<Track>, faces: seq<Face>, n: int, links: map<int, nat>, used: set<nat>)
    requires Links(tracks, faces, n, links, used) && n < |tracks| && NothingLeft(tracks, faces, n, links, used)
    ensures Links(tracks, faces, n + 1, links, used)
  {
    forall id | id in links ensures ServedOf(tracks, faces, n + 1, id, links[id]) {
      ServedLater(tracks, faces, n, id, links[id]);
    }
  }

  /** One track's turn. */
  ghost predicate TurnStep(tracks: seq<Track>, faces: seq<Face>, n: nat, g: (map<int, nat>, set<nat>),
                           g': (map<int, nat>, set<nat>))
    requires n < |tracks|
  {
    var k := FirstFree(tracks, tracks[n], faces, g.1, 0);
    g' == if tracks[n].synthetic && k < |faces| then (g.0[tracks[n].id := k], g.1 + {k}) else g
  }

  lemma LinksNext(tracks: seq<Track>, faces: seq<Face>, n: nat, g: (map<int, nat>, set<nat>),
                  g': (map<int, nat>, set<nat>))
    requires n < |tracks| && Links(tracks, faces, n, g.0, g.1) && TurnStep(tracks, faces, n, g, g')
    ensures Links(tracks, faces, n + 1, g'.0, g'.1)
  {
    var k := FirstFree(tracks, tracks[n], faces, g.1, 0);
    if tracks[n].synthetic && k < |faces| {
      LinksAppend(tracks, faces, n, g.0, g.1, k);
    } else {
      LinksSkip(tracks, faces, n, g.0, g.1);
    }
  }

  ghost predicate Turns(tracks: seq<Track>, faces: seq<Face>, gs: seq<(map<int, nat>, set<nat>)>) {
    && |gs| == |tracks| + 1 && gs[0] == (map[], {})
    && forall a, b :: 0 <= a < |tracks| && b == a + 1 ==> TurnStep(tracks, faces, a, gs[a], gs[b])
  }

  ghost function AllTurns(tracks: seq<Track>, faces: seq<Face>): (gs: seq<(map<int, nat>, set<nat>)>)
    ensures |gs| == |tracks| + 1 && forall n :: 0 <= n <= |tracks| ==> gs[n] == Greedy(tracks, faces, n)
  {
    seq(|tracks| + 1, n requires 0 <= n <= |tracks| => Greedy(tracks, faces, n))
  }

  lemma AllTurnsTaken(tracks: seq<Track>, faces: seq<Face>)
    ensures Turns(tracks, faces, AllTurns(tracks, faces))
  {
    forall a, b | 0 <= a < |tracks| && b == a + 1
      ensures TurnStep(tracks, faces, a, AllTurns(tracks, faces)[a], AllTurns(tracks, faces)[b])
    {
    }
  }

  lemma {:induction false} LinksFrom(tracks: seq<Track>, faces: seq<Face>, gs: seq<(map<int, nat>, set<nat>)>, n: nat)
    requires Turns(tracks, faces, gs) && n <= |tracks|
    ensures Links(tracks, faces, n, gs[n].0, gs[n].1)
  {
    if n > 0 {
      LinksFrom(tracks, faces, gs, n - 1);
      LinksNext(tracks, faces, n - 1, gs[n - 1], gs[n]);
    }
  }

  /** Serving tracks in order never shares a face, and leaves a track unlinked only when
      every face it could take is used. */
  lemma GreedyLinks(tracks: seq<Track>, faces: seq<Face>, n: nat)
    requires n <= |tracks|
    ensures Links(tracks, faces, n, Greedy(tracks, faces, n).0, Greedy(tracks, faces, n).1)
  {
    AllTurnsTaken(tracks, faces);
    LinksFrom(tracks, faces, AllTurns(tracks, faces), n);
  }

  predicate Gets(links: map<int, nat>, id: int, before: int) { id in links && links[id] < before }

  /** First come, first served: a face that an earlier track could have is free, or goes to
      a later one, only if the earlier one has got a face before it in the list. */
  ghost predicate Fair(tracks: seq<Track>, faces: seq<Face>, n: int, links: map<int, nat>, used: set<nat>) {
    && 0 <= n <= |tracks|
    && (forall a, k | 0 <= a < n && 0 <= k < |faces| && tracks[a].synthetic && k !in used ::
          Linkable(tracks, tracks[a], faces[k]) ==> Gets(links, tracks[a].id, k))
    && (forall a, b, k | 0 <= a < b < n && 0 <= k < |faces| && tracks[a].synthetic
                         && tracks[b].id in links && links[tracks[b].id] == k ::
          Linkable(tracks, tracks[a], faces[k]) ==> Gets(links, tracks[a].id, k))
  }

  lemma FairAppend(tracks: seq<Track>, faces: seq<Face>, n: int, links: map<int, nat>, used: set<nat>, k: nat)
    requires UniqueIds(tracks) && Fair(tracks, faces, n, links, used) && n < |tracks|
    requires k < |faces| && k !in used && tracks[n].synthetic
    requires forall a :: 0 <= a < k ==> a in used || !Linkable(tracks, tracks[n], faces[a])
    ensures Fair(tracks, faces, n + 1, links[tracks[n].id := k], used + {k})
  {
    var m := links[tracks[n].id := k];
    forall a, j | 0 <= a < n + 1 && 0 <= j < |faces| && tracks[a].synthetic && j !in used + {k}
                  && Linkable(tracks, tracks[a], faces[j])
      ensures Gets(m, tracks[a].id, j)
    {
      assert a < n ==> Gets(links, tracks[a].id, j);
    }
    forall a, b, j | 0 <= a < b < n + 1 && 0 <= j < |faces| && tracks[a].synthetic && tracks[b].id in m
                     && m[tracks[b].id] == j && Linkable(tracks, tracks[a], faces[j])
      ensures Gets(m, tracks[a].id, j)
    {
      assert Gets(links, tracks[a].id, j);
    }
  }

  lemma FairSkip(tracks: seq<Track>, faces: seq<Face>, n: int, links: map<int, nat>, used: set<nat>)
    requires Fair(tracks, faces, n, links, used) && n < |tracks| && tracks[n].id !in links
    requires tracks[n].synthetic ==> forall a :: 0 <= a < |faces| ==> a in used || !Linkable(tracks, tracks[n], faces[a])
    ensures Fair(tracks, faces, n + 1, links, used)
  {
  }

  lemma FairNext(tracks: seq<Track>, faces: seq<Face>, n: nat, g: (map<int, nat>, set<nat>),
                 g': (map<int, nat>, set<nat>))
    requires UniqueIds(tracks) && n < |tracks| && Fair(tracks, faces, n, g.0, g.1) && tracks[n].id !in g.0
    requires TurnStep(tracks, faces, n, g, g')
    ensures Fair(tracks, faces, n + 1, g'.0, g'.1)
  {
    var k := FirstFree(tracks, tracks[n], faces, g.1, 0);
    if tracks[n].synthetic && k < |faces| {
      FairAppend(tracks, faces, n, g.0, g.1, k);
    } else {
      FairSkip(tracks, faces, n, g.0, g.1);
    }
  }

  lemma {:induction false} FairFrom(tracks: seq<Track>, faces: seq<Face>, gs: seq<(map<int, nat>, set<nat>)>, n: nat)
    requires Turns(tracks, faces, gs) && n <= |tracks| && UniqueIds(tracks)
    ensures Fair(tracks, faces, n, gs[n].0, gs[n].1)
  {
    if n > 0 {
      FairFrom(tracks, faces, gs, n - 1);
      LinksFrom(tracks, faces, gs, n - 1);
      NotServedYet(tracks, faces, n - 1, gs[n - 1].0, gs[n - 1].1);
      FairNext(tracks, faces, n - 1, gs[n - 1], gs[n]);
    }
  }

  /** With unique ids, links are given first come, first served. */
  lemma GreedyFair(tracks: seq<Track>, faces: seq<Face>, n: nat)
    requires n <= |tracks| && UniqueIds(tracks)
    ensures Fair(tracks, faces, n, Greedy(tracks, faces, n).0, Greedy(tracks, faces, n).1)
  {
    AllTurnsTaken(tracks, faces);
    FairFrom(tracks, faces, AllTurns(tracks, faces), n);
  }

  /** The inner for-loop. */
  method FirstLinkable(tracks: seq<Track>, track: Track, faces: seq<Face>, used: set<nat>) returns (k: nat)
    ensures k == FirstFree(tracks, track, faces, used, 0)
  {
    k := 0;
    while k < |faces|
      invariant k <= |faces| && FirstFree(tracks, track, faces, used, 0) == FirstFree(tracks, track, faces, used, k)
    {
      if k !in used && Linkable(tracks, track, faces[k]) {
        break;
      }
      k := k + 1;
    }
  }

  /** Give each face-anchored track, in order, the first unused face it can be
      linked to. */
  method LinkSyntheticTracks(tracks: seq<Track>, faces: seq<Face>) returns (links: map<int, nat>)
    ensures links == Greedy(tracks, faces, |tracks|).0
  {
    links := map[];
    var used: set<nat> := {};
    for a := 0 to |tracks|
      invariant (links, used) == Greedy(tracks, faces, a)
    {
      var track := tracks[a];
      if !track.synthetic {
        continue;
      }
      var k := FirstLinkable(tracks, track, faces, used);
      if k < |faces| {
        links := links[track.id := k];
        used := used + {k};
      }
    }
  }

  // ---------------------------------------------------------------------- both passes

  /** The scale bounds of the gate rule degenerate boxes out: no face passes the gate of a
      track at most 1e-5 tall. */
  lemma GateHeight(t: Track, f: Face)
    requires Gate(t, f)
    ensures t.box.y2 - t.box.y1 > EPS
  {
    var fh, h := Max(EPS, f.box.y2 - f.box.y1), Height(t);
    QuotientBound(fh, h, 0.58);
  }

  /** A face that passes a track's head gate overlaps the track's box exactly when it has
      an area. */
  lemma GateOverlaps(t: Track, f: Face)
    requires Gate(t, f)
    ensures BoxIou(f.box, t.box) > 0.0 <==> f.box.x1 < f.box.x2 && f.box.y1 < f.box.y2
  {
    GateHeight(t, f);
    if f.box.x1 < f.box.x2 && f.box.y1 < f.box.y2 {
      assert Strictly(t.box, FaceX(f), FaceY(f)) && Strictly(f.box, FaceX(f), FaceY(f));
    }
    BoxIouMeaning(f.box, t.box);
  }

  /** Provenance links never take a face that passes the gate of a real person
      track, so merging them leaves the assignment of real tracks and their faces
      alone. */
  lemma LinksSpareGatedFaces(tracks: seq<Track>, faces: seq<Face>, links: map<int, nat>, used: set<nat>, t: Track)
    requires Links(tracks, faces, |tracks|, links, used) && t in tracks && RealPerson(t)
    ensures forall id :: id in links ==> links[id] < |faces| && !Gate(t, faces[links[id]])
  {
    forall id | id in links ensures links[id] < |faces| && !Gate(t, faces[links[id]]) {
      var a :| 0 <= a < |tracks| && Served(tracks, faces, a, id, links[id]);
      var f := faces[links[id]];
      BoxIouMeaning(f.box, tracks[a].box);
      if Gate(t, f) {
        GateOverlaps(t, f);
      }
    }
  }

  lemma {:induction false} PersonsUnique(tracks: seq<Track>)
    requires UniqueIds(tracks)
    ensures UniqueIds(Persons(tracks))
  {
    if tracks != [] {
      var rest := tracks[1..];
      assert forall a :: 0 <= a < |rest| ==> rest[a] == tracks[a + 1];
      PersonsUnique(rest);
      forall p | p in Persons(rest) ensures p.id != tracks[0].id {
        assert p in rest;
      }
    }
  }

  lemma RealTrackFace(tracks: seq<Track>, faces: seq<Face>, rs: seq<int>, cs: seq<int>,
                      assignments: map<int, nat>, links: map<int, nat>, used: set<nat>, t: Track)
    requires UniqueIds(tracks) && UniqueIds(Persons(tracks)) && t in tracks && RealPerson(t)
    requires GateMatching(Persons(tracks), faces, rs, cs) && Reads(Persons(tracks), rs, cs, assignments)
    requires Links(tracks, faces, |tracks|, links, used)
    requires forall id :: id in links ==> links[id] < |faces| && !Gate(t, faces[links[id]])
    ensures t.id !in links
    ensures forall id :: t.id in assignments && id in assignments && id != t.id ==> assignments[id] != assignments[t.id]
    ensures forall id :: t.id in assignments && id in links ==> links[id] != assignments[t.id]
  {
    var ps := Persons(tracks);
    if t.id in assignments {
      var k :| 0 <= k < |rs| && ps[rs[k]].id == t.id;
      var n: int :| 0 <= n < |ps| && ps[n] == t;
      assert rs[k] == n;
      assert Gate(t, faces[cs[k]]) && assignments[t.id] == cs[k];
      forall id | id in assignments && id != t.id ensures assignments[id] != assignments[t.id] {
        var k2 :| 0 <= k2 < |rs| && ps[rs[k2]].id == id;
        assert assignments[id] == cs[k2] && k2 != k;
      }
    }
  }

  /** Both passes as the pipeline runs them: the assignment first, provenance links
      only for tracks it left out. A real track keeps exactly its assigned face and
      shares it with nobody. */
  method FuseFaces(root: real -> real, tracks: seq<Track>, faces: seq<Face>)
    returns (fused: map<int, nat>, ghost byGate: map<int, nat>, ghost rs: seq<int>, ghost cs: seq<int>)
    requires IsRoot(root)
    ensures var ps := Persons(tracks);
            UniqueIds(ps) && M.Min(|ps|, |faces|) < 100000 ==>
              MaximumGate(root, ps, faces, rs, cs) && Reads(ps, rs, cs, byGate)
    ensures fused == Greedy(tracks, faces, |tracks|).0 + byGate
    ensures Greedy(tracks, faces, |tracks|).0.Keys <= fused.Keys
    ensures UniqueIds(tracks) && M.Min(|Persons(tracks)|, |faces|) < 100000 ==>
              forall t :: t in tracks && RealPerson(t) ==>
                && (t.id in fused <==> t.id in byGate)
                && (forall id :: t.id in fused && id in fused && id != t.id ==> fused[id] != fused[t.id])
  {
    var assignments;
    assignments, rs, cs := AssociateFacesToTracks(root, tracks, faces, 0.75);
    var links := LinkSyntheticTracks(tracks, faces);
    fused, byGate := links + assignments, assignments;
    if UniqueIds(tracks) && M.Min(|Persons(tracks)|, |faces|) < 100000 {
      ghost var used := Greedy(tracks, faces, |tracks|).1;
      GreedyLinks(tracks, faces, |tracks|);
      PersonsUnique(tracks);
      forall t | t in tracks && RealPerson(t)
        ensures t.id in fused <==> t.id in byGate
        ensures forall id :: t.id in fused && id in fused && id != t.id ==> fused[id] != fused[t.id]
      {
        LinksSpareGatedFaces(tracks, faces, links, used, t);
        RealTrackFace(tracks, faces, rs, cs, assignments, links, used, t);
      }
    }
  }
}
