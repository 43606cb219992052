/** k-means clustering with exact reals; square roots are given by a parameter. */
module KMeans {
  type Vec = seq<real>

  /** root gives the non-negative real with the given square. */
  ghost predicate IsRoot(root: real -> real) {
    forall v: real :: v >= 0.0 ==> root(v) >= 0.0 && root(v) * root(v) == v
  }

  predicate Dim(pts: seq<Vec>, d: nat) {
    forall k :: 0 <= k < |pts| ==> |pts[k]| == d
  }

  function Sq(x: real): (r: real)
    ensures r >= 0.0
  {
    x * x
  }

  /** The squared distance over the first n coordinates. */
  function Dist2(x: Vec, y: Vec, n: nat): (r: real)
    requires n <= |x| && n <= |y|
    ensures r >= 0.0
  {
    if n == 0 then 0.0 else Dist2(x, y, n - 1) + Sq(x[n - 1] - y[n - 1])
  }

  method EuclideanDist(root: real -> real, x: Vec, y: Vec) returns (dist: real)
    requires |x| == |y|
    ensures dist == root(Dist2(x, y, |x|))
  {
    var distVal := 0.0;
    for i: nat := 0 to |x|
      invariant distVal == Dist2(x, y, i)
    {
      distVal := distVal + (x[i] - y[i]) * (x[i] - y[i]);
    }
    dist := root(distVal);
  }

  // ---- assignPoints and recalculateCtrs ----

  /** The first position of a minimum. */
  function FirstMin(s: seq<real>): (i: nat)
    requires s != []
    ensures i < |s| && (forall j :: 0 <= j < |s| ==> s[i] <= s[j]) && forall j :: 0 <= j < i ==> s[i] < s[j]
  {
    if |s| == 1 then 0
    else
      var i := FirstMin(s[1..]);
      if s[0] <= s[i + 1] then 0 else i + 1
  }

  function Distances(root: real -> real, p: Vec, ctrs: seq<Vec>): (r: seq<real>)
    requires Dim(ctrs, |p|)
    ensures |r| == |ctrs| && forall i :: 0 <= i < |ctrs| ==> r[i] == root(Dist2(p, ctrs[i], |p|))
  {
    seq(|ctrs|, i requires 0 <= i < |ctrs| => root(Dist2(p, ctrs[i], |p|)))
  }

  function AssignPoints(root: real -> real, tbl: seq<Vec>, ctrs: seq<Vec>, d: nat): (r: seq<nat>)
    requires ctrs != [] && Dim(tbl, d) && Dim(ctrs, d)
    ensures |r| == |tbl| && forall k :: 0 <= k < |tbl| ==> r[k] == FirstMin(Distances(root, tbl[k], ctrs)) < |ctrs|
  {
    seq(|tbl|, k requires 0 <= k < |tbl| => FirstMin(Distances(root, tbl[k], ctrs)))
  }

  /** The points assigned to cluster i, in order. */
  function Assigned(tbl: seq<Vec>, asgn: seq<nat>, d: nat, i: nat): (r: seq<Vec>)
    requires |asgn| == |tbl| && Dim(tbl, d)
    ensures Dim(r, d)
  {
    if tbl == [] then []
    else
      var n := |tbl| - 1;
      Assigned(tbl[..n], asgn[..n], d, i) + if asgn[n] == i then [tbl[n]] else []
  }

  function Sum(pts: seq<Vec>, t: nat): real
    requires forall k :: 0 <= k < |pts| ==> t < |pts[k]|
  {
    if pts == [] then 0.0 else Sum(pts[..|pts| - 1], t) + pts[|pts| - 1][t]
  }

  function Mean(pts: seq<Vec>, d: nat): (r: Vec)
    requires pts != [] && Dim(pts, d)
    ensures |r| == d && forall t :: 0 <= t < d ==> r[t] == Sum(pts, t) / |pts| as real
  {
    seq(d, t requires 0 <= t < d => Sum(pts, t) / |pts| as real)
  }

  /** A cluster without points keeps its centre. */
  function NewCtr(tbl: seq<Vec>, ctrs: seq<Vec>, asgn: seq<nat>, d: nat, i: nat): (r: Vec)
    requires |asgn| == |tbl| && Dim(tbl, d) && Dim(ctrs, d) && i < |ctrs|
    ensures |r| == d
  {
    var pts := Assigned(tbl, asgn, d, i);
    if pts != [] then Mean(pts, d) else ctrs[i]
  }

  function RecalculateCtrs(tbl: seq<Vec>, ctrs: seq<Vec>, asgn: seq<nat>, d: nat): (r: seq<Vec>)
    requires |asgn| == |tbl| && Dim(tbl, d) && Dim(ctrs, d)
    ensures |r| == |ctrs| && Dim(r, d) && forall i: nat :: i < |ctrs| ==> r[i] == NewCtr(tbl, ctrs, asgn, d, i)
  {
    seq(|ctrs|, i requires 0 <= i < |ctrs| => NewCtr(tbl, ctrs, asgn, d, i))
  }

  // ---- The cost ----

  predicate InClusters(asgn: seq<nat>, k: nat) {
    forall i :: 0 <= i < |asgn| ==> asgn[i] < k
  }

  /** The sum of the squared distances of the points to the centres they are assigned to. */
  function Cost(tbl: seq<Vec>, ctrs: seq<Vec>, asgn: seq<nat>, d: nat): (r: real)
    requires |asgn| == |tbl| && Dim(tbl, d) && Dim(ctrs, d) && InClusters(asgn, |ctrs|)
    ensures r >= 0.0
  {
    if tbl == [] then 0.0
    else
      var n := |tbl| - 1;
      Cost(tbl[..n], ctrs, asgn[..n], d) + Dist2(tbl[n], ctrs[asgn[n]], d)
  }

  /** The sum of squared distances of some points to c, over the first n coordinates. */
  function Spread(pts: seq<Vec>, c: Vec, n: nat): real
    requires n <= |c| && forall k :: 0 <= k < |pts| ==> n <= |pts[k]|
  {
    if pts == [] then 0.0 else Spread(pts[..|pts| - 1], c, n) + Dist2(pts[|pts| - 1], c, n)
  }

  /** The same in one coordinate. */
  function Spread1(pts: seq<Vec>, t: nat, x: real): real
    requires forall k :: 0 <= k < |pts| ==> t < |pts[k]|
  {
    if pts == [] then 0.0 else Spread1(pts[..|pts| - 1], t, x) + Sq(pts[|pts| - 1][t] - x)
  }

  lemma {:induction false} SpreadByCoordinate(pts: seq<Vec>, c: Vec, n: nat)
    requires n < |c| && forall k :: 0 <= k < |pts| ==> n < |pts[k]|
    ensures Spread(pts, c, n + 1) == Spread(pts, c, n) + Spread1(pts, n, c[n])
  {
    if pts != [] { SpreadByCoordinate(pts[..|pts| - 1], c, n); }
  }

  /** What moving the reference from x to y changes for n numbers with sum s. */
  function Gap(n: real, s: real, x: real, y: real): real {
    2.0 * (y - x) * s + n * (x * x - y * y)
  }

  lemma GapStep(n: real, s: real, v: real, x: real, y: real)
    ensures Gap(n, s, x, y) + (Sq(v - x) - Sq(v - y)) == Gap(n + 1.0, s + v, x, y)
  {
    var w, z := 2.0 * (y - x), x * x - y * y;
    assert Sq(v - x) - Sq(v - y) == w * v + z;
    Distribute(w, s, v);
    Distribute(z, n, 1.0);
  }

  lemma GapNone(x: real, y: real)
    ensures Gap(0.0, 0.0, x, y) == 0.0
  {
  }

  lemma Distribute(n: real, a: real, b: real)
    ensures n * (a + b) == n * a + n * b
  {
  }

  lemma Spread1Snoc(pts: seq<Vec>, t: nat, x: real)
    requires pts != [] && forall k :: 0 <= k < |pts| ==> t < |pts[k]|
    ensures Spread1(pts, t, x) == Spread1(pts[..|pts| - 1], t, x) + Sq(pts[|pts| - 1][t] - x)
    ensures Sum(pts, t) == Sum(pts[..|pts| - 1], t) + pts[|pts| - 1][t]
  {
  }

  lemma {:induction false} Spread1Moves(pts: seq<Vec>, t: nat, x: real, y: real)
    requires forall k :: 0 <= k < |pts| ==> t < |pts[k]|
    ensures Spread1(pts, t, x) - Spread1(pts, t, y) == Gap(|pts| as real, Sum(pts, t), x, y)
  {
    if pts == [] {
      GapNone(x, y);
    } else {
      hide Spread1, Sum, Sq, Gap;
      var front, last := pts[..|pts| - 1], pts[|pts| - 1];
      Spread1Moves(front, t, x, y);
      Spread1Snoc(pts, t, x);
      Spread1Snoc(pts, t, y);
      GapStep(|front| as real, Sum(front, t), last[t], x, y);
      assert |front| as real + 1.0 == |pts| as real;
    }
  }

  lemma MeanTerm(n: real, s: real, x: real, m: real)
    requires n > 0.0 && m == s / n
    ensures Gap(n, s, x, m) == n * Sq(x - m)
  {
    assert s == n * m;
    assert 2.0 * (m - x) * (n * m) == n * (2.0 * m * m - 2.0 * m * x);
    Distribute(n, 2.0 * m * m - 2.0 * m * x, x * x - m * m);
  }

  /** The spread around any point is the spread around the mean plus a term for the distance. */
  lemma {:induction false} SpreadAroundMean(pts: seq<Vec>, c: Vec, d: nat, n: nat)
    requires pts != [] && Dim(pts, d) && |c| == d && n <= d
    ensures Spread(pts, c, n) == Spread(pts, Mean(pts, d), n) + |pts| as real * Dist2(c, Mean(pts, d), n)
  {
    hide Spread, Spread1, Sum, Mean, Sq, Gap;
    var m, size := Mean(pts, d), |pts| as real;
    if n == 0 {
      SpreadNothing(pts, c);
      SpreadNothing(pts, m);
    } else {
      var t: nat := n - 1;
      SpreadAroundMean(pts, c, d, t);
      SpreadByCoordinate(pts, c, t);
      SpreadByCoordinate(pts, m, t);
      Spread1Moves(pts, t, c[t], m[t]);
      MeanTerm(size, Sum(pts, t), c[t], m[t]);
      Distribute(size, Dist2(c, m, t), Sq(c[t] - m[t]));
    }
  }

  lemma {:induction false} SpreadNothing(pts: seq<Vec>, c: Vec)
    ensures Spread(pts, c, 0) == 0.0
  {
    if pts != [] { SpreadNothing(pts[..|pts| - 1], c); }
  }

  /** The cost, cluster by cluster. */
  function ClusterCost(tbl: seq<Vec>, ctrs: seq<Vec>, asgn: seq<nat>, d: nat, k: nat): real
    requires |asgn| == |tbl| && Dim(tbl, d) && Dim(ctrs, d) && k <= |ctrs|
  {
    if k == 0 then 0.0
    else ClusterCost(tbl, ctrs, asgn, d, k - 1) + Spread(Assigned(tbl, asgn, d, k - 1), ctrs[k - 1], d)
  }

  lemma {:induction false} ClusterCostNone(ctrs: seq<Vec>, d: nat, k: nat)
    requires Dim(ctrs, d) && k <= |ctrs|
    ensures ClusterCost([], ctrs, [], d, k) == 0.0
  {
    if k > 0 { ClusterCostNone(ctrs, d, k - 1); }
  }

  lemma SpreadSnoc(pts: seq<Vec>, p: Vec, c: Vec, n: nat)
    requires n <= |c| && n <= |p| && forall k :: 0 <= k < |pts| ==> n <= |pts[k]|
    ensures Spread(pts + [p], c, n) == Spread(pts, c, n) + Dist2(p, c, n)
  {
    assert (pts + [p])[..|pts|] == pts;
  }

  lemma AssignedSnoc(tbl: seq<Vec>, asgn: seq<nat>, d: nat, i: nat)
    requires tbl != [] && |asgn| == |tbl| && Dim(tbl, d)
    ensures var n := |tbl| - 1;
            var before := Assigned(tbl[..n], asgn[..n], d, i);
            Assigned(tbl, asgn, d, i) == if asgn[n] == i then before + [tbl[n]] else before
  {
  }

  lemma {:induction false} ClusterCostAdd(tbl: seq<Vec>, ctrs: seq<Vec>, asgn: seq<nat>, d: nat, k: nat)
    requires tbl != [] && |asgn| == |tbl| && Dim(tbl, d) && Dim(ctrs, d) && InClusters(asgn, |ctrs|) && k <= |ctrs|
    ensures var n := |tbl| - 1;
            ClusterCost(tbl, ctrs, asgn, d, k) ==
              ClusterCost(tbl[..n], ctrs, asgn[..n], d, k) +
                if asgn[n] < k then Dist2(tbl[n], ctrs[asgn[n]], d) else 0.0
  {
    hide Spread, Dist2, Assigned;
    if k > 0 {
      var n := |tbl| - 1;
      ClusterCostAdd(tbl, ctrs, asgn, d, k - 1);
      AssignedSnoc(tbl, asgn, d, k - 1);
      SpreadSnoc(Assigned(tbl[..n], asgn[..n], d, k - 1), tbl[n], ctrs[k - 1], d);
    }
  }

  lemma {:induction false} CostByCluster(tbl: seq<Vec>, ctrs: seq<Vec>, asgn: seq<nat>, d: nat)
    requires |asgn| == |tbl| && Dim(tbl, d) && Dim(ctrs, d) && InClusters(asgn, |ctrs|)
    ensures Cost(tbl, ctrs, asgn, d) == ClusterCost(tbl, ctrs, asgn, d, |ctrs|)
  {
    if tbl == [] {
      ClusterCostNone(ctrs, d, |ctrs|);
    } else {
      var n := |tbl| - 1;
      CostByCluster(tbl[..n], ctrs, asgn[..n], d);
      ClusterCostAdd(tbl, ctrs, asgn, d, |ctrs|);
    }
  }

  // ---- Recalculating the centres ----

  /** The sum, over the first k clusters, of size times squared movement. */
  function WeightedMovement(tbl: seq<Vec>, ctrs: seq<Vec>, asgn: seq<nat>, d: nat, k: nat): real
    requires |asgn| == |tbl| && Dim(tbl, d) && Dim(ctrs, d) && k <= |ctrs|
  {
    if k == 0 then 0.0
    else
      WeightedMovement(tbl, ctrs, asgn, d, k - 1) +
      |Assigned(tbl, asgn, d, k - 1)| as real * Dist2(ctrs[k - 1], NewCtr(tbl, ctrs, asgn, d, k - 1), d)
  }

  lemma NoSpread(c: Vec, d: nat)
    requires d <= |c|
    ensures Spread([], c, d) == 0.0
  {
  }

  lemma ClusterImproves(tbl: seq<Vec>, ctrs: seq<Vec>, asgn: seq<nat>, d: nat, i: nat)
    requires |asgn| == |tbl| && Dim(tbl, d) && Dim(ctrs, d) && i < |ctrs|
    ensures var pts, to := Assigned(tbl, asgn, d, i), NewCtr(tbl, ctrs, asgn, d, i);
            Spread(pts, to, d) == Spread(pts, ctrs[i], d) - |pts| as real * Dist2(ctrs[i], to, d)
  {
    hide Spread, Dist2, Assigned, Mean;
    var pts := Assigned(tbl, asgn, d, i);
    if pts == [] {
      NoSpread(ctrs[i], d);
    } else {
      SpreadAroundMean(pts, ctrs[i], d, d);
    }
  }

  lemma {:induction false} ClustersImprove(tbl: seq<Vec>, ctrs: seq<Vec>, asgn: seq<nat>, d: nat, k: nat)
    requires |asgn| == |tbl| && Dim(tbl, d) && Dim(ctrs, d) && k <= |ctrs|
    ensures ClusterCost(tbl, RecalculateCtrs(tbl, ctrs, asgn, d), asgn, d, k) ==
      ClusterCost(tbl, ctrs, asgn, d, k) - WeightedMovement(tbl, ctrs, asgn, d, k)
  {
    hide Spread, Dist2, Assigned, NewCtr, RecalculateCtrs;
    if k > 0 {
      ClustersImprove(tbl, ctrs, asgn, d, k - 1);
      ClusterImproves(tbl, ctrs, asgn, d, k - 1);
    }
  }

  /** Recalculating lowers the cost by the sum of cluster size times squared centre movement. */
  lemma RecalculatingImproves(tbl: seq<Vec>, ctrs: seq<Vec>, asgn: seq<nat>, d: nat)
    requires |asgn| == |tbl| && Dim(tbl, d) && Dim(ctrs, d) && InClusters(asgn, |ctrs|)
    ensures Cost(tbl, RecalculateCtrs(tbl, ctrs, asgn, d), asgn, d) ==
      Cost(tbl, ctrs, asgn, d) - WeightedMovement(tbl, ctrs, asgn, d, |ctrs|)
  {
    CostByCluster(tbl, ctrs, asgn, d);
    CostByCluster(tbl, RecalculateCtrs(tbl, ctrs, asgn, d), asgn, d);
    ClustersImprove(tbl, ctrs, asgn, d, |ctrs|);
  }

  // ---- Reassigning the points ----

  lemma RootOrder(root: real -> real, a: real, b: real)
    requires IsRoot(root) && a >= 0.0 && b >= 0.0 && root(a) <= root(b)
    ensures a <= b
  {
    assert root(a) * root(a) <= root(a) * root(b) <= root(b) * root(b);
  }

  /** The centre a point is assigned to is no farther than any other. */
  lemma AssignedIsNearest(root: real -> real, p: Vec, ctrs: seq<Vec>, i: nat)
    requires IsRoot(root) && ctrs != [] && Dim(ctrs, |p|) && i < |ctrs|
    ensures Dist2(p, ctrs[FirstMin(Distances(root, p, ctrs))], |p|) <= Dist2(p, ctrs[i], |p|)
  {
    hide IsRoot, Dist2, FirstMin;
    var distances := Distances(root, p, ctrs);
    var best := FirstMin(distances);
    assert distances[best] <= distances[i];
    RootOrder(root, Dist2(p, ctrs[best], |p|), Dist2(p, ctrs[i], |p|));
  }

  lemma CostSnoc(tbl: seq<Vec>, ctrs: seq<Vec>, asgn: seq<nat>, d: nat)
    requires tbl != [] && |asgn| == |tbl| && Dim(tbl, d) && Dim(ctrs, d) && InClusters(asgn, |ctrs|)
    ensures var n := |tbl| - 1;
            Cost(tbl, ctrs, asgn, d) == Cost(tbl[..n], ctrs, asgn[..n], d) + Dist2(tbl[n], ctrs[asgn[n]], d)
  {
  }

  lemma AssignFront(root: real -> real, tbl: seq<Vec>, ctrs: seq<Vec>, d: nat)
    requires tbl != [] && ctrs != [] && Dim(tbl, d) && Dim(ctrs, d)
    ensures var n := |tbl| - 1; AssignPoints(root, tbl, ctrs, d)[..n] == AssignPoints(root, tbl[..n], ctrs, d)
  {
    hide Distances, FirstMin;
  }

  /** Reassigning to the nearest centres does not raise the cost. */
  lemma {:induction false} ReassigningImproves(root: real -> real, tbl: seq<Vec>, ctrs: seq<Vec>, asgn: seq<nat>,
                                               d: nat)
    requires IsRoot(root) && ctrs != [] && |asgn| == |tbl| && Dim(tbl, d) && Dim(ctrs, d) && InClusters(asgn, |ctrs|)
    ensures Cost(tbl, ctrs, AssignPoints(root, tbl, ctrs, d), d) <= Cost(tbl, ctrs, asgn, d)
  {
    hide Cost, IsRoot, Dist2, AssignPoints, Distances, FirstMin;
    if tbl == [] {
      assert asgn == AssignPoints(root, tbl, ctrs, d);
    } else {
      var n := |tbl| - 1;
      ReassigningImproves(root, tbl[..n], ctrs, asgn[..n], d);
      AssignFront(root, tbl, ctrs, d);
      CostSnoc(tbl, ctrs, asgn, d);
      CostSnoc(tbl, ctrs, AssignPoints(root, tbl, ctrs, d), d);
      AssignedIsNearest(root, tbl[n], ctrs, asgn[n]);
    }
  }

  // ---- The total movement ----

  /** The sum of the distances that the first k centres move. */
  function Movement(root: real -> real, from: seq<Vec>, to: seq<Vec>, d: nat, k: nat): real
    requires Dim(from, d) && Dim(to, d) && |from| == |to| && k <= |from|
  {
    if k == 0 then 0.0 else Movement(root, from, to, d, k - 1) + root(Dist2(from[k - 1], to[k - 1], d))
  }

  function Movement2(from: seq<Vec>, to: seq<Vec>, d: nat, k: nat): real
    requires Dim(from, d) && Dim(to, d) && |from| == |to| && k <= |from|
  {
    if k == 0 then 0.0 else Movement2(from, to, d, k - 1) + Dist2(from[k - 1], to[k - 1], d)
  }

  lemma ScaleDown(k: real, a: real, b: real)
    requires k > 0.0 && k * a <= k * b
    ensures a <= b
  {
  }

  lemma SumSquare(s: real, x: real)
    ensures Sq(s + x) == s * s + 2.0 * (s * x) + x * x
    ensures Sq(s - x) == s * s - 2.0 * (s * x) + x * x
  {
  }

  lemma Scaled(k: real, s: real, x: real)
    ensures s * (k * x) == k * (s * x) && (k * x) * (k * x) == k * (k * (x * x))
  {
  }

  /** From the square of a difference being non-negative, divided by k. */
  lemma MixedTerm(k: real, ss: real, sx: real, xx: real, q: real)
    requires k > 0.0 && ss <= k * q && 2.0 * (k * sx) <= ss + k * (k * xx)
    ensures 2.0 * sx <= q + k * xx
  {
    Distribute(k, q, k * xx);
    assert k * (2.0 * sx) == 2.0 * (k * sx);
    ScaleDown(k, 2.0 * sx, q + k * xx);
  }

  lemma SpreadOut(k: real, q: real, xx: real)
    ensures (k + 1.0) * (q + xx) == k * q + q + k * xx + xx
  {
    Distribute(k, q, xx);
  }

  lemma CauchyStep(k: real, s: real, q: real, x: real)
    requires k >= 0.0 && s * s <= k * q && (k == 0.0 ==> s == 0.0 && q == 0.0)
    ensures Sq(s + x) <= (k + 1.0) * (q + x * x)
  {
    var ss, sx, xx, kq := s * s, s * x, x * x, k * q;
    SpreadOut(k, q, xx);
    SumSquare(s, x);
    if k > 0.0 {
      CauchyMixed(k, s, q, x);
    }
    assert Sq(s + x) == ss + 2.0 * sx + xx;
    assert (k + 1.0) * (q + xx) == kq + q + k * xx + xx;
  }

  lemma CauchyMixed(k: real, s: real, q: real, x: real)
    requires k > 0.0 && s * s <= k * q
    ensures 2.0 * (s * x) <= q + k * (x * x)
  {
    hide Sq;
    SumSquare(s, k * x);
    Scaled(k, s, x);
    MixedTerm(k, s * s, s * x, x * x, q);
  }

  lemma SqIs(x: real)
    ensures Sq(x) == x * x
  {
  }

  lemma NothingMoves(root: real -> real, from: seq<Vec>, to: seq<Vec>, d: nat)
    requires Dim(from, d) && Dim(to, d) && |from| == |to|
    ensures Movement(root, from, to, d, 0) == Movement2(from, to, d, 0) == Sq(0.0) == 0.0
  {
  }

  lemma {:induction false} MovementBound(root: real -> real, from: seq<Vec>, to: seq<Vec>, d: nat, k: nat)
    requires IsRoot(root) && Dim(from, d) && Dim(to, d) && |from| == |to| && k <= |from|
    ensures Sq(Movement(root, from, to, d, k)) <= k as real * Movement2(from, to, d, k)
    ensures k == 0 ==> Movement2(from, to, d, k) == 0.0
  {
    hide Dist2, Sq;
    NothingMoves(root, from, to, d);
    if k > 0 {
      MovementBound(root, from, to, d, k - 1);
      var s, q, x := Movement(root, from, to, d, k - 1), Movement2(from, to, d, k - 1),
        root(Dist2(from[k - 1], to[k - 1], d));
      SqIs(s);
      CauchyStep((k - 1) as real, s, q, x);
      assert x * x == Dist2(from[k - 1], to[k - 1], d);
    }
  }

  lemma AtLeastOnce(n: real, x: real)
    requires n >= 1.0 && x >= 0.0
    ensures n * x >= x
  {
  }

  lemma EmptyStays(tbl: seq<Vec>, ctrs: seq<Vec>, asgn: seq<nat>, d: nat, i: nat)
    requires |asgn| == |tbl| && Dim(tbl, d) && Dim(ctrs, d) && i < |ctrs| && Assigned(tbl, asgn, d, i) == []
    ensures NewCtr(tbl, ctrs, asgn, d, i) == ctrs[i]
  {
  }

  lemma {:induction false} WeightsAtLeastOne(tbl: seq<Vec>, ctrs: seq<Vec>, asgn: seq<nat>, d: nat, k: nat)
    requires |asgn| == |tbl| && Dim(tbl, d) && Dim(ctrs, d) && k <= |ctrs|
    ensures WeightedMovement(tbl, ctrs, asgn, d, k) >= Movement2(ctrs, RecalculateCtrs(tbl, ctrs, asgn, d), d, k)
  {
    hide Dist2, Assigned, RecalculateCtrs, NewCtr;
    if k > 0 {
      WeightsAtLeastOne(tbl, ctrs, asgn, d, k - 1);
      var n, moved := |Assigned(tbl, asgn, d, k - 1)| as real, Dist2(ctrs[k - 1], NewCtr(tbl, ctrs, asgn, d, k - 1), d);
      if Assigned(tbl, asgn, d, k - 1) == [] {
        EmptyStays(tbl, ctrs, asgn, d, k - 1);
        NoDistance(ctrs[k - 1], d);
      } else {
        AtLeastOnce(n, moved);
      }
    }
  }

  lemma {:induction false} NoDistance(x: Vec, n: nat)
    requires n <= |x|
    ensures Dist2(x, x, n) == 0.0
  {
    if n > 0 { NoDistance(x, n - 1); }
  }

  lemma ScaleUp(k: real, a: real, b: real)
    requires k >= 0.0 && a >= b
    ensures k * a >= k * b
  {
    var gain := a - b;
    assert k * gain >= 0.0;
    Distribute(k, b, gain);
  }

  lemma AtLeast25(x: real)
    requires x >= 5.0
    ensures Sq(x) >= 25.0
  {
    ScaleUp(x, x, 5.0);
  }

  lemma Between(a: real, b: real, c: real, d: real)
    requires a <= b && b <= c && c <= d
    ensures a <= d
  {
  }

  lemma EnoughDrop(k: real, drop: real, squares: real, moved: real)
    requires k >= 0.0 && drop >= squares && Sq(moved) <= k * squares
    ensures moved >= 5.0 ==> k * drop >= 25.0
  {
    hide Sq;
    ScaleUp(k, drop, squares);
    if moved >= 5.0 {
      AtLeast25(moved);
      Between(25.0, Sq(moved), k * squares, k * drop);
    }
  }

  lemma {:induction false} SquaresNonNegative(from: seq<Vec>, to: seq<Vec>, d: nat, k: nat)
    requires Dim(from, d) && Dim(to, d) && |from| == |to| && k <= |from|
    ensures Movement2(from, to, d, k) >= 0.0
  {
    if k > 0 { SquaresNonNegative(from, to, d, k - 1); }
  }

  /** By how much one iteration lowers the cost. */
  function Drop(root: real -> real, tbl: seq<Vec>, ctrs: seq<Vec>, d: nat): real
    requires ctrs != [] && Dim(tbl, d) && Dim(ctrs, d)
  {
    var asgn := AssignPoints(root, tbl, ctrs, d);
    var next := RecalculateCtrs(tbl, ctrs, asgn, d);
    Cost(tbl, ctrs, asgn, d) - Cost(tbl, next, AssignPoints(root, tbl, next, d), d)
  }

  lemma DropBound(root: real -> real, tbl: seq<Vec>, ctrs: seq<Vec>, d: nat)
    requires IsRoot(root) && ctrs != [] && Dim(tbl, d) && Dim(ctrs, d)
    ensures Drop(root, tbl, ctrs, d) >= Movement2(ctrs, RecalculateCtrs(tbl, ctrs, AssignPoints(root, tbl, ctrs, d), d),
      d, |ctrs|) >= 0.0
  {
    hide Cost, AssignPoints, RecalculateCtrs, Movement2, WeightedMovement, IsRoot;
    var asgn := AssignPoints(root, tbl, ctrs, d);
    var next := RecalculateCtrs(tbl, ctrs, asgn, d);
    RecalculatingImproves(tbl, ctrs, asgn, d);
    ReassigningImproves(root, tbl, next, asgn, d);
    WeightsAtLeastOne(tbl, ctrs, asgn, d, |ctrs|);
    SquaresNonNegative(ctrs, next, d, |ctrs|);
  }

  /** If the cost drops by the squared movement at least, a total movement of 5 is a drop of 25
      divided by the number of centres. */
  lemma MovementEnough(root: real -> real, from: seq<Vec>, to: seq<Vec>, d: nat, drop: real)
    requires IsRoot(root) && Dim(from, d) && Dim(to, d) && |from| == |to| && drop >= Movement2(from, to, d, |from|)
    ensures Movement(root, from, to, d, |from|) >= 5.0 ==> |from| as real * drop >= 25.0
  {
    hide *;
    MovementBound(root, from, to, d, |from|);
    EnoughDrop(|from| as real, drop, Movement2(from, to, d, |from|), Movement(root, from, to, d, |from|));
  }

  /** An iteration in which the centres move by 5 or more in total lowers the cost by at least
      25 divided by the number of centres. */
  lemma IterationImproves(root: real -> real, tbl: seq<Vec>, ctrs: seq<Vec>, d: nat)
    requires IsRoot(root) && ctrs != [] && Dim(tbl, d) && Dim(ctrs, d)
    ensures var next := RecalculateCtrs(tbl, ctrs, AssignPoints(root, tbl, ctrs, d), d);
            Drop(root, tbl, ctrs, d) >= 0.0 &&
            (Movement(root, ctrs, next, d, |ctrs|) >= 5.0 ==> |ctrs| as real * Drop(root, tbl, ctrs, d) >= 25.0)
  {
    hide *;
    DropBound(root, tbl, ctrs, d);
    MovementEnough(root, ctrs, RecalculateCtrs(tbl, ctrs, AssignPoints(root, tbl, ctrs, d), d), d,
      Drop(root, tbl, ctrs, d));
  }

  method TotalMovement(root: real -> real, from: seq<Vec>, to: seq<Vec>, d: nat) returns (stopDist: real)
    requires Dim(from, d) && Dim(to, d) && |from| == |to|
    ensures stopDist == Movement(root, from, to, d, |from|)
  {
    stopDist := 0.0;
    for i: nat := 0 to |from|
      invariant stopDist == Movement(root, from, to, d, i)
    {
      var dist := EuclideanDist(root, from[i], to[i]);
      stopDist := stopDist + dist;
    }
  }

  /** The centres came from the last recalculation, which moved them by less than 5 in total. */
  ghost predicate Settled(root: real -> real, tbl: seq<Vec>, from: seq<Vec>, ctrs: seq<Vec>, d: nat)
    requires Dim(tbl, d)
  {
    && from != [] && |from| == |ctrs| && Dim(from, d) && Dim(ctrs, d)
    && ctrs == RecalculateCtrs(tbl, from, AssignPoints(root, tbl, from, d), d)
    && Movement(root, from, ctrs, d, |from|) < 5.0
  }

  /** The main loop. It ends on every data set. */
  method Cluster(root: real -> real, tbl: seq<Vec>, start: seq<Vec>, d: nat) returns (ctrs: seq<Vec>, memb: seq<nat>)
    requires IsRoot(root) && start != [] && Dim(tbl, d) && Dim(start, d)
    ensures |ctrs| == |start| && Dim(ctrs, d) && memb == AssignPoints(root, tbl, ctrs, d)
    ensures exists from :: Settled(root, tbl, from, ctrs, d)
    ensures Cost(tbl, ctrs, memb, d) <= Cost(tbl, start, AssignPoints(root, tbl, start, d), d)
  {
    hide Cost, AssignPoints, RecalculateCtrs, Movement, IsRoot;
    ctrs := start;
    memb := AssignPoints(root, tbl, ctrs, d);
    var stopCrit := false;
    ghost var from := ctrs;
    while !stopCrit
      invariant |ctrs| == |start| && Dim(ctrs, d) && memb == AssignPoints(root, tbl, ctrs, d)
      invariant Cost(tbl, ctrs, memb, d) <= Cost(tbl, start, AssignPoints(root, tbl, start, d), d)
      invariant stopCrit ==> Settled(root, tbl, from, ctrs, d)
      decreases !stopCrit, |start| as real * Cost(tbl, ctrs, memb, d) / 25.0
    {
      var oldCtrs := ctrs;
      from := ctrs;
      IterationImproves(root, tbl, ctrs, d);
      ctrs := RecalculateCtrs(tbl, oldCtrs, memb, d);
      memb := AssignPoints(root, tbl, ctrs, d);
      var stopDist := TotalMovement(root, oldCtrs, ctrs, d);
      if stopDist < 5.0 {
        stopCrit := true;
      }
    }
  }
}
