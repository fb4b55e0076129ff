/**
 One cycle of K-means over exact numbers: the kernel assigns every point to one of three centroids
 and sums the clusters in parallel, the driver moves each centroid to the mean of its cluster.
 */
module KMeans {
  import opened Words
  import opened Reduction

  const CLUSTERS := 3

  datatype Point = Point(x: real, y: real)

  function Magnitude(r: real): real {
    if r < 0.0 then -r else r
  }

  function Distance(c: Point, p: Point): real {
    Magnitude(c.x - p.x) + Magnitude(c.y - p.y)
  }

  /** The kernel's comparisons: 0 only when strictly nearer than 1, 2 only when strictly nearer than both. */
  function Best(cs: seq<Point>, p: Point): nat
    requires |cs| == CLUSTERS
  {
    var nearer := if Distance(cs[0], p) < Distance(cs[1], p) then 0 else 1;
    if Distance(cs[2], p) < Distance(cs[nearer], p) then 2 else nearer
  }

  /** The sum of the coordinate differences, each with the sign that makes it largest. */
  lemma DistanceIsSum(c: Point, p: Point)
    ensures var d, x, y := Distance(c, p), c.x - p.x, c.y - p.y;
            && d >= x + y && d >= x - y && d >= y - x && d >= -x - y
            && (d == x + y || d == x - y || d == y - x || d == -x - y)
  {
  }

  /** Centroid `k` is nearest; of equally near ones 1 comes first, then 0, then 2. */
  predicate Wins(cs: seq<Point>, p: Point, k: nat)
    requires |cs| == CLUSTERS
  {
    var d0, d1, d2 := Distance(cs[0], p), Distance(cs[1], p), Distance(cs[2], p);
    if k == 0 then d0 < d1 && d0 <= d2
    else if k == 1 then d1 <= d0 && d1 <= d2
    else k == 2 && d2 < d0 && d2 < d1
  }

  /** Every point goes to a centroid of least distance, and to that one on ties. */
  lemma BestIsNearest(cs: seq<Point>, p: Point)
    requires |cs| == CLUSTERS
    ensures Best(cs, p) < CLUSTERS
    ensures forall k :: 0 <= k < CLUSTERS ==> Distance(cs[Best(cs, p)], p) <= Distance(cs[k], p)
    ensures forall k: nat :: Best(cs, p) == k <==> Wins(cs, p, k)
  {
    hide Distance;
  }

  // ----- Clusters -----

  /** The buffer row of cluster k: a quantity of each point in the cluster, zero elsewhere. */
  function Share(best: seq<nat>, values: seq<real>, k: nat): (row: seq<real>)
    requires |best| == |values|
    ensures |row| == |values|
  {
    seq(|values|, i requires 0 <= i < |values| => if best[i] == k then values[i] else 0.0)
  }

  function ClusterSum(best: seq<nat>, values: seq<real>, k: nat): real
    requires |best| == |values|
  {
    Sum(Share(best, values, k), 0, |values|)
  }

  lemma {:induction false} SumPrefix(a: seq<real>, b: seq<real>, n: nat)
    requires n <= |a| && n <= |b| && a[..n] == b[..n]
    ensures Sum(a, 0, n) == Sum(b, 0, n)
  {
    if n > 0 {
      assert a[..n][..n - 1] == a[..n - 1] && b[..n][..n - 1] == b[..n - 1];
      assert a[n - 1] == a[..n][n - 1] && b[n - 1] == b[..n][n - 1];
      SumPrefix(a, b, n - 1);
    }
  }

  /** The clusters share out the values: their sums add up to the sum over all points. */
  lemma {:induction false} SumsConserved(best: seq<nat>, values: seq<real>, n: nat)
    requires |best| == |values| && n <= |values| && forall i :: 0 <= i < |best| ==> best[i] < CLUSTERS
    ensures Sum(Share(best, values, 0), 0, n) + Sum(Share(best, values, 1), 0, n)
          + Sum(Share(best, values, 2), 0, n) == Sum(values, 0, n)
  {
    if n > 0 {
      SumsConserved(best, values, n - 1);
    }
  }

  lemma {:induction false} OnesSum(n: nat, m: nat)
    requires m <= n
    ensures Sum(Ones(n), 0, m) == m as real
    decreases m
  {
    if m > 0 {
      OnesSum(n, m - 1);
    }
  }

  /** The cluster counts add up to the number of points. */
  lemma CountsConserved(best: seq<nat>)
    requires forall i :: 0 <= i < |best| ==> best[i] < CLUSTERS
    ensures var ones := Ones(|best|);
            ClusterSum(best, ones, 0) + ClusterSum(best, ones, 1) + ClusterSum(best, ones, 2) == |best| as real
  {
    SumsConserved(best, Ones(|best|), |best|);
    OnesSum(|best|, |best|);
  }

  /** A cluster's sum lies between its count times the bounds of its values. */
  lemma {:induction false} SumBounds(best: seq<nat>, values: seq<real>, k: nat, lo: real, hi: real, n: nat)
    requires |best| == |values| && n <= |values|
    requires forall i :: 0 <= i < |values| ==> lo <= values[i] <= hi
    ensures var count := Sum(Share(best, Ones(|best|), k), 0, n);
            var sum := Sum(Share(best, values, k), 0, n);
            count >= 0.0 && lo * count <= sum <= hi * count
  {
    if n > 0 {
      SumBounds(best, values, k, lo, hi, n - 1);
      var count := Sum(Share(best, Ones(|best|), k), 0, n - 1);
      assert lo * (count + 1.0) == lo * count + lo && hi * (count + 1.0) == hi * count + hi;
    }
  }

  // ----- Cycles -----

  function Assign(cs: seq<Point>, ps: seq<Point>): (best: seq<nat>)
    requires |cs| == CLUSTERS
    ensures |best| == |ps|
  {
    seq(|ps|, i requires 0 <= i < |ps| => Best(cs, ps[i]))
  }

  function Xs(ps: seq<Point>): (xs: seq<real>)
    ensures |xs| == |ps|
  {
    seq(|ps|, i requires 0 <= i < |ps| => ps[i].x)
  }

  function Ys(ps: seq<Point>): (ys: seq<real>)
    ensures |ys| == |ps|
  {
    seq(|ps|, i requires 0 <= i < |ps| => ps[i].y)
  }

  /** The driver's update: the mean of the cluster, or the old centroid if the cluster is empty. */
  function Moved(c: Point, total: real, sumX: real, sumY: real): Point {
    if total > 0.0 then Point(sumX / total, sumY / total) else c
  }

  function Cycle(cs: seq<Point>, ps: seq<Point>): (next: seq<Point>)
    requires |cs| == CLUSTERS
    ensures |next| == CLUSTERS
  {
    var best := Assign(cs, ps);
    seq(CLUSTERS, k requires 0 <= k < CLUSTERS =>
      Moved(cs[k], ClusterSum(best, Ones(|ps|), k), ClusterSum(best, Xs(ps), k), ClusterSum(best, Ys(ps), k)))
  }

  function Cycles(cs: seq<Point>, ps: seq<Point>, m: nat): (next: seq<Point>)
    requires |cs| == CLUSTERS
    ensures |next| == CLUSTERS
  {
    if m == 0 then cs else Cycle(Cycles(cs, ps, m - 1), ps)
  }

  /** A centroid times the size of its cluster is the cluster's sum; without points it stays. */
  predicate IsMean(was: Point, now: Point, count: real, sumX: real, sumY: real) {
    if count > 0.0 then now.x * count == sumX && now.y * count == sumY else now == was
  }

  lemma MovedExact(was: Point, now: Point, count: real, sumX: real, sumY: real)
    ensures IsMean(was, now, count, sumX, sumY) <==> now == Moved(was, count, sumX, sumY)
  {
    if count > 0.0 {
      QuotientExact(now.x, sumX, count);
      QuotientExact(now.y, sumY, count);
    }
  }

  lemma QuotientExact(q: real, sum: real, count: real)
    requires count > 0.0
    ensures q * count == sum <==> q == sum / count
  {
    var d := sum / count;
    assert d * count == sum;
    Smaller(q, d, count);
    Smaller(d, q, count);
  }

  /** How many of the first `n` points are nearest to centroid `k`, and their coordinates added up. */
  datatype Tally = Tally(count: nat, x: real, y: real)

  function TallyOf(cs: seq<Point>, ps: seq<Point>, k: nat, n: nat): Tally
    requires |cs| == CLUSTERS && n <= |ps|
  {
    if n == 0 then Tally(0, 0.0, 0.0) else
    var t, p := TallyOf(cs, ps, k, n - 1), ps[n - 1];
    if Wins(cs, p, k) then Tally(t.count + 1, t.x + p.x, t.y + p.y) else t
  }

  lemma {:induction false} TallySums(cs: seq<Point>, ps: seq<Point>, k: nat, n: nat)
    requires |cs| == CLUSTERS && n <= |ps|
    ensures var best, t := Assign(cs, ps), TallyOf(cs, ps, k, n);
            && Sum(Share(best, Ones(|ps|), k), 0, n) == t.count as real
            && Sum(Share(best, Xs(ps), k), 0, n) == t.x && Sum(Share(best, Ys(ps), k), 0, n) == t.y
  {
    hide Best, Wins;
    if n > 0 {
      TallySums(cs, ps, k, n - 1);
      BestIsNearest(cs, ps[n - 1]);
    }
  }

  /**
   One cycle, from the points alone: each centroid moves to the mean of the points that are nearest to it.
   And the centroids after m cycles are those before, moved m times.
   */
  lemma CyclesMean(cs: seq<Point>, ps: seq<Point>, k: nat, m: nat)
    requires |cs| == CLUSTERS && k < CLUSTERS
    ensures Cycles(cs, ps, 0) == cs
    ensures var was := Cycles(cs, ps, m);
            var t := TallyOf(was, ps, k, |ps|);
            IsMean(was[k], Cycles(cs, ps, m + 1)[k], t.count as real, t.x, t.y)
  {
    hide IsMean, Moved, TallyOf, Assign;
    var was := Cycles(cs, ps, m);
    var t := TallyOf(was, ps, k, |ps|);
    TallySums(was, ps, k, |ps|);
    MovedExact(was[k], Cycle(was, ps)[k], t.count as real, t.x, t.y);
  }

  predicate InBox(p: Point, low: Point, high: Point) {
    low.x <= p.x <= high.x && low.y <= p.y <= high.y
  }

  lemma Quotient(lo: real, hi: real, sum: real, count: real)
    requires count > 0.0 && lo * count <= sum <= hi * count
    ensures lo <= sum / count <= hi
  {
    var q := sum / count;
    assert q * count == sum;
    Smaller(q, lo, count);
    Smaller(hi, q, count);
  }

  lemma Smaller(a: real, b: real, c: real)
    requires c > 0.0
    ensures a < b ==> a * c < b * c
  {
  }

  lemma MeanBounds(best: seq<nat>, values: seq<real>, k: nat, lo: real, hi: real)
    requires |best| == |values| && forall i :: 0 <= i < |values| ==> lo <= values[i] <= hi
    ensures var count := ClusterSum(best, Ones(|best|), k);
            count > 0.0 ==> lo <= ClusterSum(best, values, k) / count <= hi
  {
    SumBounds(best, values, k, lo, hi, |values|);
    var count := ClusterSum(best, Ones(|best|), k);
    if count > 0.0 {
      Quotient(lo, hi, ClusterSum(best, values, k), count);
    }
  }

  /** In one cycle a centroid stays where it was or moves into the box of the points. */
  lemma CycleInBox(cs: seq<Point>, ps: seq<Point>, low: Point, high: Point, k: nat)
    requires |cs| == CLUSTERS && k < CLUSTERS && forall i :: 0 <= i < |ps| ==> InBox(ps[i], low, high)
    ensures Cycle(cs, ps)[k] == cs[k] || InBox(Cycle(cs, ps)[k], low, high)
  {
    hide Assign, ClusterSum, Ones;
    var best := Assign(cs, ps);
    forall i | 0 <= i < |ps| ensures low.x <= Xs(ps)[i] <= high.x && low.y <= Ys(ps)[i] <= high.y {
      assert InBox(ps[i], low, high);
    }
    MeanBounds(best, Xs(ps), k, low.x, high.x);
    MeanBounds(best, Ys(ps), k, low.y, high.y);
  }

  /** So after any number of cycles it is where it began or in the box of the points. */
  lemma {:induction false} CyclesInBox(cs: seq<Point>, ps: seq<Point>, low: Point, high: Point, k: nat, m: nat)
    requires |cs| == CLUSTERS && k < CLUSTERS && forall i :: 0 <= i < |ps| ==> InBox(ps[i], low, high)
    ensures Cycles(cs, ps, m)[k] == cs[k] || InBox(Cycles(cs, ps, m)[k], low, high)
  {
    if m > 0 {
      CyclesInBox(cs, ps, low, high, k, m - 1);
      CycleInBox(Cycles(cs, ps, m - 1), ps, low, high, k);
    }
  }

  // ----- The kernel -----

  ghost function Points(x: array<real>, y: array<real>): (ps: seq<Point>)
    requires x.Length == y.Length
    reads x, y
    ensures |ps| == x.Length
  {
    seq(x.Length, i requires 0 <= i < x.Length reads x, y => Point(x[i], y[i]))
  }

  /** Column `i` of a buffer below row `k` is `value` in row `best` and zero in the others. */
  twostate predicate ColumnSet(a: array2<real>, i: nat, k: nat, best: nat, value: real)
    requires k <= a.Length0
    reads a
  {
    forall m, j :: 0 <= m < a.Length0 && 0 <= j < a.Length1 ==>
      a[m, j] == if j != i || m >= k then old(a[m, j]) else if m == best then value else 0.0
  }

  /** Thread i's column: the point in the row of its cluster, zeros in the others. */
  method FillColumn(sumX: array2<real>, sumY: array2<real>, total: array2<real>, i: nat, best: nat, p: Point)
    requires sumX.Length0 == sumY.Length0 == total.Length0 == CLUSTERS
    requires i < sumX.Length1 == sumY.Length1 == total.Length1
    requires sumX != sumY && sumY != total && sumX != total
    modifies sumX, sumY, total
    ensures ColumnSet(sumX, i, CLUSTERS, best, p.x)
    ensures ColumnSet(sumY, i, CLUSTERS, best, p.y)
    ensures ColumnSet(total, i, CLUSTERS, best, 1.0)
  {
    for k := 0 to CLUSTERS
      invariant ColumnSet(sumX, i, k, best, p.x)
      invariant ColumnSet(sumY, i, k, best, p.y)
      invariant ColumnSet(total, i, k, best, 1.0)
    {
      if k == best {
        sumX[k, i], sumY[k, i], total[k, i] := p.x, p.y, 1.0;
      } else {
        sumX[k, i], sumY[k, i], total[k, i] := 0.0, 0.0, 0.0;
      }
    }
  }

  /** Thread i's part up to the first barrier: its centroid, and its column of the buffers. */
  method AssignPoint(centroidX: array<real>, centroidY: array<real>, pointX: array<real>, pointY: array<real>,
                     sumX: array2<real>, sumY: array2<real>, total: array2<real>, i: nat)
    returns (best: nat)
    requires centroidX.Length == centroidY.Length == CLUSTERS && pointX.Length == pointY.Length && i < pointX.Length
    requires sumX.Length0 == sumY.Length0 == total.Length0 == CLUSTERS
    requires sumX.Length1 == sumY.Length1 == total.Length1 == pointX.Length
    requires sumX != sumY && sumY != total && sumX != total
    modifies sumX, sumY, total
    ensures best == Best(Points(centroidX, centroidY), Point(pointX[i], pointY[i]))
    ensures ColumnSet(sumX, i, CLUSTERS, best, pointX[i])
    ensures ColumnSet(sumY, i, CLUSTERS, best, pointY[i])
    ensures ColumnSet(total, i, CLUSTERS, best, 1.0)
  {
    var distance0 := Magnitude(centroidX[0] - pointX[i]) + Magnitude(centroidY[0] - pointY[i]);
    var distance1 := Magnitude(centroidX[1] - pointX[i]) + Magnitude(centroidY[1] - pointY[i]);
    var distance2 := Magnitude(centroidX[2] - pointX[i]) + Magnitude(centroidY[2] - pointY[i]);
    ghost var cs, p := Points(centroidX, centroidY), Point(pointX[i], pointY[i]);
    assert distance0 == Distance(cs[0], p) && distance1 == Distance(cs[1], p) && distance2 == Distance(cs[2], p);
    hide Distance, Magnitude, Points, ColumnSet;
    var shortest := distance1;
    best := 1;
    if distance0 < distance1 {
      shortest := distance0;
      best := 0;
    }
    if distance2 < shortest {
      best := 2;
    }
    FillColumn(sumX, sumY, total, i, best, Point(pointX[i], pointY[i]));
  }

  /** The kernel: afterwards column 0 of the buffers holds each cluster's sums and count. */
  method Kernel(centroidX: array<real>, centroidY: array<real>, pointX: array<real>, pointY: array<real>,
                sumX: array2<real>, sumY: array2<real>, total: array2<real>, rounds: nat)
    requires centroidX.Length == centroidY.Length == CLUSTERS && pointX.Length == pointY.Length
    requires sumX.Length0 == sumY.Length0 == total.Length0 == CLUSTERS
    requires sumX.Length1 == sumY.Length1 == total.Length1 == pointX.Length
    requires sumX != sumY && sumY != total && sumX != total && 0 < pointX.Length <= Pow2(rounds)
    modifies sumX, sumY, total
    ensures var ps := Points(pointX, pointY);
            var best := Assign(Points(centroidX, centroidY), ps);
            forall k :: 0 <= k < CLUSTERS ==>
              && total[k, 0] == ClusterSum(best, Ones(|ps|), k)
              && sumX[k, 0] == ClusterSum(best, Xs(ps), k) && sumY[k, 0] == ClusterSum(best, Ys(ps), k)
    ensures var ps := Points(pointX, pointY);
            forall k :: 0 <= k < CLUSTERS ==>
              var t := TallyOf(Points(centroidX, centroidY), ps, k, |ps|);
              total[k, 0] == t.count as real && sumX[k, 0] == t.x && sumY[k, 0] == t.y
  {
    hide TallyOf;
    ghost var cs, ps := Points(centroidX, centroidY), Points(pointX, pointY);
    ghost var best := Assign(cs, ps);
    for i := 0 to pointX.Length
      invariant forall k, j :: 0 <= k < CLUSTERS && 0 <= j < i ==>
        sumX[k, j] == (if best[j] == k then pointX[j] else 0.0)
        && sumY[k, j] == (if best[j] == k then pointY[j] else 0.0)
        && total[k, j] == if best[j] == k then 1.0 else 0.0
    {
      var nearest := AssignPoint(centroidX, centroidY, pointX, pointY, sumX, sumY, total, i);
      assert ps[i] == Point(pointX[i], pointY[i]) && best[i] == nearest;
    }
    forall k | 0 <= k < CLUSTERS
      ensures Row(sumX, k) == Share(best, Xs(ps), k) && Row(sumY, k) == Share(best, Ys(ps), k)
      ensures Row(total, k) == Share(best, Ones(|ps|), k)
    {
    }
    Reduce(sumX, sumY, total, rounds);
    forall k | 0 <= k < CLUSTERS
      ensures var tally := TallyOf(cs, ps, k, |ps|);
              ClusterSum(best, Ones(|ps|), k) == tally.count as real
              && ClusterSum(best, Xs(ps), k) == tally.x && ClusterSum(best, Ys(ps), k) == tally.y
    {
      TallySums(cs, ps, k, |ps|);
    }
  }

  // ----- The driver -----

  /** The update of the centroids from column 0 of the buffers. */
  method UpdateCentroids(centroidX: array<real>, centroidY: array<real>,
                         sumX: array2<real>, sumY: array2<real>, total: array2<real>)
    requires centroidX.Length == centroidY.Length == CLUSTERS && centroidX != centroidY
    requires sumX.Length0 == sumY.Length0 == total.Length0 == CLUSTERS
    requires sumX.Length1 > 0 && sumY.Length1 > 0 && total.Length1 > 0
    modifies centroidX, centroidY
    ensures forall k :: 0 <= k < CLUSTERS ==>
      Point(centroidX[k], centroidY[k])
      == Moved(old(Point(centroidX[k], centroidY[k])), total[k, 0], sumX[k, 0], sumY[k, 0])
    ensures forall k :: 0 <= k < CLUSTERS ==>
      IsMean(old(Point(centroidX[k], centroidY[k])), Point(centroidX[k], centroidY[k]),
             total[k, 0], sumX[k, 0], sumY[k, 0])
  {
    for k := 0 to CLUSTERS
      invariant forall m :: 0 <= m < k ==>
        Point(centroidX[m], centroidY[m])
        == Moved(old(Point(centroidX[m], centroidY[m])), total[m, 0], sumX[m, 0], sumY[m, 0])
      invariant forall m :: k <= m < CLUSTERS ==>
        centroidX[m] == old(centroidX[m]) && centroidY[m] == old(centroidY[m])
    {
      if total[k, 0] > 0.0 {
        centroidX[k] := sumX[k, 0] / total[k, 0];
        centroidY[k] := sumY[k, 0] / total[k, 0];
      }
    }
    forall k | 0 <= k < CLUSTERS
      ensures IsMean(old(Point(centroidX[k], centroidY[k])), Point(centroidX[k], centroidY[k]),
                     total[k, 0], sumX[k, 0], sumY[k, 0])
    {
      MovedExact(old(Point(centroidX[k], centroidY[k])), Point(centroidX[k], centroidY[k]),
                 total[k, 0], sumX[k, 0], sumY[k, 0]);
    }
  }

  /** The driver's loop: kernel and update, over and over. */
  method Run(centroidX: array<real>, centroidY: array<real>, pointX: array<real>, pointY: array<real>,
             sumX: array2<real>, sumY: array2<real>, total: array2<real>, rounds: nat, cycles: nat)
    requires centroidX.Length == centroidY.Length == CLUSTERS && pointX.Length == pointY.Length
    requires centroidX != centroidY && {centroidX, centroidY} !! {pointX, pointY}
    requires sumX.Length0 == sumY.Length0 == total.Length0 == CLUSTERS
    requires sumX.Length1 == sumY.Length1 == total.Length1 == pointX.Length
    requires sumX != sumY && sumY != total && sumX != total && 0 < pointX.Length <= Pow2(rounds)
    modifies centroidX, centroidY, sumX, sumY, total
    ensures Points(centroidX, centroidY) == Cycles(old(Points(centroidX, centroidY)), Points(pointX, pointY), cycles)
    ensures cycles == 0 ==> Points(centroidX, centroidY) == old(Points(centroidX, centroidY))
    ensures cycles > 0 ==> forall k :: 0 <= k < CLUSTERS ==>
      var ps := Points(pointX, pointY);
      var was := Cycles(old(Points(centroidX, centroidY)), ps, cycles - 1);
      var t := TallyOf(was, ps, k, |ps|);
      IsMean(was[k], Points(centroidX, centroidY)[k], t.count as real, t.x, t.y)
  {
    hide ClusterSum, Assign, Ones, Xs, Ys, Moved, IsMean, TallyOf;
    ghost var ps := Points(pointX, pointY);
    for cycle := 0 to cycles
      invariant Points(pointX, pointY) == ps
      invariant Points(centroidX, centroidY) == Cycles(old(Points(centroidX, centroidY)), ps, cycle)
    {
      ghost var cs := Points(centroidX, centroidY);
      Kernel(centroidX, centroidY, pointX, pointY, sumX, sumY, total, rounds);
      assert Points(centroidX, centroidY) == cs;
      UpdateCentroids(centroidX, centroidY, sumX, sumY, total);
      assert Points(centroidX, centroidY) == Cycle(cs, ps);
    }
    forall k | 0 <= k < CLUSTERS && cycles > 0
      ensures var was := Cycles(old(Points(centroidX, centroidY)), ps, cycles - 1);
              var t := TallyOf(was, ps, k, |ps|);
              IsMean(was[k], Points(centroidX, centroidY)[k], t.count as real, t.x, t.y)
    {
      CyclesMean(old(Points(centroidX, centroidY)), ps, k, cycles - 1);
    }
  }
}
