/**
 * kmeans.py: k-means over points given as lists of reals, with a Cluster
 * per centroid accumulating the points assigned to it and a ClusterManager
 * holding the clusters.
 *
 * A Point is a value here. In the source a Point object wraps a list, and
 * the only list ever appended to is the fresh one built inside `+` and `/`;
 * `total_points += point` rebinds the field to a new Point, so no point
 * seen by two holders is ever changed.
 *
 * `math.sqrt` is the parameter `sqrt`, left uninterpreted. The square of a
 * coordinate difference is the parameter `square`: kmeans.py multiplies
 * the difference by itself (SelfProduct), kmeans_hw1.py calls pow(x, 2).
 * The file reading of the driver is left out: the points are passed in.
 */
module Kmeans {
  type Point = seq<real>

  /** The convergence threshold on the distance a centroid moves. */
  const Epsilon: real := 0.0001

  /** The messages kmeans prints before exiting with status 1. */
  const InvalidIterations: string := "Invalid maximum iteration!"
  const InvalidClusters: string := "Invalid number of clusters!"

  // ---------------------------------------------------------------- points

  /** The zero vector of dimension d. */
  function Zeros(d: nat): (z: Point)
    ensures |z| == d
  {
    seq(d, i => 0.0)
  }

  /** The coordinate-wise sum p + q; like `__add__` it has the length of p
      and reads the first |p| coordinates of q. */
  function Sum(p: Point, q: Point): (r: Point)
    requires |p| <= |q|
    ensures |r| == |p|
  {
    seq(|p|, i requires 0 <= i < |p| => p[i] + q[i])
  }

  /** The coordinate-wise quotient p / num by a non-zero integer. */
  function Quotient(p: Point, num: int): (r: Point)
    requires num != 0
    ensures |r| == |p|
  {
    seq(|p|, i requires 0 <= i < |p| => p[i] / num as real)
  }

  /** Adding is commutative on points of one dimension. */
  lemma SumCommutes(p: Point, q: Point)
    requires |p| == |q|
    ensures Sum(p, q) == Sum(q, p)
  {
  }

  /** Adding a point to the zero vector of dimension d gives its first d
      coordinates. */
  lemma SumOfZeros(p: Point, d: nat)
    requires d <= |p|
    ensures Sum(Zeros(d), p) == p[..d]
  {
  }

  /** Dividing by 1 gives the point back. */
  lemma QuotientByOne(p: Point)
    ensures Quotient(p, 1) == p
  {
  }

  /** `__add__`: a new point built by pushing p[i] + q[i] for each coordinate
      of p; neither operand changes. */
  method Add(p: Point, q: Point) returns (r: Point)
    requires |p| <= |q|
    ensures r == Sum(p, q)
  {
    r := [];
    for i := 0 to |p|
      invariant r == Sum(p[..i], q)
    {
      r := r + [p[i] + q[i]];
    }
    assert p[..|p|] == p;
  }

  /** `__truediv__`: a new point built by pushing p[i] / num for each
      coordinate; p does not change. */
  method Divide(p: Point, num: int) returns (r: Point)
    requires num != 0
    ensures r == Quotient(p, num)
  {
    r := [];
    for i := 0 to |p|
      invariant r == Quotient(p[..i], num)
    {
      r := r + [p[i] / num as real];
    }
    assert p[..|p|] == p;
  }

  /** The sum of square(p[i] - q[i]) over the first t coordinates. */
  function SquaredDistance(p: Point, q: Point, square: real -> real, t: nat): real
    requires t <= |p| <= |q|
  {
    if t == 0 then 0.0 else SquaredDistance(p, q, square, t - 1) + square(p[t - 1] - q[t - 1])
  }

  /** The Euclidean distance from p to q over the coordinates of p. */
  function Distance(p: Point, q: Point, sqrt: real -> real, square: real -> real): real
    requires |p| <= |q|
  {
    sqrt(SquaredDistance(p, q, square, |p|))
  }

  /** With an even square, the distance between points of one dimension
      does not depend on their order. */
  lemma {:induction false} SquaredDistanceSymmetric(p: Point, q: Point, square: real -> real, t: nat)
    requires t <= |p| == |q|
    requires forall x :: square(-x) == square(x)
    ensures SquaredDistance(p, q, square, t) == SquaredDistance(q, p, square, t)
  {
    if t > 0 {
      SquaredDistanceSymmetric(p, q, square, t - 1);
      assert q[t - 1] - p[t - 1] == -(p[t - 1] - q[t - 1]);
    }
  }

  /** The distance is symmetric when the square is even. */
  lemma DistanceSymmetric(p: Point, q: Point, sqrt: real -> real, square: real -> real)
    requires |p| == |q|
    requires forall x :: square(-x) == square(x)
    ensures Distance(p, q, sqrt, square) == Distance(q, p, sqrt, square)
  {
    SquaredDistanceSymmetric(p, q, square, |p|);
  }

  /** Every coordinate of a point differs by 0 from itself. */
  lemma {:induction false} SquaredDistanceToSelf(p: Point, square: real -> real, t: nat)
    requires t <= |p| && square(0.0) == 0.0
    ensures SquaredDistance(p, p, square, t) == 0.0
  {
    if t > 0 {
      SquaredDistanceToSelf(p, square, t - 1);
    }
  }

  /** A point is at distance 0 from itself when the square and the root of
      0 are 0. */
  lemma DistanceToSelf(p: Point, sqrt: real -> real, square: real -> real)
    requires square(0.0) == 0.0 && sqrt(0.0) == 0.0
    ensures Distance(p, p, sqrt, square) == 0.0
  {
    SquaredDistanceToSelf(p, square, |p|);
  }

  /** euclidean_distance: accumulates the squared differences coordinate by
      coordinate over the coordinates of p, then takes the root. */
  method EuclideanDistance(p: Point, q: Point, sqrt: real -> real, square: real -> real)
    returns (distance: real)
    requires |p| <= |q|
    ensures distance == Distance(p, q, sqrt, square)
  {
    var total := 0.0;
    for i := 0 to |p|
      invariant total == SquaredDistance(p, q, square, i)
    {
      total := total + square(p[i] - q[i]);
    }
    distance := sqrt(total);
  }

  /** The square kmeans.py uses: the difference multiplied by itself. */
  function SelfProduct(x: real): real
  {
    x * x
  }

  /** SelfProduct is even and maps 0 to 0, so its distance is symmetric and
      0 from a point to itself. */
  lemma SelfProductLaws()
    ensures forall x :: SelfProduct(-x) == SelfProduct(x)
    ensures SelfProduct(0.0) == 0.0
  {
    forall x
      ensures SelfProduct(-x) == SelfProduct(x)
    {
      assert (-x) * (-x) == x * x;
    }
  }

  // ------------------------------------------------------ sums and means

  /** Every point of ps has exactly d coordinates. */
  predicate Uniform(ps: seq<Point>, d: nat)
  {
    forall i :: 0 <= i < |ps| ==> |ps[i]| == d
  }

  /** The running total of a cluster after the points ps were added in turn
      to the zero vector of dimension d. */
  function Total(ps: seq<Point>, d: nat): (t: Point)
    requires forall i :: 0 <= i < |ps| ==> d <= |ps[i]|
    ensures |t| == d
  {
    if |ps| == 0 then Zeros(d) else Sum(Total(ps[..|ps| - 1], d), ps[|ps| - 1])
  }

  /** Adding one more point adds it to the total. */
  lemma TotalAppend(ps: seq<Point>, p: Point, d: nat)
    requires forall i :: 0 <= i < |ps| ==> d <= |ps[i]|
    requires d <= |p|
    ensures Total(ps + [p], d) == Sum(Total(ps, d), p)
  {
    assert (ps + [p])[..|ps|] == ps;
  }

  /** The mean of a non-empty sequence of points. */
  function Mean(ps: seq<Point>, d: nat): (m: Point)
    requires |ps| > 0 && forall i :: 0 <= i < |ps| ==> d <= |ps[i]|
    ensures |m| == d
  {
    Quotient(Total(ps, d), |ps|)
  }

  /** The mean of a single point is that point. */
  lemma MeanOfOne(p: Point)
    ensures Mean([p], |p|) == p
  {
    assert [p][..0] == [];
    SumOfZeros(p, |p|);
    assert p[..|p|] == p;
    assert Total([p], |p|) == p;
    QuotientByOne(p);
  }

  // -------------------------------------------------- the closest cluster

  /** Index r is the closest of the first n centroids cs to p: no centroid is
      nearer, and every earlier one is strictly farther. */
  predicate ClosestAmong(p: Point, cs: seq<Point>, r: int, n: nat, sqrt: real -> real, square: real -> real)
    requires n <= |cs| && forall c :: 0 <= c < |cs| ==> |p| <= |cs[c]|
  {
    0 <= r < n &&
    (forall c :: 0 <= c < n ==> Distance(p, cs[r], sqrt, square) <= Distance(p, cs[c], sqrt, square)) &&
    (forall c :: 0 <= c < r ==> Distance(p, cs[c], sqrt, square) > Distance(p, cs[r], sqrt, square))
  }

  /** Index r is the closest of all the centroids cs to p, the lowest one on ties. */
  predicate IsClosest(p: Point, cs: seq<Point>, r: int, sqrt: real -> real, square: real -> real)
    requires forall c :: 0 <= c < |cs| ==> |p| <= |cs[c]|
  {
    ClosestAmong(p, cs, r, |cs|, sqrt, square)
  }

  /** At most one index is the closest. */
  lemma ClosestUnique(p: Point, cs: seq<Point>, r: int, s: int, sqrt: real -> real, square: real -> real)
    requires forall c :: 0 <= c < |cs| ==> |p| <= |cs[c]|
    requires IsClosest(p, cs, r, sqrt, square) && IsClosest(p, cs, s, sqrt, square)
    ensures r == s
  {
    assert Distance(p, cs[r], sqrt, square) == Distance(p, cs[s], sqrt, square);
  }

  /** One step of the scan: centroid n replaces best exactly when it is
      strictly nearer. */
  lemma ClosestAmongStep(p: Point, cs: seq<Point>, best: int, n: nat, sqrt: real -> real, square: real -> real)
    requires forall c :: 0 <= c < |cs| ==> |p| <= |cs[c]|
    requires n < |cs| && ClosestAmong(p, cs, best, n, sqrt, square)
    ensures Distance(p, cs[n], sqrt, square) < Distance(p, cs[best], sqrt, square) ==>
      ClosestAmong(p, cs, n, n + 1, sqrt, square)
    ensures Distance(p, cs[n], sqrt, square) >= Distance(p, cs[best], sqrt, square) ==>
      ClosestAmong(p, cs, best, n + 1, sqrt, square)
  {
  }

  /** The scan of closest_cluster from index i, with best the closest of the
      centroids before i. */
  function ClosestFrom(p: Point, cs: seq<Point>, sqrt: real -> real, square: real -> real, i: nat, best: nat): (r: nat)
    requires forall c :: 0 <= c < |cs| ==> |p| <= |cs[c]|
    requires i <= |cs| && ClosestAmong(p, cs, best, i, sqrt, square)
    decreases |cs| - i
    ensures IsClosest(p, cs, r, sqrt, square)
  {
    if i == |cs| then best
    else
      ClosestAmongStep(p, cs, best, i, sqrt, square);
      if Distance(p, cs[i], sqrt, square) < Distance(p, cs[best], sqrt, square) then
      ClosestFrom(p, cs, sqrt, square, i + 1, i)
    else
      ClosestFrom(p, cs, sqrt, square, i + 1, best)
  }

  /** The index of the centroid closest to p. */
  function Closest(p: Point, cs: seq<Point>, sqrt: real -> real, square: real -> real): (r: nat)
    requires |cs| > 0 && forall c :: 0 <= c < |cs| ==> |p| <= |cs[c]|
    ensures IsClosest(p, cs, r, sqrt, square)
  {
    ClosestFrom(p, cs, sqrt, square, 1, 0)
  }

  // ------------------------------------------------------------ one round

  /** The points of ps, in order, whose closest centroid is centroid c. */
  function Assigned(ps: seq<Point>, cs: seq<Point>, d: nat, c: nat, sqrt: real -> real, square: real -> real): (a: seq<Point>)
    requires Uniform(ps, d) && Uniform(cs, d) && |cs| > 0
    ensures Uniform(a, d) && |a| <= |ps|
  {
    if |ps| == 0 then []
    else
      var last := ps[|ps| - 1];
      Assigned(ps[..|ps| - 1], cs, d, c, sqrt, square) + if Closest(last, cs, sqrt, square) == c then [last] else []
  }

  /** Every point assigned to centroid c has c as its closest centroid. */
  lemma {:induction false} AssignedAreClosest(ps: seq<Point>, cs: seq<Point>, d: nat, c: nat, sqrt: real -> real, square: real -> real)
    requires Uniform(ps, d) && Uniform(cs, d) && |cs| > 0
    ensures forall x :: x in Assigned(ps, cs, d, c, sqrt, square) ==> x in ps && Closest(x, cs, sqrt, square) == c
  {
    if |ps| > 0 {
      AssignedAreClosest(ps[..|ps| - 1], cs, d, c, sqrt, square);
    }
  }

  /** The number of points assigned to the first n centroids. */
  function AssignedCount(ps: seq<Point>, cs: seq<Point>, d: nat, n: nat, sqrt: real -> real, square: real -> real): nat
    requires Uniform(ps, d) && Uniform(cs, d) && 0 < |cs| && n <= |cs|
  {
    if n == 0 then 0 else AssignedCount(ps, cs, d, n - 1, sqrt, square) + |Assigned(ps, cs, d, n - 1, sqrt, square)|
  }

  /** Adding point x to ps adds one point to the clusters before n exactly
      when its closest centroid comes before n. */
  lemma {:induction false} AssignedCountStep(ps: seq<Point>, x: Point, cs: seq<Point>, d: nat, n: nat, sqrt: real -> real, square: real -> real)
    requires Uniform(ps, d) && |x| == d && Uniform(cs, d) && 0 < |cs| && n <= |cs|
    ensures Uniform(ps + [x], d)
    ensures AssignedCount(ps + [x], cs, d, n, sqrt, square) ==
      AssignedCount(ps, cs, d, n, sqrt, square) + if Closest(x, cs, sqrt, square) < n then 1 else 0
  {
    hide Assigned, Closest;
    assert Uniform(ps + [x], d);
    if n > 0 {
      AssignedCountStep(ps, x, cs, d, n - 1, sqrt, square);
      AssignedAppend(ps, x, cs, d, n - 1, sqrt, square);
      var k := Closest(x, cs, sqrt, square);
      var before, after := Assigned(ps, cs, d, n - 1, sqrt, square), Assigned(ps + [x], cs, d, n - 1, sqrt, square);
      assert |after| == |before| + if k == n - 1 then 1 else 0;
      assert AssignedCount(ps, cs, d, n, sqrt, square) == AssignedCount(ps, cs, d, n - 1, sqrt, square) + |before|;
      assert AssignedCount(ps + [x], cs, d, n, sqrt, square) == AssignedCount(ps + [x], cs, d, n - 1, sqrt, square) + |after|;
    }
  }

  /** Adding point x to ps adds it to the points of its closest centroid. */
  lemma AssignedAppend(ps: seq<Point>, x: Point, cs: seq<Point>, d: nat, c: nat, sqrt: real -> real, square: real -> real)
    requires Uniform(ps, d) && |x| == d && Uniform(cs, d) && 0 < |cs|
    ensures Uniform(ps + [x], d)
    ensures Assigned(ps + [x], cs, d, c, sqrt, square) ==
      Assigned(ps, cs, d, c, sqrt, square) + if Closest(x, cs, sqrt, square) == c then [x] else []
  {
    assert (ps + [x])[..|ps|] == ps;
  }

  /** Each point is assigned to exactly one cluster: the clusters together
      hold as many points as ps. */
  lemma {:induction false} AssignedPartition(ps: seq<Point>, cs: seq<Point>, d: nat, sqrt: real -> real, square: real -> real)
    requires Uniform(ps, d) && Uniform(cs, d) && 0 < |cs|
    ensures AssignedCount(ps, cs, d, |cs|, sqrt, square) == |ps|
  {
    hide Assigned, Closest;
    if |ps| == 0 {
      AssignedCountOfNone(ps, cs, d, |cs|, sqrt, square);
    } else {
      var init := ps[..|ps| - 1];
      AssignedPartition(init, cs, d, sqrt, square);
      AssignedCountStep(init, ps[|ps| - 1], cs, d, |cs|, sqrt, square);
      assert init + [ps[|ps| - 1]] == ps;
    }
  }

  /** No points, no assignments. */
  lemma {:induction false} AssignedCountOfNone(ps: seq<Point>, cs: seq<Point>, d: nat, n: nat, sqrt: real -> real, square: real -> real)
    requires ps == [] && Uniform(cs, d) && 0 < |cs| && n <= |cs|
    ensures AssignedCount(ps, cs, d, n, sqrt, square) == 0
  {
    if n > 0 {
      AssignedCountOfNone(ps, cs, d, n - 1, sqrt, square);
    }
  }

  /** Where centroid c stands after a round: the mean of its points, or where
      it was when it received none. */
  function NextCentroid(ps: seq<Point>, cs: seq<Point>, d: nat, c: nat, sqrt: real -> real, square: real -> real): (x: Point)
    requires Uniform(ps, d) && Uniform(cs, d) && c < |cs|
    ensures |x| == d
  {
    var a := Assigned(ps, cs, d, c, sqrt, square);
    if |a| == 0 then cs[c] else Mean(a, d)
  }

  /** The centroids after one round. */
  function Next(ps: seq<Point>, cs: seq<Point>, d: nat, sqrt: real -> real, square: real -> real): (next: seq<Point>)
    requires Uniform(ps, d) && Uniform(cs, d) && |cs| > 0
    ensures |next| == |cs| && Uniform(next, d)
  {
    seq(|cs|, c requires 0 <= c < |cs| => NextCentroid(ps, cs, d, c, sqrt, square))
  }

  /** The value finalize_next_centroid_pos returns for centroid c: 0 when it
      received no points, else the distance it moves. */
  function Shift(ps: seq<Point>, cs: seq<Point>, d: nat, c: nat, sqrt: real -> real, square: real -> real): real
    requires Uniform(ps, d) && Uniform(cs, d) && c < |cs|
  {
    var a := Assigned(ps, cs, d, c, sqrt, square);
    if |a| == 0 then 0.0 else Distance(cs[c], Mean(a, d), sqrt, square)
  }

  /** A round converges when no centroid moves more than Epsilon. */
  predicate Converged(ps: seq<Point>, cs: seq<Point>, d: nat, sqrt: real -> real, square: real -> real)
    requires Uniform(ps, d) && Uniform(cs, d) && |cs| > 0
  {
    forall c :: 0 <= c < |cs| ==> Shift(ps, cs, d, c, sqrt, square) <= Epsilon
  }

  /** A single point that is its own cluster's only member becomes its
      centroid after a round. */
  lemma LonePointBecomesCentroid(ps: seq<Point>, cs: seq<Point>, d: nat, c: nat, sqrt: real -> real, square: real -> real)
    requires Uniform(ps, d) && Uniform(cs, d) && c < |cs|
    requires |Assigned(ps, cs, d, c, sqrt, square)| == 1
    ensures Next(ps, cs, d, sqrt, square)[c] == Assigned(ps, cs, d, c, sqrt, square)[0]
  {
    var a := Assigned(ps, cs, d, c, sqrt, square);
    assert a == [a[0]];
    MeanOfOne(a[0]);
  }

  // ----------------------------------------------------------- the run

  /** The centroids the run ends with and the number of rounds it made. */
  datatype Clustering = Clustering(centroids: seq<Point>, rounds: nat)

  /** The main loop of kmeans with `remaining` rounds left: a round, then a
      stop if it converged and another round otherwise. */
  function Rounds(ps: seq<Point>, cs: seq<Point>, d: nat, remaining: nat, sqrt: real -> real, square: real -> real): (o: Clustering)
    requires Uniform(ps, d) && Uniform(cs, d) && |cs| > 0
    decreases remaining
    ensures |o.centroids| == |cs| && Uniform(o.centroids, d)
    ensures o.rounds <= remaining && (remaining > 0 ==> o.rounds >= 1)
  {
    if remaining == 0 then Clustering(cs, 0)
    else if Converged(ps, cs, d, sqrt, square) then Clustering(Next(ps, cs, d, sqrt, square), 1)
    else
      var rest := Rounds(ps, Next(ps, cs, d, sqrt, square), d, remaining - 1, sqrt, square);
      Clustering(rest.centroids, rest.rounds + 1)
  }

  /** The centroids after t rounds, whether or not they converged. */
  function Iterate(ps: seq<Point>, cs: seq<Point>, d: nat, t: nat, sqrt: real -> real, square: real -> real): (r: seq<Point>)
    requires Uniform(ps, d) && Uniform(cs, d) && |cs| > 0
    ensures |r| == |cs| && Uniform(r, d)
    decreases t
  {
    if t == 0 then cs else Iterate(ps, Next(ps, cs, d, sqrt, square), d, t - 1, sqrt, square)
  }

  /** The run makes rounds until the first that converges, or until it has
      made `remaining` of them, and returns the centroids after its last round. */
  lemma {:induction false} RoundsCharacterised(ps: seq<Point>, cs: seq<Point>, d: nat, remaining: nat, sqrt: real -> real, square: real -> real)
    requires Uniform(ps, d) && Uniform(cs, d) && |cs| > 0
    ensures var o := Rounds(ps, cs, d, remaining, sqrt, square);
      o.centroids == Iterate(ps, cs, d, o.rounds, sqrt, square) &&
      (forall t :: 0 <= t < o.rounds - 1 ==> !Converged(ps, Iterate(ps, cs, d, t, sqrt, square), d, sqrt, square)) &&
      (o.rounds == remaining || (0 < o.rounds && Converged(ps, Iterate(ps, cs, d, o.rounds - 1, sqrt, square), d, sqrt, square)))
    decreases remaining
  {
    hide Converged, Next;
    var o := Rounds(ps, cs, d, remaining, sqrt, square);
    if remaining == 0 {
      assert o == Clustering(cs, 0);
    } else if Converged(ps, cs, d, sqrt, square) {
      var next := Next(ps, cs, d, sqrt, square);
      assert o == Clustering(next, 1);
      assert Iterate(ps, cs, d, 1, sqrt, square) == Iterate(ps, next, d, 0, sqrt, square) == next;
      assert Iterate(ps, cs, d, 0, sqrt, square) == cs;
    } else {
      var next := Next(ps, cs, d, sqrt, square);
      RoundsCharacterised(ps, next, d, remaining - 1, sqrt, square);
      var rest := Rounds(ps, next, d, remaining - 1, sqrt, square);
      assert o == Clustering(rest.centroids, rest.rounds + 1);
      assert Iterate(ps, cs, d, rest.rounds + 1, sqrt, square) == Iterate(ps, next, d, rest.rounds, sqrt, square);
      forall t | 0 <= t < o.rounds - 1
        ensures !Converged(ps, Iterate(ps, cs, d, t, sqrt, square), d, sqrt, square)
      {
        if t > 0 {
          assert Iterate(ps, cs, d, t, sqrt, square) == Iterate(ps, next, d, t - 1, sqrt, square);
        }
      }
      if rest.rounds != remaining - 1 {
        assert Iterate(ps, cs, d, rest.rounds, sqrt, square) == Iterate(ps, next, d, rest.rounds - 1, sqrt, square);
      }
    }
  }

  /** Centroids that a round leaves where they are stop the run after one
      round, when the root and the square of 0 are 0. */
  lemma StableCentroidsStop(ps: seq<Point>, cs: seq<Point>, d: nat, remaining: nat, sqrt: real -> real, square: real -> real)
    requires Uniform(ps, d) && Uniform(cs, d) && |cs| > 0 && remaining > 0
    requires Next(ps, cs, d, sqrt, square) == cs
    requires square(0.0) == 0.0 && sqrt(0.0) == 0.0
    ensures Rounds(ps, cs, d, remaining, sqrt, square) == Clustering(cs, 1)
  {
    forall c | 0 <= c < |cs|
      ensures Shift(ps, cs, d, c, sqrt, square) <= Epsilon
    {
      assert NextCentroid(ps, cs, d, c, sqrt, square) == cs[c];
      DistanceToSelf(cs[c], sqrt, square);
    }
  }

  /** The loop of kmeans entered with centroids cs after i of its iter rounds
      ends as the run o does: with the same centroids, after the same total
      number of rounds. */
  predicate OnTrack(ps: seq<Point>, cs: seq<Point>, d: nat, i: nat, iter: nat, sqrt: real -> real, square: real -> real, o: Clustering)
  {
    Uniform(ps, d) && Uniform(cs, d) && |cs| > 0 && i <= iter &&
    Rounds(ps, cs, d, iter - i, sqrt, square).centroids == o.centroids &&
    i + Rounds(ps, cs, d, iter - i, sqrt, square).rounds == o.rounds
  }

  /** The loop of kmeans has ended with centroids cs as the run o does. */
  predicate Finished(cs: seq<Point>, i: nat, o: Clustering)
  {
    cs == o.centroids && i == o.rounds
  }

  /** A loop on track that has made all iter rounds ends as the run does. */
  lemma RoundsExhausted(ps: seq<Point>, cs: seq<Point>, d: nat, iter: nat, sqrt: real -> real, square: real -> real, o: Clustering)
    requires OnTrack(ps, cs, d, iter, iter, sqrt, square, o)
    ensures Finished(cs, iter, o)
  {
  }

  /** One round keeps the loop on track for the run o: a converged round ends
      it with the run's centroids, any other leaves it on track. */
  lemma RoundOnTrack(ps: seq<Point>, cs: seq<Point>, d: nat, i: nat, iter: nat, sqrt: real -> real, square: real -> real, o: Clustering)
    requires OnTrack(ps, cs, d, i, iter, sqrt, square, o) && i < iter
    ensures if Converged(ps, cs, d, sqrt, square) then Finished(Next(ps, cs, d, sqrt, square), i + 1, o)
      else OnTrack(ps, Next(ps, cs, d, sqrt, square), d, i + 1, iter, sqrt, square, o)
  {
  }

  // --------------------------------------- dependence on the square

  /** Two squares that agree on every argument. */
  ghost predicate SameSquare(s1: real -> real, s2: real -> real)
  {
    forall x :: s1(x) == s2(x)
  }

  /** Squares that agree give the same distances. */
  lemma {:induction false} SquaredDistanceOfSameSquare(p: Point, q: Point, s1: real -> real, s2: real -> real, t: nat)
    requires t <= |p| <= |q| && SameSquare(s1, s2)
    ensures SquaredDistance(p, q, s1, t) == SquaredDistance(p, q, s2, t)
  {
    if t > 0 {
      SquaredDistanceOfSameSquare(p, q, s1, s2, t - 1);
    }
  }

  /** Squares that agree pick the same closest centroid. */
  lemma ClosestOfSameSquare(p: Point, cs: seq<Point>, sqrt: real -> real, s1: real -> real, s2: real -> real)
    requires |cs| > 0 && (forall c :: 0 <= c < |cs| ==> |p| <= |cs[c]|) && SameSquare(s1, s2)
    ensures Closest(p, cs, sqrt, s1) == Closest(p, cs, sqrt, s2)
  {
    forall c | 0 <= c < |cs|
      ensures Distance(p, cs[c], sqrt, s1) == Distance(p, cs[c], sqrt, s2)
    {
      SquaredDistanceOfSameSquare(p, cs[c], s1, s2, |p|);
    }
    var r := Closest(p, cs, sqrt, s1);
    assert IsClosest(p, cs, r, sqrt, s2);
    ClosestUnique(p, cs, r, Closest(p, cs, sqrt, s2), sqrt, s2);
  }

  /** Squares that agree assign the same points to each centroid. */
  lemma {:induction false} AssignedOfSameSquare(ps: seq<Point>, cs: seq<Point>, d: nat, c: nat, sqrt: real -> real, s1: real -> real, s2: real -> real)
    requires Uniform(ps, d) && Uniform(cs, d) && |cs| > 0 && SameSquare(s1, s2)
    ensures Assigned(ps, cs, d, c, sqrt, s1) == Assigned(ps, cs, d, c, sqrt, s2)
  {
    if |ps| > 0 {
      AssignedOfSameSquare(ps[..|ps| - 1], cs, d, c, sqrt, s1, s2);
      ClosestOfSameSquare(ps[|ps| - 1], cs, sqrt, s1, s2);
    }
  }

  /** Squares that agree make the same round: the same next centroids and the
      same convergence verdict. */
  lemma RoundOfSameSquare(ps: seq<Point>, cs: seq<Point>, d: nat, sqrt: real -> real, s1: real -> real, s2: real -> real)
    requires Uniform(ps, d) && Uniform(cs, d) && |cs| > 0 && SameSquare(s1, s2)
    ensures Next(ps, cs, d, sqrt, s1) == Next(ps, cs, d, sqrt, s2)
    ensures Converged(ps, cs, d, sqrt, s1) == Converged(ps, cs, d, sqrt, s2)
  {
    forall c | 0 <= c < |cs|
      ensures NextCentroid(ps, cs, d, c, sqrt, s1) == NextCentroid(ps, cs, d, c, sqrt, s2)
      ensures Shift(ps, cs, d, c, sqrt, s1) == Shift(ps, cs, d, c, sqrt, s2)
    {
      AssignedOfSameSquare(ps, cs, d, c, sqrt, s1, s2);
      var a := Assigned(ps, cs, d, c, sqrt, s1);
      if |a| > 0 {
        SquaredDistanceOfSameSquare(cs[c], Mean(a, d), s1, s2, |cs[c]|);
      }
    }
  }

  /** Squares that agree make the same run. */
  lemma {:induction false} RoundsOfSameSquare(ps: seq<Point>, cs: seq<Point>, d: nat, remaining: nat, sqrt: real -> real, s1: real -> real, s2: real -> real)
    requires Uniform(ps, d) && Uniform(cs, d) && |cs| > 0 && SameSquare(s1, s2)
    ensures Rounds(ps, cs, d, remaining, sqrt, s1) == Rounds(ps, cs, d, remaining, sqrt, s2)
    decreases remaining
  {
    if remaining > 0 {
      RoundOfSameSquare(ps, cs, d, sqrt, s1, s2);
      RoundsOfSameSquare(ps, Next(ps, cs, d, sqrt, s1), d, remaining - 1, sqrt, s1, s2);
    }
  }

  // ------------------------------------------------------------ clusters

  /** A centroid with the total and the count of the points added to it since
      the last finalisation. */
  class Cluster {
    var centroid: Point
    var totalPoints: Point
    var numPoints: int
    /** The points added since the last finalisation. */
    ghost var members: seq<Point>

    /** The accumulators are the total and the count of the members. */
    ghost predicate Valid()
      reads this
    {
      |totalPoints| == |centroid| && numPoints == |members| &&
      (forall i :: 0 <= i < |members| ==> |centroid| <= |members[i]|) &&
      totalPoints == Total(members, |centroid|)
    }

    /** A cluster at the given centroid with no points. */
    constructor (centroid: Point)
      ensures this.centroid == centroid && totalPoints == Zeros(|centroid|) && numPoints == 0
      ensures members == [] && Valid()
    {
      this.centroid := centroid;
      totalPoints := Zeros(|centroid|);
      numPoints := 0;
      members := [];
    }

    /** update_centroid: adds the point to the total and counts it. */
    method UpdateCentroid(point: Point)
      requires |totalPoints| <= |point|
      modifies this
      ensures totalPoints == Sum(old(totalPoints), point) && numPoints == old(numPoints) + 1
      ensures centroid == old(centroid) && members == old(members) + [point]
      ensures old(Valid()) ==> Valid()
    {
      totalPoints := Add(totalPoints, point);
      numPoints := numPoints + 1;
      members := members + [point];
      if old(Valid()) {
        TotalAppend(old(members), point, |centroid|);
      }
    }

    /** finalize_next_centroid_pos: with no points it returns 0 and changes
      nothing; otherwise it moves the centroid to total / count, empties the
      accumulators and returns the distance from the old centroid to the new. */
    method FinalizeNextCentroidPos(sqrt: real -> real, square: real -> real) returns (delta: real)
      requires |centroid| <= |totalPoints|
      modifies this
      ensures old(numPoints) == 0 ==> (delta == 0.0 && centroid == old(centroid) &&
        totalPoints == old(totalPoints) && numPoints == 0 && members == old(members))
      ensures old(numPoints) != 0 ==> (centroid == Quotient(old(totalPoints), old(numPoints)) &&
        totalPoints == Zeros(|centroid|) && numPoints == 0 && members == [] &&
        delta == Distance(old(centroid), centroid, sqrt, square))
      ensures old(Valid()) ==> (Valid() && members == [] && |centroid| == |old(centroid)| &&
        (old(numPoints) != 0 ==> centroid == Mean(old(members), |old(centroid)|)))
    {
      if numPoints == 0 {
        return 0.0;
      }
      var prevCentroid := centroid;
      centroid := Divide(totalPoints, numPoints);
      numPoints := 0;
      totalPoints := Zeros(|centroid|);
      members := [];
      delta := EuclideanDistance(prevCentroid, centroid, sqrt, square);
    }
  }

  /** The clusters of a k-means run, in the order they were pushed. */
  class ClusterManager {
    var clusters: seq<Cluster>

    /** A manager with no clusters. */
    constructor ()
      ensures clusters == []
    {
      clusters := [];
    }

    /** The centroids of the clusters, in order. */
    ghost function Centroids(): (cs: seq<Point>)
      reads this, clusters
      ensures |cs| == |clusters|
    {
      seq(|clusters|, i reads this, clusters requires 0 <= i < |clusters| => clusters[i].centroid)
    }

    /** No cluster is held twice. */
    ghost predicate Distinct()
      reads this
    {
      forall i, j :: 0 <= i < j < |clusters| ==> clusters[i] != clusters[j]
    }

    /** The clusters are distinct, each keeps its accumulators, and every
        centroid has d coordinates. */
    ghost predicate Valid(d: nat)
      reads this, clusters
    {
      Distinct() && forall i :: 0 <= i < |clusters| ==> clusters[i].Valid() && |clusters[i].centroid| == d
    }

    /** closest_cluster: the index of the centroid closest to point, scanning
        from cluster 0 and moving only to a strictly nearer one, so the lowest
        index wins a tie. */
    method ClosestCluster(point: Point, sqrt: real -> real, square: real -> real) returns (closestId: int)
      requires 0 < |clusters| && forall c :: 0 <= c < |clusters| ==> |point| <= |clusters[c].centroid|
      ensures IsClosest(point, Centroids(), closestId, sqrt, square)
    {
      ghost var cs := Centroids();
      closestId := 0;
      var closestDist := EuclideanDistance(point, clusters[0].centroid, sqrt, square);
      for i := 1 to |clusters|
        invariant ClosestAmong(point, cs, closestId, i, sqrt, square)
        invariant closestDist == Distance(point, cs[closestId], sqrt, square)
      {
        var dist := EuclideanDistance(point, clusters[i].centroid, sqrt, square);
        assert clusters[i].centroid == cs[i];
        ClosestAmongStep(point, cs, closestId, i, sqrt, square);
        if dist < closestDist {
          closestId := i;
          closestDist := dist;
        }
      }
    }

    /** update_next_centroid_position: adds point to the cluster at index
        centroidId; no other cluster changes. */
    method UpdateNextCentroidPosition(centroidId: int, point: Point)
      requires 0 <= centroidId < |clusters| && |clusters[centroidId].totalPoints| <= |point|
      modifies clusters[centroidId]
      ensures clusters[centroidId].totalPoints == Sum(old(clusters[centroidId].totalPoints), point)
      ensures clusters[centroidId].numPoints == old(clusters[centroidId].numPoints) + 1
      ensures clusters[centroidId].centroid == old(clusters[centroidId].centroid)
      ensures clusters[centroidId].members == old(clusters[centroidId].members) + [point]
      ensures old(clusters[centroidId].Valid()) ==> clusters[centroidId].Valid()
    {
      clusters[centroidId].UpdateCentroid(point);
    }

    /** push: appends a cluster. */
    method Push(cluster: Cluster)
      modifies this
      ensures clusters == old(clusters) + [cluster]
    {
      clusters := clusters + [cluster];
    }

    /** clusters_to_list: the centroids, in order. */
    method ClustersToList() returns (list: seq<Point>)
      ensures list == Centroids()
    {
      list := [];
      for i := 0 to |clusters|
        invariant list == Centroids()[..i]
      {
        list := list + [clusters[i].centroid];
      }
    }
  }

  // -------------------------------------------------------------- driver

  /** The body of the first loop of a round: point is added to the cluster
      whose centroid is closest; no centroid moves and no other cluster changes. */
  method AssignPoint(manager: ClusterManager, point: Point, ghost cs: seq<Point>, ghost d: nat, sqrt: real -> real, square: real -> real)
    returns (ghost id: nat)
    requires manager.Valid(d) && |point| == d && Uniform(cs, d)
    requires 0 < |cs| == |manager.clusters| && forall c :: 0 <= c < |cs| ==> manager.clusters[c].centroid == cs[c]
    modifies manager.clusters
    ensures manager.clusters == old(manager.clusters) && manager.Valid(d)
    ensures id == Closest(point, cs, sqrt, square)
    ensures forall c :: 0 <= c < |cs| ==> manager.clusters[c].centroid == cs[c]
    ensures forall c :: 0 <= c < |cs| ==>
      manager.clusters[c].members == old(manager.clusters[c].members) + if c == id then [point] else []
  {
    hide Closest;
    assert manager.Centroids() == cs;
    var nearestCluster := manager.ClosestCluster(point, sqrt, square);
    ClosestUnique(point, cs, nearestCluster, Closest(point, cs, sqrt, square), sqrt, square);
    manager.UpdateNextCentroidPosition(nearestCluster, point);
    id := nearestCluster;
  }

  /** The first loop of a round: every point is added to its closest cluster.
      The centroids do not move. */
  method AssignPoints(manager: ClusterManager, points: seq<Point>, ghost cs: seq<Point>, ghost d: nat, sqrt: real -> real, square: real -> real)
    requires manager.Valid(d) && Uniform(points, d) && Uniform(cs, d)
    requires 0 < |cs| == |manager.clusters| && forall c :: 0 <= c < |cs| ==> manager.clusters[c].centroid == cs[c]
    requires forall c :: 0 <= c < |cs| ==> manager.clusters[c].members == []
    modifies manager.clusters
    ensures manager.clusters == old(manager.clusters) && manager.Valid(d)
    ensures forall c :: 0 <= c < |cs| ==> manager.clusters[c].centroid == cs[c]
    ensures forall c :: 0 <= c < |cs| ==> manager.clusters[c].members == Assigned(points, cs, d, c, sqrt, square)
  {
    hide Closest;
    for i := 0 to |points|
      invariant manager.clusters == old(manager.clusters) && manager.Valid(d)
      invariant forall c :: 0 <= c < |cs| ==> manager.clusters[c].centroid == cs[c]
      invariant forall c :: 0 <= c < |cs| ==> manager.clusters[c].members == Assigned(points[..i], cs, d, c, sqrt, square)
    {
      assert points[..i + 1][..i] == points[..i];
      ghost var id := AssignPoint(manager, points[i], cs, d, sqrt, square);
    }
    assert points[..|points|] == points;
  }

  /** The body of the second loop of a round: cluster j is finalised, moving
      to its next centroid and returning its shift. */
  method FinalizeCluster(manager: ClusterManager, j: nat, ghost points: seq<Point>, ghost cs: seq<Point>, ghost d: nat, sqrt: real -> real, square: real -> real)
    returns (delta: real)
    requires manager.Valid(d) && Uniform(points, d) && Uniform(cs, d)
    requires j < |cs| == |manager.clusters|
    requires manager.clusters[j].centroid == cs[j] && manager.clusters[j].members == Assigned(points, cs, d, j, sqrt, square)
    modifies manager.clusters[j]
    ensures manager.Valid(d)
    ensures manager.clusters[j].centroid == NextCentroid(points, cs, d, j, sqrt, square) && manager.clusters[j].members == []
    ensures delta == Shift(points, cs, d, j, sqrt, square)
  {
    delta := manager.clusters[j].FinalizeNextCentroidPos(sqrt, square);
  }

  /** The second loop of a round: every cluster is finalised in turn, and the
      round converges unless some cluster moved more than Epsilon. */
  method FinalizeClusters(manager: ClusterManager, ghost points: seq<Point>, ghost cs: seq<Point>, ghost d: nat, sqrt: real -> real, square: real -> real)
    returns (converge: bool)
    requires manager.Valid(d) && Uniform(points, d) && Uniform(cs, d)
    requires 0 < |cs| == |manager.clusters| && forall c :: 0 <= c < |cs| ==> manager.clusters[c].centroid == cs[c]
    requires forall c :: 0 <= c < |cs| ==> manager.clusters[c].members == Assigned(points, cs, d, c, sqrt, square)
    modifies manager.clusters
    ensures manager.clusters == old(manager.clusters) && manager.Valid(d)
    ensures forall c :: 0 <= c < |cs| ==> manager.clusters[c].members == []
    ensures forall c :: 0 <= c < |cs| ==> manager.clusters[c].centroid == Next(points, cs, d, sqrt, square)[c]
    ensures converge == Converged(points, cs, d, sqrt, square)
  {
    hide NextCentroid, Shift, Assigned, Closest;
    converge := true;
    for j := 0 to |manager.clusters|
      invariant manager.clusters == old(manager.clusters) && manager.Valid(d)
      invariant forall c :: 0 <= c < j ==>
        manager.clusters[c].centroid == NextCentroid(points, cs, d, c, sqrt, square) && manager.clusters[c].members == []
      invariant forall c :: j <= c < |cs| ==>
        manager.clusters[c].centroid == cs[c] && manager.clusters[c].members == Assigned(points, cs, d, c, sqrt, square)
      invariant converge <==> forall c :: 0 <= c < j ==> Shift(points, cs, d, c, sqrt, square) <= Epsilon
    {
      var delta := FinalizeCluster(manager, j, points, cs, d, sqrt, square);
      if delta > Epsilon {
        converge := false;
      }
    }
  }

  /** Lines 216-220 of kmeans: a manager with one fresh, empty cluster per
      point of points[..K], centred on that point. */
  method SeedClusters(points: seq<Point>, K: nat, ghost d: nat) returns (manager: ClusterManager)
    requires K <= |points| && Uniform(points, d)
    ensures fresh(manager) && |manager.clusters| == K && manager.Valid(d)
    ensures forall c :: 0 <= c < K ==> fresh(manager.clusters[c]) && manager.clusters[c].members == []
    ensures manager.Centroids() == points[..K]
  {
    manager := new ClusterManager();
    for i := 0 to K
      invariant fresh(manager) && |manager.clusters| == i && manager.Valid(d)
      invariant forall c :: 0 <= c < i ==> fresh(manager.clusters[c]) && manager.clusters[c].members == []
      invariant forall c :: 0 <= c < i ==> manager.clusters[c].centroid == points[c]
    {
      var cluster := new Cluster(points[i]);
      manager.Push(cluster);
    }
    assert manager.Centroids() == points[..K];
  }

  /** One pass of the loop of kmeans: the points are assigned, the clusters
      finalised, and the centroids become Next of the old ones. */
  method Round(manager: ClusterManager, points: seq<Point>, ghost d: nat, sqrt: real -> real, square: real -> real)
    returns (converge: bool)
    requires manager.Valid(d) && Uniform(points, d) && 0 < |manager.clusters|
    requires forall c :: 0 <= c < |manager.clusters| ==> manager.clusters[c].members == []
    modifies manager.clusters
    ensures manager.clusters == old(manager.clusters) && manager.Valid(d)
    ensures forall c :: 0 <= c < |manager.clusters| ==> manager.clusters[c].members == []
    ensures var cs := old(manager.Centroids());
      Uniform(cs, d) && manager.Centroids() == Next(points, cs, d, sqrt, square) &&
      converge == Converged(points, cs, d, sqrt, square)
  {
    hide Next, Converged, Assigned, Closest;
    ghost var cs := manager.Centroids();
    assert Uniform(cs, d);
    AssignPoints(manager, points, cs, d, sqrt, square);
    converge := FinalizeClusters(manager, points, cs, d, sqrt, square);
    assert manager.Centroids() == Next(points, cs, d, sqrt, square);
  }

  /** Lines 216-236 of kmeans (shared by kmeans_hw1): one cluster per point of
      points[..K], then at most iter rounds, stopping after the first that
      converges. The result is the run of Rounds from points[..K]. */
  method ClusterPoints(points: seq<Point>, K: nat, iter: nat, ghost d: nat, sqrt: real -> real, square: real -> real)
    returns (centroids: seq<Point>, ghost rounds: nat)
    requires 0 < K <= |points| && Uniform(points, d)
    ensures centroids == Rounds(points, points[..K], d, iter, sqrt, square).centroids
    ensures rounds == Rounds(points, points[..K], d, iter, sqrt, square).rounds
  {
    var manager := SeedClusters(points, K, d);
    ghost var o := Rounds(points, points[..K], d, iter, sqrt, square);
    hide Rounds, Next, Converged;
    var i := 0;
    while i < iter
      invariant |manager.clusters| == K && manager.Valid(d)
      invariant forall c :: 0 <= c < K ==> fresh(manager.clusters[c]) && manager.clusters[c].members == []
      invariant OnTrack(points, manager.Centroids(), d, i, iter, sqrt, square, o)
      decreases iter - i
    {
      ghost var cs := manager.Centroids();
      RoundOnTrack(points, cs, d, i, iter, sqrt, square, o);
      var converge := Round(manager, points, d, sqrt, square);
      i := i + 1;
      if converge {
        break;
      }
    }
    if i == iter && !Finished(manager.Centroids(), i, o) {
      RoundsExhausted(points, manager.Centroids(), d, iter, sqrt, square, o);
    }
    centroids := manager.ClustersToList();
    rounds := i;
  }

  /** What kmeans gives back: the final centroids, or the message it prints
      before exit(1). */
  datatype Result = Centroids(centroids: seq<Point>) | Exit(message: string)

  /** kmeans with the points already read: exits on an iteration bound
      outside (1, 1000) or a cluster count outside (1, |points|); otherwise
      clusters the points with the first K of them as initial centroids. */
  method Kmeans(K: int, iter: int, points: seq<Point>, sqrt: real -> real) returns (r: Result, ghost rounds: nat)
    requires Uniform(points, if |points| == 0 then 0 else |points[0]|)
    ensures iter >= 1000 || iter <= 1 ==> r == Exit(InvalidIterations)
    ensures 1 < iter < 1000 && (K <= 1 || K >= |points|) ==> r == Exit(InvalidClusters)
    ensures 1 < iter < 1000 && 1 < K < |points| ==>
      var o := Rounds(points, points[..K], |points[0]|, iter, sqrt, SelfProduct);
      r == Centroids(o.centroids) && rounds == o.rounds
  {
    if iter >= 1000 || iter <= 1 {
      return Exit(InvalidIterations), 0;
    }
    if K <= 1 || K >= |points| {
      return Exit(InvalidClusters), 0;
    }
    var centroids;
    centroids, rounds := ClusterPoints(points, K, iter, |points[0]|, sqrt, SelfProduct);
    r := Centroids(centroids);
  }

  /** A successful run returns K centroids of the points' dimension, after
      between 1 and iter rounds. */
  lemma KmeansShape(K: int, iter: int, points: seq<Point>, sqrt: real -> real)
    requires 1 < iter < 1000 && 1 < K < |points| && Uniform(points, |points[0]|)
    ensures var o := Rounds(points, points[..K], |points[0]|, iter, sqrt, SelfProduct);
      |o.centroids| == K && Uniform(o.centroids, |points[0]|) && 1 <= o.rounds <= iter
  {
  }
}
