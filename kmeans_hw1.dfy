/**
 * kmeans_hw1.py: the same k-means as kmeans.py, with its own copies of
 * Point, Cluster and ClusterManager that differ in one respect: each
 * coordinate difference is squared with pow(x, 2) rather than multiplied by
 * itself. The classes of module Kmeans take the square as a parameter, so
 * this module reuses them with PowSquare. Its driver returns None instead
 * of printing a message and exiting.
 *
 * `pow` is Python's built-in, passed in and left uninterpreted.
 */
module KmeansHw1 {
  import opened Base = Kmeans

  datatype Option<T> = None | Some(value: T)

  /** The square kmeans_hw1.py uses: pow(x, 2). */
  function PowSquare(pow: (real, real) -> real): real -> real
  {
    x => pow(x, 2.0)
  }

  /** When pow(x, 2) is x * x, PowSquare agrees with the square of kmeans.py. */
  lemma PowSquareIsSelfProduct(pow: (real, real) -> real)
    requires forall x :: pow(x, 2.0) == x * x
    ensures SameSquare(PowSquare(pow), SelfProduct)
  {
  }

  /** With pow(x, 2) = x * x the distance of kmeans_hw1.py is symmetric and
      0 from a point to itself (given sqrt(0) = 0). */
  lemma PowDistanceLaws(p: Point, q: Point, sqrt: real -> real, pow: (real, real) -> real)
    requires |p| == |q| && sqrt(0.0) == 0.0
    requires forall x :: pow(x, 2.0) == x * x
    ensures Distance(p, q, sqrt, PowSquare(pow)) == Distance(q, p, sqrt, PowSquare(pow))
    ensures Distance(p, p, sqrt, PowSquare(pow)) == 0.0
  {
    assert forall x :: PowSquare(pow)(-x) == PowSquare(pow)(x) by {
      forall x
        ensures PowSquare(pow)(-x) == PowSquare(pow)(x)
      {
        assert (-x) * (-x) == x * x;
      }
    }
    DistanceSymmetric(p, q, sqrt, PowSquare(pow));
    DistanceToSelf(p, sqrt, PowSquare(pow));
  }

  /** kmeans with the points already read: None for an iteration bound
      outside (1, 1000) or a cluster count outside (1, |points|); otherwise
      the centroids of the run from the first K points. */
  method Kmeans(K: int, iter: int, points: seq<Point>, sqrt: real -> real, pow: (real, real) -> real)
    returns (r: Option<seq<Point>>, ghost rounds: nat)
    requires Uniform(points, if |points| == 0 then 0 else |points[0]|)
    ensures r.None? <==> iter >= 1000 || iter <= 1 || K <= 1 || K >= |points|
    ensures r.Some? ==>
      var o := Rounds(points, points[..K], |points[0]|, iter, sqrt, PowSquare(pow));
      r.value == o.centroids && rounds == o.rounds
  {
    if iter >= 1000 || iter <= 1 {
      return None, 0;
    }
    if K <= 1 || K >= |points| {
      return None, 0;
    }
    var centroids;
    centroids, rounds := ClusterPoints(points, K, iter, |points[0]|, sqrt, PowSquare(pow));
    r := Some(centroids);
  }

  /** With pow(x, 2) = x * x, kmeans_hw1.py and kmeans.py make the same run:
      on valid arguments both return the same centroids after the same number
      of rounds (and by their contracts the first gives None exactly when the
      second exits). */
  lemma AgreesWithKmeans(K: int, iter: int, points: seq<Point>, sqrt: real -> real, pow: (real, real) -> real)
    requires Uniform(points, if |points| == 0 then 0 else |points[0]|)
    requires forall x :: pow(x, 2.0) == x * x
    requires 1 < iter < 1000 && 1 < K < |points|
    ensures Rounds(points, points[..K], |points[0]|, iter, sqrt, PowSquare(pow)) ==
      Rounds(points, points[..K], |points[0]|, iter, sqrt, SelfProduct)
  {
    PowSquareIsSelfProduct(pow);
    RoundsOfSameSquare(points, points[..K], |points[0]|, iter, sqrt, PowSquare(pow), SelfProduct);
  }
}
