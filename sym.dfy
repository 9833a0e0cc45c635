/**
 * sym.c: the similarity matrix of a point set, a Gaussian kernel on squared
 * Euclidean distance with a zero diagonal.
 *
 * The point set is an n×d buffer whose rows are the points. `exp` and `pow`
 * are the C library functions, passed in and left uninterpreted; the only
 * fact used about `pow` is that `pow(x, 2)` is `x * x`.
 */
module Sym {
  import opened Matrix
  import opened Utils

  /** The squared Euclidean distance of p and q over their first t coordinates. */
  function SquaredDistance(p: seq<real>, q: seq<real>, t: nat): real
    requires t <= |p| && t <= |q|
  {
    if t == 0 then 0.0 else SquaredDistance(p, q, t - 1) + (p[t - 1] - q[t - 1]) * (p[t - 1] - q[t - 1])
  }

  /** The squared distance does not depend on the order of the points. */
  lemma {:induction false} SquaredDistanceSymmetric(p: seq<real>, q: seq<real>, t: nat)
    requires t <= |p| && t <= |q|
    ensures SquaredDistance(p, q, t) == SquaredDistance(q, p, t)
  {
    if t > 0 {
      SquaredDistanceSymmetric(p, q, t - 1);
    }
  }

  /** The squared distance is a sum of squares, so it is never negative. */
  lemma {:induction false} SquaredDistanceNonNegative(p: seq<real>, q: seq<real>, t: nat)
    requires t <= |p| && t <= |q|
    ensures SquaredDistance(p, q, t) >= 0.0
  {
    if t > 0 {
      SquaredDistanceNonNegative(p, q, t - 1);
    }
  }

  /** Every point is at distance 0 from itself. */
  lemma {:induction false} SquaredDistanceToSelf(p: seq<real>, t: nat)
    requires t <= |p|
    ensures SquaredDistance(p, p, t) == 0.0
  {
    if t > 0 {
      SquaredDistanceToSelf(p, t - 1);
    }
  }

  /** The similarity matrix of the n points held in the rows of X (d coordinates
      each): exp(-dist²/2) off the diagonal and exactly 0 on it. */
  function Similarity(X: Matrix, n: nat, d: nat, exp: real -> real): (S: Matrix)
    requires IsMatrix(X, n, d)
    ensures IsMatrix(S, n, n)
  {
    seq(n, i requires 0 <= i < n => seq(n, j requires 0 <= j < n =>
      if i == j then 0.0 else exp(-(SquaredDistance(X[i], X[j], d) / 2.0))))
  }

  /** The similarity matrix is symmetric, because the distance is. */
  lemma SimilaritySymmetric(X: Matrix, n: nat, d: nat, exp: real -> real)
    requires IsMatrix(X, n, d)
    ensures IsSymmetric(Similarity(X, n, d, exp), n)
  {
    var S := Similarity(X, n, d, exp);
    forall i, j | 0 <= i < n && 0 <= j < n
      ensures S[i][j] == S[j][i]
    {
      SquaredDistanceSymmetric(X[i], X[j], d);
    }
  }

  /** With an exponential that maps non-positive arguments into (0, 1], every
      off-diagonal similarity lies in (0, 1]. */
  lemma SimilarityInUnitInterval(X: Matrix, n: nat, d: nat, exp: real -> real)
    requires IsMatrix(X, n, d)
    requires forall x :: x <= 0.0 ==> 0.0 < exp(x) <= 1.0
    ensures forall i, j :: 0 <= i < n && 0 <= j < n && i != j ==>
      0.0 < Similarity(X, n, d, exp)[i][j] <= 1.0
  {
    forall i, j | 0 <= i < n && 0 <= j < n && i != j
      ensures 0.0 < Similarity(X, n, d, exp)[i][j] <= 1.0
    {
      SquaredDistanceNonNegative(X[i], X[j], d);
    }
  }

  /** Two identical points have similarity exp(0). */
  lemma SimilarityOfEqualPoints(X: Matrix, n: nat, d: nat, exp: real -> real, i: nat, j: nat)
    requires IsMatrix(X, n, d) && i < n && j < n && i != j && X[i] == X[j]
    ensures Similarity(X, n, d, exp)[i][j] == exp(0.0)
  {
    SquaredDistanceToSelf(X[i], d);
  }

  /** euclidean_distance_squared: the squared distance of points i and j of X,
      accumulated coordinate by coordinate with pow(·, 2). */
  method EuclideanDistanceSquared(X: array2<real>, i: nat, j: nat, pow: (real, real) -> real)
    returns (total: real)
    requires i < X.Length0 && j < X.Length0
    requires forall x :: pow(x, 2.0) == x * x
    ensures total == SquaredDistance(Elements(X)[i], Elements(X)[j], X.Length1)
  {
    ghost var e := Elements(X);
    total := 0.0;
    for c := 0 to X.Length1
      invariant total == SquaredDistance(e[i], e[j], c)
    {
      total := total + pow(X[i, c] - X[j, c], 2.0);
    }
  }

  /** similarity_matrix: the similarity matrix of the points in the rows of X.
      Only the entries with i != j are written; the diagonal keeps the zeros of
      the freshly created buffer. */
  method SimilarityMatrix(X: array2<real>, exp: real -> real, pow: (real, real) -> real)
    returns (S: array2<real>)
    requires forall x :: pow(x, 2.0) == x * x
    ensures fresh(S) && S.Length0 == X.Length0 && S.Length1 == X.Length0
    ensures Elements(S) == Similarity(Elements(X), X.Length0, X.Length1, exp)
  {
    var n := X.Length0;
    ghost var spec := Similarity(Elements(X), n, X.Length1, exp);
    S := CreateMatrix(n, n);
    for i := 0 to n
      invariant forall r, c :: 0 <= r < i && 0 <= c < n ==> S[r, c] == spec[r][c]
      invariant forall r, c :: i <= r < n && 0 <= c < n ==> S[r, c] == 0.0
    {
      SimilarityRow(S, X, i, exp, pow);
    }
    ElementsAre(S, spec);
  }

  /** One pass of the outer loop of similarity_matrix: fills row i of S, whose
      entries are still zero, and leaves every other row alone. */
  method SimilarityRow(S: array2<real>, X: array2<real>, i: nat, exp: real -> real, pow: (real, real) -> real)
    requires S != X && S.Length0 == X.Length0 && S.Length1 == X.Length0 && i < X.Length0
    requires forall x :: pow(x, 2.0) == x * x
    requires forall c :: 0 <= c < S.Length1 ==> S[i, c] == 0.0
    modifies S
    ensures forall c :: 0 <= c < S.Length1 ==> S[i, c] == Similarity(Elements(X), X.Length0, X.Length1, exp)[i][c]
    ensures forall r, c :: 0 <= r < S.Length0 && 0 <= c < S.Length1 && r != i ==> S[r, c] == old(S[r, c])
  {
    var n := X.Length0;
    ghost var row := Similarity(Elements(X), n, X.Length1, exp)[i];
    for j := 0 to n
      invariant forall c :: 0 <= c < j ==> S[i, c] == row[c]
      invariant forall c :: j <= c < n ==> S[i, c] == 0.0
      invariant forall r, c :: 0 <= r < n && 0 <= c < n && r != i ==> S[r, c] == old(S[r, c])
    {
      if i != j {
        var distanceSquared := EuclideanDistanceSquared(X, i, j, pow);
        S[i, j] := exp(-(distanceSquared / 2.0));
      }
    }
  }
}
