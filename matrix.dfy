/**
 * Pure model of the dense matrices that the C implementation keeps as
 * contiguous `double **` buffers. A matrix value is a sequence of rows; the
 * operations of utils.c are specified by the functions below, and the
 * methods of module Utils are proved to compute them on `array2<real>`.
 *
 * Entries are mathematical reals: IEEE rounding, NaN and infinity are not
 * part of this model.
 */
module Matrix {

  type Matrix = seq<seq<real>>

  /** M has exactly m rows of exactly n entries each. */
  predicate IsMatrix(M: Matrix, m: nat, n: nat) {
    |M| == m && forall i :: 0 <= i < m ==> |M[i]| == n
  }

  /** The n×n matrix M equals its transpose. */
  predicate IsSymmetric(M: Matrix, n: nat)
    requires IsMatrix(M, n, n)
  {
    forall i, j :: 0 <= i < n && 0 <= j < n ==> M[i][j] == M[j][i]
  }

  /** Every entry of the n×n matrix M off the main diagonal is 0. */
  predicate IsDiagonal(M: Matrix, n: nat)
    requires IsMatrix(M, n, n)
  {
    forall i, j :: 0 <= i < n && 0 <= j < n && i != j ==> M[i][j] == 0.0
  }

  /** The current contents of a buffer, as a matrix value. */
  ghost function Elements(a: array2<real>): (M: Matrix)
    reads a
    ensures IsMatrix(M, a.Length0, a.Length1)
    ensures forall i, j :: 0 <= i < a.Length0 && 0 <= j < a.Length1 ==> M[i][j] == a[i, j]
  {
    seq(a.Length0, i requires 0 <= i < a.Length0 reads a =>
      seq(a.Length1, j requires 0 <= j < a.Length1 reads a => a[i, j]))
  }

  /** Every entry of the m×n matrix M is positive. */
  predicate Positive(M: Matrix, m: nat, n: nat)
    requires IsMatrix(M, m, n)
  {
    forall i, j :: 0 <= i < m && 0 <= j < n ==> M[i][j] > 0.0
  }

  /** No entry of the m×n matrix M is negative. */
  predicate NonNegative(M: Matrix, m: nat, n: nat)
    requires IsMatrix(M, m, n)
  {
    forall i, j :: 0 <= i < m && 0 <= j < n ==> M[i][j] >= 0.0
  }

  /** A buffer whose every entry agrees with M holds M. */
  lemma ElementsAre(a: array2<real>, M: Matrix)
    requires IsMatrix(M, a.Length0, a.Length1)
    requires forall i, j :: 0 <= i < a.Length0 && 0 <= j < a.Length1 ==> a[i, j] == M[i][j]
    ensures Elements(a) == M
  {
    var E := Elements(a);
    forall i | 0 <= i < a.Length0
      ensures E[i] == M[i]
    {
      assert |E[i]| == |M[i]|;
    }
  }

  /** The m×n matrix of zeros (what calloc provides). */
  function Zero(m: nat, n: nat): (Z: Matrix)
    ensures IsMatrix(Z, m, n)
  {
    seq(m, i => seq(n, j => 0.0))
  }

  /** Every entry of M multiplied by c. */
  function Scaled(M: Matrix, m: nat, n: nat, c: real): (R: Matrix)
    requires IsMatrix(M, m, n)
    ensures IsMatrix(R, m, n)
  {
    seq(m, i requires 0 <= i < m => seq(n, j requires 0 <= j < n => M[i][j] * c))
  }

  /** The partial dot product of row i of A with column j of B over the first t terms. */
  function Dot(A: Matrix, B: Matrix, i: nat, j: nat, t: nat): real
    requires i < |A| && t <= |A[i]| && t <= |B|
    requires forall l :: 0 <= l < t ==> j < |B[l]|
  {
    if t == 0 then 0.0 else Dot(A, B, i, j, t - 1) + A[i][t - 1] * B[t - 1][j]
  }

  /** The m×n product of the m×s matrix A and the s×n matrix B. */
  function Product(A: Matrix, B: Matrix, m: nat, s: nat, n: nat): (P: Matrix)
    requires IsMatrix(A, m, s) && IsMatrix(B, s, n)
    ensures IsMatrix(P, m, n)
  {
    seq(m, i requires 0 <= i < m => seq(n, j requires 0 <= j < n => Dot(A, B, i, j, s)))
  }

  /** The n×m transpose of the m×n matrix M. */
  function Transposed(M: Matrix, m: nat, n: nat): (T: Matrix)
    requires IsMatrix(M, m, n)
    ensures IsMatrix(T, n, m)
  {
    seq(n, i requires 0 <= i < n => seq(m, j requires 0 <= j < m => M[j][i]))
  }

  /** The sum of the first t diagonal entries of the n×n matrix M. */
  function DiagonalSum(M: Matrix, n: nat, t: nat): real
    requires IsMatrix(M, n, n) && t <= n
  {
    if t == 0 then 0.0 else DiagonalSum(M, n, t - 1) + M[t - 1][t - 1]
  }

  /** The trace of the n×n matrix M. */
  function Trace(M: Matrix, n: nat): real
    requires IsMatrix(M, n, n)
  {
    DiagonalSum(M, n, n)
  }

  /** The entrywise difference A - B of two m×n matrices. */
  function Difference(A: Matrix, B: Matrix, m: nat, n: nat): (D: Matrix)
    requires IsMatrix(A, m, n) && IsMatrix(B, m, n)
    ensures IsMatrix(D, m, n)
  {
    seq(m, i requires 0 <= i < m => seq(n, j requires 0 <= j < n => A[i][j] - B[i][j]))
  }

  /** Transposing twice gives back the original matrix. */
  lemma TransposeInvolutive(M: Matrix, m: nat, n: nat)
    requires IsMatrix(M, m, n)
    ensures Transposed(Transposed(M, m, n), n, m) == M
  {
    var T := Transposed(Transposed(M, m, n), n, m);
    forall i | 0 <= i < m
      ensures T[i] == M[i]
    {
      assert |T[i]| == |M[i]|;
    }
  }

  /** A matrix minus itself is the zero matrix. */
  lemma DifferenceWithSelfIsZero(M: Matrix, m: nat, n: nat)
    requires IsMatrix(M, m, n)
    ensures Difference(M, M, m, n) == Zero(m, n)
  {
    var D := Difference(M, M, m, n);
    forall i | 0 <= i < m
      ensures D[i] == Zero(m, n)[i]
    {
      assert |D[i]| == n;
    }
  }

  /** A partial dot product of non-negative terms is non-negative. */
  lemma {:induction false} DotNonNegative(A: Matrix, B: Matrix, i: nat, j: nat, t: nat)
    requires i < |A| && t <= |A[i]| && t <= |B|
    requires forall l :: 0 <= l < t ==> j < |B[l]|
    requires forall l :: 0 <= l < t ==> A[i][l] >= 0.0 && B[l][j] >= 0.0
    ensures Dot(A, B, i, j, t) >= 0.0
  {
    if t > 0 {
      DotNonNegative(A, B, i, j, t - 1);
      assert A[i][t - 1] * B[t - 1][j] >= 0.0;
    }
  }

  /** A non-empty partial dot product of positive terms is positive. */
  lemma {:induction false} DotPositive(A: Matrix, B: Matrix, i: nat, j: nat, t: nat)
    requires i < |A| && 1 <= t <= |A[i]| && t <= |B|
    requires forall l :: 0 <= l < t ==> j < |B[l]|
    requires forall l :: 0 <= l < t ==> A[i][l] > 0.0 && B[l][j] > 0.0
    ensures Dot(A, B, i, j, t) > 0.0
  {
    assert A[i][t - 1] * B[t - 1][j] > 0.0;
    if t > 1 {
      DotPositive(A, B, i, j, t - 1);
    }
  }
}
