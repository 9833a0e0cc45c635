/**
 * diagonal.c: the degree matrix of a similarity matrix, the row sums placed
 * on the diagonal of an otherwise zero matrix.
 */
module Diagonal {
  import opened Matrix
  import opened Utils

  /** The sum of the first t entries of row. */
  function RowSum(row: seq<real>, t: nat): real
    requires t <= |row|
  {
    if t == 0 then 0.0 else RowSum(row, t - 1) + row[t - 1]
  }

  /** The degree matrix of the n×n similarity matrix S. */
  function Degree(S: Matrix, n: nat): (D: Matrix)
    requires IsMatrix(S, n, n)
    ensures IsMatrix(D, n, n)
  {
    seq(n, i requires 0 <= i < n => seq(n, j requires 0 <= j < n =>
      if i == j then RowSum(S[i], n) else 0.0))
  }

  /** The degree matrix is diagonal, and its diagonal holds the row sums of S. */
  lemma DegreeIsDiagonal(S: Matrix, n: nat)
    requires IsMatrix(S, n, n)
    ensures IsDiagonal(Degree(S, n), n)
    ensures forall i :: 0 <= i < n ==> Degree(S, n)[i][i] == RowSum(S[i], n)
  {
  }

  /** A row of non-negative entries of which at least one, among the first t,
      is positive has a positive sum. */
  lemma {:induction false} RowSumPositive(row: seq<real>, t: nat, k: nat)
    requires t <= |row| && k < t
    requires forall l :: 0 <= l < t ==> row[l] >= 0.0
    requires row[k] > 0.0
    ensures RowSum(row, t) > 0.0
  {
    if k < t - 1 {
      RowSumPositive(row, t - 1, k);
    } else {
      RowSumNonNegative(row, t - 1);
    }
  }

  /** A row of non-negative entries has a non-negative sum. */
  lemma {:induction false} RowSumNonNegative(row: seq<real>, t: nat)
    requires t <= |row|
    requires forall l :: 0 <= l < t ==> row[l] >= 0.0
    ensures RowSum(row, t) >= 0.0
  {
    if t > 0 {
      RowSumNonNegative(row, t - 1);
    }
  }

  /** With at least two points and positive off-diagonal similarities, every
      degree is positive, so the normaliser's pow(d, -0.5) never meets d == 0. */
  lemma DegreePositive(S: Matrix, n: nat)
    requires IsMatrix(S, n, n) && n >= 2
    requires forall i, j :: 0 <= i < n && 0 <= j < n ==> S[i][j] >= 0.0
    requires forall i, j :: 0 <= i < n && 0 <= j < n && i != j ==> S[i][j] > 0.0
    ensures forall i :: 0 <= i < n ==> Degree(S, n)[i][i] > 0.0
  {
    forall i | 0 <= i < n
      ensures RowSum(S[i], n) > 0.0
    {
      RowSumPositive(S[i], n, if i == 0 then 1 else 0);
    }
  }

  /** matrix_row_sum: the sum of row i of S, accumulated left to right. */
  method MatrixRowSum(S: array2<real>, i: nat) returns (sum: real)
    requires i < S.Length0
    ensures sum == RowSum(Elements(S)[i], S.Length1)
  {
    ghost var row := Elements(S)[i];
    sum := 0.0;
    for c := 0 to S.Length1
      invariant sum == RowSum(row, c)
    {
      sum := sum + S[i, c];
    }
  }

  /** diagonal_matrix: a fresh buffer holding the degree matrix of S. Only the
      diagonal is written; every other entry keeps the zero it was created with. */
  method DiagonalMatrix(S: array2<real>) returns (D: array2<real>)
    requires S.Length0 == S.Length1
    ensures fresh(D) && D.Length0 == S.Length0 && D.Length1 == S.Length0
    ensures Elements(D) == Degree(Elements(S), S.Length0)
  {
    var n := S.Length0;
    ghost var spec := Degree(Elements(S), n);
    D := CreateMatrix(n, n);
    for i := 0 to n
      invariant forall r, c :: 0 <= r < n && 0 <= c < n && (r != c || r < i) ==> D[r, c] == spec[r][c]
    {
      D[i, i] := MatrixRowSum(S, i);
    }
    ElementsAre(D, spec);
  }
}
