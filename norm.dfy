/**
 * norm.c: the normalised similarity matrix W = D^-1/2 · A · D^-1/2, built
 * from a copy of the degree matrix whose diagonal is raised to the power
 * -0.5 in place, followed by a left and a right diagonal scaling.
 *
 * `pow` is the C library function, passed in and left uninterpreted. No
 * guard protects pow(0, -0.5): a zero degree reaches pow unchanged.
 */
module Norm {
  import opened Matrix
  import opened Utils

  /** The diagonal entry of D that scales entry (i, j) of M: D[i][i] when
      direction is 0 (left multiplication, D·M), D[j][j] for any other
      direction (right multiplication, M·D). */
  function ScaleFactor(D: Matrix, n: nat, direction: int, i: nat, j: nat): real
    requires IsMatrix(D, n, n) && i < n && j < n
  {
    if direction != 0 then D[j][j] else D[i][i]
  }

  /** M scaled by the diagonal of D from the side that direction selects. */
  function DiagonalProduct(M: Matrix, D: Matrix, n: nat, direction: int): (R: Matrix)
    requires IsMatrix(M, n, n) && IsMatrix(D, n, n)
    ensures IsMatrix(R, n, n)
  {
    seq(n, i requires 0 <= i < n => seq(n, j requires 0 <= j < n =>
      M[i][j] * ScaleFactor(D, n, direction, i, j)))
  }

  /** D with every diagonal entry raised to the power e and every other entry kept. */
  function DiagonalPower(D: Matrix, n: nat, e: real, pow: (real, real) -> real): (P: Matrix)
    requires IsMatrix(D, n, n)
    ensures IsMatrix(P, n, n)
  {
    seq(n, i requires 0 <= i < n => seq(n, j requires 0 <= j < n =>
      if i == j then pow(D[i][i], e) else D[i][j]))
  }

  /** The normalised matrix: A[i][j] scaled by d_i^-1/2 and by d_j^-1/2. */
  function Normalized(A: Matrix, D: Matrix, n: nat, pow: (real, real) -> real): (W: Matrix)
    requires IsMatrix(A, n, n) && IsMatrix(D, n, n)
    ensures IsMatrix(W, n, n)
  {
    seq(n, i requires 0 <= i < n => seq(n, j requires 0 <= j < n =>
      A[i][j] * pow(D[i][i], -0.5) * pow(D[j][j], -0.5)))
  }

  /** A left and then a right scaling by D^-1/2 is the normalised matrix. */
  lemma NormalizedByDiagonalScaling(A: Matrix, D: Matrix, n: nat, pow: (real, real) -> real)
    requires IsMatrix(A, n, n) && IsMatrix(D, n, n)
    ensures var P := DiagonalPower(D, n, -0.5, pow);
      DiagonalProduct(DiagonalProduct(A, P, n, 0), P, n, 1) == Normalized(A, D, n, pow)
  {
    var P := DiagonalPower(D, n, -0.5, pow);
    var W := DiagonalProduct(DiagonalProduct(A, P, n, 0), P, n, 1);
    var N := Normalized(A, D, n, pow);
    forall i | 0 <= i < n
      ensures W[i] == N[i]
    {
      forall j | 0 <= j < n
        ensures W[i][j] == N[i][j]
      {
        assert P[i][i] == pow(D[i][i], -0.5) && P[j][j] == pow(D[j][j], -0.5);
      }
    }
  }

  /** A symmetric similarity matrix gives a symmetric normalised matrix, whatever
      the degrees are: entry (i, j) and entry (j, i) carry the same two factors. */
  lemma NormalizedSymmetric(A: Matrix, D: Matrix, n: nat, pow: (real, real) -> real)
    requires IsMatrix(A, n, n) && IsMatrix(D, n, n) && IsSymmetric(A, n)
    ensures IsSymmetric(Normalized(A, D, n, pow), n)
  {
    var W := Normalized(A, D, n, pow);
    forall i, j | 0 <= i < n && 0 <= j < n
      ensures W[i][j] == W[j][i]
    {
      var a, p, q := A[i][j], pow(D[i][i], -0.5), pow(D[j][j], -0.5);
      assert a * p * q == a * q * p;
    }
  }

  /** Non-negative similarities and non-negative scaling factors give a
      non-negative normalised matrix. */
  lemma NormalizedNonNegative(A: Matrix, D: Matrix, n: nat, pow: (real, real) -> real)
    requires IsMatrix(A, n, n) && IsMatrix(D, n, n)
    requires forall i, j :: 0 <= i < n && 0 <= j < n ==> A[i][j] >= 0.0
    requires forall i :: 0 <= i < n ==> pow(D[i][i], -0.5) >= 0.0
    ensures forall i, j :: 0 <= i < n && 0 <= j < n ==> Normalized(A, D, n, pow)[i][j] >= 0.0
  {
    forall i, j | 0 <= i < n && 0 <= j < n
      ensures Normalized(A, D, n, pow)[i][j] >= 0.0
    {
      var a, p, q := A[i][j], pow(D[i][i], -0.5), pow(D[j][j], -0.5);
      assert a * p >= 0.0;
      assert a * p * q >= 0.0;
    }
  }

  /** diagonal_matrix_multiplication: a fresh buffer holding M scaled by the
      diagonal of D from the side that direction selects. */
  method DiagonalMatrixMultiplication(M: array2<real>, D: array2<real>, direction: int)
    returns (R: array2<real>)
    requires M.Length0 == M.Length1 && D.Length0 == M.Length0 && D.Length1 == M.Length0
    ensures fresh(R) && R.Length0 == M.Length0 && R.Length1 == M.Length0
    ensures Elements(R) == DiagonalProduct(Elements(M), Elements(D), M.Length0, direction)
  {
    var n := M.Length0;
    ghost var spec := DiagonalProduct(Elements(M), Elements(D), n, direction);
    R := CreateMatrix(n, n);
    for i := 0 to n
      invariant forall r, c :: 0 <= r < i && 0 <= c < n ==> R[r, c] == spec[r][c]
    {
      DiagonalProductRow(R, M, D, direction, i);
    }
    ElementsAre(R, spec);
  }

  /** One pass of the outer loop of diagonal_matrix_multiplication: fills row i
      of R and leaves every other row alone. */
  method DiagonalProductRow(R: array2<real>, M: array2<real>, D: array2<real>, direction: int, i: nat)
    requires R != M && R != D && i < M.Length0
    requires M.Length0 == M.Length1 && D.Length0 == M.Length0 && D.Length1 == M.Length0
    requires R.Length0 == M.Length0 && R.Length1 == M.Length0
    modifies R
    ensures forall c :: 0 <= c < R.Length1 ==>
      R[i, c] == DiagonalProduct(Elements(M), Elements(D), M.Length0, direction)[i][c]
    ensures forall r, c :: 0 <= r < R.Length0 && 0 <= c < R.Length1 && r != i ==> R[r, c] == old(R[r, c])
  {
    var n := M.Length0;
    ghost var m, d := Elements(M), Elements(D);
    for j := 0 to n
      invariant forall c :: 0 <= c < j ==> R[i, c] == m[i][c] * ScaleFactor(d, n, direction, i, c)
      invariant forall r, c :: 0 <= r < n && 0 <= c < n && r != i ==> R[r, c] == old(R[r, c])
    {
      R[i, j] := M[i, j] * D[if direction != 0 then j else i, if direction != 0 then j else i];
    }
  }

  /** diagonal_matrix_exponentiation: raises every diagonal entry of D to the
      power e IN PLACE and returns D itself. Its documentation says that nothing
      passed in is modified; the code does modify D, and so does this model. */
  method DiagonalMatrixExponentiation(D: array2<real>, e: real, pow: (real, real) -> real)
    returns (R: array2<real>)
    requires D.Length0 == D.Length1
    modifies D
    ensures R == D
    ensures Elements(D) == DiagonalPower(old(Elements(D)), D.Length0, e, pow)
  {
    var n := D.Length0;
    ghost var before := Elements(D);
    for i := 0 to n
      invariant forall r, c :: 0 <= r < n && 0 <= c < n ==>
        D[r, c] == if r == c && r < i then pow(before[r][r], e) else before[r][c]
    {
      D[i, i] := pow(D[i, i], e);
    }
    ElementsAre(D, DiagonalPower(before, n, e, pow));
    R := D;
  }

  /** norm_matrix: the normalised matrix of A and D. The exponentiation runs on
      a deep copy of D, so the caller's degree matrix is left as it was. */
  method NormMatrix(A: array2<real>, D: array2<real>, pow: (real, real) -> real)
    returns (W: array2<real>)
    requires A.Length0 == A.Length1 && D.Length0 == A.Length0 && D.Length1 == A.Length0
    ensures fresh(W) && W.Length0 == A.Length0 && W.Length1 == A.Length0
    ensures Elements(W) == Normalized(Elements(A), Elements(D), A.Length0, pow)
  {
    var n := A.Length0;
    var diagExponentiated := DeepCopy(D);
    diagExponentiated := DiagonalMatrixExponentiation(diagExponentiated, -0.5, pow);
    var tempResult := DiagonalMatrixMultiplication(A, diagExponentiated, 0);
    W := DiagonalMatrixMultiplication(tempResult, diagExponentiated, 1);
    NormalizedByDiagonalScaling(Elements(A), Elements(D), n, pow);
  }
}
