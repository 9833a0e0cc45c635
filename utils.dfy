/**
 * The dense-matrix primitives of utils.c on `array2<real>` buffers. Each
 * primitive except matrix_trace allocates a fresh buffer and fills it with
 * nested loops; each is proved to compute the matching function of module
 * Matrix. The only buffer any of them modifies is one it has just allocated
 * (AccumulateDot, the innermost loop of the product, modifies the product's
 * fresh buffer), so none changes its inputs. The C dimension arguments are
 * the buffers' own dimensions here: a call whose arguments differ from the
 * dimensions of the buffers it is given is not modelled.
 */
module Utils {
  import opened Matrix

  /** continuous_matrix_creation: a fresh m×n buffer of zeros. */
  method CreateMatrix(m: nat, n: nat) returns (M: array2<real>)
    ensures fresh(M) && M.Length0 == m && M.Length1 == n
    ensures forall i, j :: 0 <= i < m && 0 <= j < n ==> M[i, j] == 0.0
  {
    M := new real[m, n]((i, j) => 0.0);
  }

  /** matrix_deep_copy: a fresh buffer with the same entries as M. */
  method DeepCopy(M: array2<real>) returns (C: array2<real>)
    ensures fresh(C) && C.Length0 == M.Length0 && C.Length1 == M.Length1
    ensures Elements(C) == Elements(M)
  {
    var m, n := M.Length0, M.Length1;
    C := CreateMatrix(m, n);
    for i := 0 to m
      invariant forall r, c :: 0 <= r < i && 0 <= c < n ==> C[r, c] == M[r, c]
    {
      for j := 0 to n
        invariant forall r, c :: 0 <= r < i && 0 <= c < n ==> C[r, c] == M[r, c]
        invariant forall c :: 0 <= c < j ==> C[i, c] == M[i, c]
      {
        C[i, j] := M[i, j];
      }
    }
    ElementsAre(C, Elements(M));
  }

  /** matrix_scaling: a fresh buffer holding M with every entry multiplied by k. */
  method ScaleMatrix(M: array2<real>, k: real) returns (R: array2<real>)
    ensures fresh(R) && R.Length0 == M.Length0 && R.Length1 == M.Length1
    ensures Elements(R) == Scaled(Elements(M), M.Length0, M.Length1, k)
  {
    var m, n := M.Length0, M.Length1;
    R := CreateMatrix(m, n);
    for i := 0 to m
      invariant forall r, c :: 0 <= r < i && 0 <= c < n ==> R[r, c] == M[r, c] * k
    {
      for j := 0 to n
        invariant forall r, c :: 0 <= r < i && 0 <= c < n ==> R[r, c] == M[r, c] * k
        invariant forall c :: 0 <= c < j ==> R[i, c] == M[i, c] * k
      {
        R[i, j] := M[i, j] * k;
      }
    }
    ElementsAre(R, Scaled(Elements(M), m, n, k));
  }

  /** matrix_multiplication: the product of A (m×s) and B (s×n), accumulated
      entry by entry into a zero-initialised m×n buffer. */
  method MultiplyMatrices(A: array2<real>, B: array2<real>) returns (R: array2<real>)
    requires A.Length1 == B.Length0
    ensures fresh(R) && R.Length0 == A.Length0 && R.Length1 == B.Length1
    ensures Elements(R) == Product(Elements(A), Elements(B), A.Length0, A.Length1, B.Length1)
  {
    var m, s, n := A.Length0, A.Length1, B.Length1;
    ghost var a, b := Elements(A), Elements(B);
    R := CreateMatrix(m, n);
    for i := 0 to m
      invariant forall r, c :: 0 <= r < i && 0 <= c < n ==> R[r, c] == Dot(a, b, r, c, s)
      invariant forall r, c :: i <= r < m && 0 <= c < n ==> R[r, c] == 0.0
    {
      for j := 0 to n
        invariant forall r, c :: 0 <= r < i && 0 <= c < n ==> R[r, c] == Dot(a, b, r, c, s)
        invariant forall c :: 0 <= c < j ==> R[i, c] == Dot(a, b, i, c, s)
        invariant forall r, c :: i <= r < m && 0 <= c < n && (r > i || c >= j) ==> R[r, c] == 0.0
      {
        AccumulateDot(R, A, B, i, j);
      }
    }
    ElementsAre(R, Product(a, b, m, s, n));
  }

  /** The innermost loop of matrix_multiplication: adds row i of A times
      column j of B into R[i, j] and touches no other entry. */
  method AccumulateDot(R: array2<real>, A: array2<real>, B: array2<real>, i: nat, j: nat)
    requires R != A && R != B
    requires A.Length1 == B.Length0 && i < A.Length0 && i < R.Length0 && j < B.Length1 && j < R.Length1
    modifies R
    ensures R[i, j] == old(R[i, j]) + Dot(Elements(A), Elements(B), i, j, A.Length1)
    ensures forall r, c :: 0 <= r < R.Length0 && 0 <= c < R.Length1 && (r != i || c != j) ==> R[r, c] == old(R[r, c])
  {
    ghost var a, b := Elements(A), Elements(B);
    for t := 0 to A.Length1
      invariant R[i, j] == old(R[i, j]) + Dot(a, b, i, j, t)
      invariant forall r, c :: 0 <= r < R.Length0 && 0 <= c < R.Length1 && (r != i || c != j) ==> R[r, c] == old(R[r, c])
    {
      R[i, j] := R[i, j] + A[i, t] * B[t, j];
    }
  }

  /** matrix_transpose: a fresh n×m buffer holding the transpose of the m×n M. */
  method TransposeMatrix(M: array2<real>) returns (R: array2<real>)
    ensures fresh(R) && R.Length0 == M.Length1 && R.Length1 == M.Length0
    ensures Elements(R) == Transposed(Elements(M), M.Length0, M.Length1)
  {
    var m, n := M.Length0, M.Length1;
    R := CreateMatrix(n, m);
    for i := 0 to n
      invariant forall r, c :: 0 <= r < i && 0 <= c < m ==> R[r, c] == M[c, r]
    {
      for j := 0 to m
        invariant forall r, c :: 0 <= r < i && 0 <= c < m ==> R[r, c] == M[c, r]
        invariant forall c :: 0 <= c < j ==> R[i, c] == M[c, i]
      {
        R[i, j] := M[j, i];
      }
    }
    ElementsAre(R, Transposed(Elements(M), m, n));
  }

  /** matrix_trace: the sum of the diagonal of the square matrix M. */
  method MatrixTrace(M: array2<real>) returns (trace: real)
    requires M.Length0 == M.Length1
    ensures trace == Trace(Elements(M), M.Length0)
  {
    var n := M.Length0;
    ghost var e := Elements(M);
    trace := 0.0;
    for i := 0 to n
      invariant trace == DiagonalSum(e, n, i)
    {
      trace := trace + M[i, i];
    }
  }

  /** matrix_subtraction: a fresh buffer holding the entrywise difference A - B. */
  method SubtractMatrices(A: array2<real>, B: array2<real>) returns (R: array2<real>)
    requires A.Length0 == B.Length0 && A.Length1 == B.Length1
    ensures fresh(R) && R.Length0 == A.Length0 && R.Length1 == A.Length1
    ensures Elements(R) == Difference(Elements(A), Elements(B), A.Length0, A.Length1)
  {
    var m, n := A.Length0, A.Length1;
    R := CreateMatrix(m, n);
    for i := 0 to m
      invariant forall r, c :: 0 <= r < i && 0 <= c < n ==> R[r, c] == A[r, c] - B[r, c]
    {
      for j := 0 to n
        invariant forall r, c :: 0 <= r < i && 0 <= c < n ==> R[r, c] == A[r, c] - B[r, c]
        invariant forall c :: 0 <= c < j ==> R[i, c] == A[i, c] - B[i, c]
      {
        R[i, j] := A[i, j] - B[i, j];
      }
    }
    ElementsAre(R, Difference(Elements(A), Elements(B), m, n));
  }
}
