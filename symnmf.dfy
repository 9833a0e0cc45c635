/**
 * symnmf.c: update_H, frobenius_norm and converge_H on `array2<real>`
 * buffers, each proved to compute the matching function of module
 * Factorization. The only buffer any of them modifies is a freshly allocated
 * result (UpdateRow fills a row of the buffer UpdateH has just created), so
 * none changes its inputs.
 *
 * Three call sites of symnmf.c pass wrong dimensions or a wrong loop bound;
 * the predicates at the end of this module state what those calls do, and
 * the methods above them use the intended arguments.
 */
module SymNmf {
  import opened Matrix
  import opened Utils
  import opened Factorization

  /** update_H: a fresh n×k buffer holding the update of H against W. The four
      products are formed with the primitives of utils.c; H and W are unchanged. */
  method UpdateH(H: array2<real>, W: array2<real>) returns (next: array2<real>)
    requires W.Length0 == H.Length0 && W.Length1 == H.Length0
    requires Updatable(Elements(H), H.Length0, H.Length1)
    ensures fresh(next) && next.Length0 == H.Length0 && next.Length1 == H.Length1
    ensures Elements(next) == Update(Elements(H), Elements(W), H.Length0, H.Length1)
  {
    var n, k := H.Length0, H.Length1;
    var wh := MultiplyMatrices(W, H);
    var ht := TransposeMatrix(H);
    var hht := MultiplyMatrices(H, ht);
    var hhth := MultiplyMatrices(hht, H);
    ghost var spec := Update(Elements(H), Elements(W), n, k);
    assert Elements(hhth) == Denominators(Elements(H), n, k);
    next := CreateMatrix(n, k);
    for i := 0 to n
      modifies next
      invariant forall r, c :: 0 <= r < i && 0 <= c < k ==> next[r, c] == spec[r][c]
    {
      UpdateRow(next, H, wh, hhth, i);
    }
    ElementsAre(next, spec);
  }

  /** One pass of the outer loop of update_H: fills row i of next from the
      numerators WH and the denominators HHtH, leaving every other row alone. */
  method UpdateRow(next: array2<real>, H: array2<real>, WH: array2<real>, HHtH: array2<real>, i: nat)
    requires next != H && next != WH && next != HHtH
    requires i < H.Length0 && next.Length0 == H.Length0 && next.Length1 == H.Length1
    requires WH.Length0 == H.Length0 && WH.Length1 == H.Length1
    requires HHtH.Length0 == H.Length0 && HHtH.Length1 == H.Length1
    requires forall c :: 0 <= c < H.Length1 ==> HHtH[i, c] != 0.0
    modifies next
    ensures forall c :: 0 <= c < H.Length1 ==> next[i, c] == UpdatedEntry(H[i, c], WH[i, c], HHtH[i, c])
    ensures forall r, c :: 0 <= r < next.Length0 && 0 <= c < next.Length1 && r != i ==> next[r, c] == old(next[r, c])
  {
    for j := 0 to H.Length1
      invariant forall c :: 0 <= c < j ==> next[i, c] == UpdatedEntry(H[i, c], WH[i, c], HHtH[i, c])
      invariant forall r, c :: 0 <= r < next.Length0 && 0 <= c < next.Length1 && r != i ==> next[r, c] == old(next[r, c])
    {
      next[i, j] := H[i, j] * (1.0 - Beta + Beta * (WH[i, j] / HHtH[i, j]));
    }
  }

  /** frobenius_norm: sqrt of the trace of MᵀM, which is the Frobenius norm of M. */
  method FrobeniusNorm(M: array2<real>, sqrt: real -> real) returns (norm: real)
    ensures norm == Frobenius(Elements(M), M.Length0, M.Length1, sqrt)
  {
    var transpose := TransposeMatrix(M);
    var gram := MultiplyMatrices(transpose, M);
    var trace := MatrixTrace(gram);
    GramTrace(Elements(M), M.Length0, M.Length1, M.Length1);
    norm := sqrt(trace);
  }

  /** One pass of the loop of converge_H, entered after `iteration` steps on
      track for the run o: the next iterate, in a fresh buffer, and the
      Frobenius norm of its difference from prevH. A pass whose norm is below
      Epsilon leaves the loop finished; any other leaves it on track from the
      next iterate. */
  method Iterate(prevH: array2<real>, W: array2<real>, sqrt: real -> real, ghost iteration: nat, ghost o: Outcome)
    returns (curH: array2<real>, distance: real)
    requires W.Length0 == prevH.Length0 && W.Length1 == prevH.Length0 && iteration < MaxIter
    requires OnTrack(Elements(prevH), Elements(W), prevH.Length0, prevH.Length1, sqrt, iteration, o)
    ensures fresh(curH) && curH.Length0 == prevH.Length0 && curH.Length1 == prevH.Length1
    ensures if distance < Epsilon then Finished(Elements(curH), iteration + 1, o)
      else OnTrack(Elements(curH), Elements(W), prevH.Length0, prevH.Length1, sqrt, iteration + 1, o)
  {
    StepOnTrack(Elements(prevH), Elements(W), prevH.Length0, prevH.Length1, sqrt, iteration, o);
    curH := UpdateH(prevH, W);
    var distanceMatrix := SubtractMatrices(curH, prevH);
    distance := FrobeniusNorm(distanceMatrix, sqrt);
  }

  /** converge_H: runs the update loop on a deep copy of H0 and returns the last
      iterate, which is the factor of Run: H0 updated `iterations` times, with
      1 <= iterations <= 300, stopping after the first update whose change has
      Frobenius norm below Epsilon. H0 and W are unchanged. */
  method ConvergeH(H0: array2<real>, W: array2<real>, sqrt: real -> real)
    returns (H: array2<real>, ghost iterations: nat)
    requires W.Length0 == H0.Length0 && W.Length1 == H0.Length0
    requires Positive(Elements(H0), H0.Length0, H0.Length1) && NonNegative(Elements(W), W.Length0, W.Length1)
    ensures fresh(H) && H.Length0 == H0.Length0 && H.Length1 == H0.Length1
    ensures var o := Run(Elements(H0), Elements(W), H0.Length0, H0.Length1, sqrt, 0);
      Elements(H) == o.H && iterations == |o.distances|
    ensures ConvergedAfter(Elements(H0), Elements(W), H0.Length0, H0.Length1, sqrt, iterations, Elements(H))
  {
    hide ConvergedAfter;
    ghost var o := Run(Elements(H0), Elements(W), H0.Length0, H0.Length1, sqrt, 0);
    var prevH := DeepCopy(H0);
    H, iterations := Loop(prevH, W, sqrt, o);
    RunStopsAtFirstSmallChange(Elements(H0), Elements(W), H0.Length0, H0.Length1, sqrt);
  }

  /** The loop of converge_H from the copy prevH, on track for the run o from
      the start: it ends finished, with a fresh buffer holding the last iterate. */
  method Loop(prevH: array2<real>, W: array2<real>, sqrt: real -> real, ghost o: Outcome)
    returns (curH: array2<real>, ghost iteration: nat)
    requires W.Length0 == prevH.Length0 && W.Length1 == prevH.Length0
    requires OnTrack(Elements(prevH), Elements(W), prevH.Length0, prevH.Length1, sqrt, 0, o)
    ensures fresh(curH) && curH.Length0 == prevH.Length0 && curH.Length1 == prevH.Length1
    ensures Finished(Elements(curH), iteration, o)
  {
    hide OnTrack;
    var n, k := prevH.Length0, prevH.Length1;
    var count: nat := 0;
    var P := prevH;
    // cur_H is unset in the C code until the first update; the loop always runs once.
    curH := P;
    while count < MaxIter
      invariant P.Length0 == n && P.Length1 == k && curH == P
      invariant count <= MaxIter && (count > 0 ==> fresh(P))
      invariant OnTrack(Elements(P), Elements(W), n, k, sqrt, count, o)
      modifies {}
      decreases MaxIter - count
    {
      var frobeniusDistance;
      curH, frobeniusDistance := Iterate(P, W, sqrt, count, o);
      count := count + 1;
      if frobeniusDistance < Epsilon {
        break;
      }
      P := curH;
    }
    if count == MaxIter && curH == P {
      CapFinishes(Elements(P), Elements(W), n, k, sqrt, o);
    }
    iteration := count;
  }

  // The call sites of symnmf.c as written.

  /** The guard of the inner loop of update_H as written: `i < k`, where the
      column bound `j < k` is meant. */
  predicate InnerGuardAsWritten(i: int, j: int, k: int) {
    i < k
  }

  /** Whether the write next_H[i][j] falls inside the n×k buffer next_H. */
  predicate WriteInBounds(n: nat, k: nat, i: int, j: int) {
    0 <= i < n && 0 <= j < k
  }

  /** Row i of update_H as written writes only inside next_H exactly when
      i >= k: for a row i < k the guard `i < k` holds at every column, so the
      loop goes on to write next_H[i][k], one past the last column; for a row
      i >= k it writes nothing and the row keeps its zeros. The corrected
      guard j < k of UpdateRow stays inside the buffer for every row. */
  lemma InnerGuardAsWrittenWritesOutside(n: nat, k: nat, i: nat)
    requires i < n
    ensures (forall j :: 0 <= j && InnerGuardAsWritten(i, j, k) ==> WriteInBounds(n, k, i, j)) <==> i >= k
    ensures i < k ==> InnerGuardAsWritten(i, k, k) && !WriteInBounds(n, k, i, k)
    ensures forall j :: 0 <= j < k ==> WriteInBounds(n, k, i, j)
  {
    if i < k {
      assert InnerGuardAsWritten(i, k, k) && !WriteInBounds(n, k, i, k);
    }
  }

  /** Whether the call matrix_transpose(M, m, n) reads only inside a rows×cols
      buffer M: it reads M[j][i] for every j < m and i < n. */
  predicate TransposeCallInBounds(rows: nat, cols: nat, m: nat, n: nat) {
    m == 0 || n == 0 || (m <= rows && n <= cols)
  }

  /** update_H calls matrix_transpose(prev_H, k, n) on the n×k buffer prev_H;
      for non-empty dimensions that call stays in bounds exactly when n == k.
      UpdateH transposes the n×k factor as such. */
  lemma UpdateTransposeAsWritten(n: nat, k: nat)
    requires n >= 1 && k >= 1
    ensures TransposeCallInBounds(n, k, k, n) <==> n == k
    ensures TransposeCallInBounds(n, k, n, k)
  {
  }

  /** Whether the call matrix_multiplication(A, B, m, s, n) reads only inside the
      aRows×aCols buffer A and the bRows×bCols buffer B: it reads A[i][t] and
      B[t][j] for every i < m, t < s and j < n. */
  predicate MultiplyCallInBounds(aRows: nat, aCols: nat, bRows: nat, bCols: nat, m: nat, s: nat, n: nat) {
    m == 0 || s == 0 || n == 0 || (m <= aRows && s <= aCols && s <= bRows && n <= bCols)
  }

  /** frobenius_norm(matrix, m, n) multiplies the n×m transpose by the m×n matrix
      with dimensions (m, n, m); for non-empty dimensions that call stays in
      bounds exactly when m == n, and converge_H calls it with (n, k).
      FrobeniusNorm forms the n×n product with dimensions (n, m, n). */
  lemma FrobeniusMultiplyAsWritten(m: nat, n: nat)
    requires m >= 1 && n >= 1
    ensures MultiplyCallInBounds(n, m, m, n, m, n, m) <==> m == n
    ensures MultiplyCallInBounds(n, m, m, n, n, m, n)
  {
  }
}
