/**
 * The multiplicative-update rule of symmetric non-negative matrix
 * factorisation and the run of its convergence loop, as pure functions on
 * matrix values; module SymNmf proves the methods of symnmf.c against them.
 * Starting from an n×k factor H0 and the n×n normalised matrix W, every
 * step replaces H by
 *   next[i][j] = H[i][j] * (1 - β + β * (W·H)[i][j] / (H·Hᵀ·H)[i][j]),  β = 0.5,
 * and the loop stops after the first step whose change has Frobenius norm
 * below 1e-4, or after 300 steps.
 *
 * `sqrt` is the C library function, passed in and left uninterpreted. The
 * division in the update is not guarded by the C code; Update requires every
 * denominator to be non-zero (Updatable), and Run requires a positive start
 * and a non-negative W, which keep every iterate positive and so every
 * denominator non-zero.
 */
module Factorization {
  import opened Matrix

  /** The mixing factor β of the update rule. */
  const Beta: real := 0.5
  /** The convergence threshold, compared with the Frobenius norm of the change. */
  const Epsilon: real := 0.0001
  /** The iteration cap. */
  const MaxIter: nat := 300

  /** W·H, the numerators of the update. */
  function Numerators(H: Matrix, W: Matrix, n: nat, k: nat): (N: Matrix)
    requires IsMatrix(H, n, k) && IsMatrix(W, n, n)
    ensures IsMatrix(N, n, k)
  {
    Product(W, H, n, n, k)
  }

  /** H·Hᵀ·H, the denominators of the update. */
  function Denominators(H: Matrix, n: nat, k: nat): (D: Matrix)
    requires IsMatrix(H, n, k)
    ensures IsMatrix(D, n, k)
  {
    Product(Product(H, Transposed(H, n, k), n, k, n), H, n, n, k)
  }

  /** No denominator of the update of H is zero. */
  predicate Updatable(H: Matrix, n: nat, k: nat)
    requires IsMatrix(H, n, k)
  {
    var D := Denominators(H, n, k);
    forall i, j :: 0 <= i < n && 0 <= j < k ==> D[i][j] != 0.0
  }

  /** The update of one entry h of the factor with numerator wh and
      denominator hhth: h * (1 - β + β * wh / hhth). */
  function UpdatedEntry(h: real, wh: real, hhth: real): real
    requires hhth != 0.0
  {
    h * (1.0 - Beta + Beta * (wh / hhth))
  }

  /** One multiplicative update of H against W. */
  function Update(H: Matrix, W: Matrix, n: nat, k: nat): (N: Matrix)
    requires IsMatrix(H, n, k) && IsMatrix(W, n, n) && Updatable(H, n, k)
    ensures IsMatrix(N, n, k)
  {
    var WH, HHtH := Numerators(H, W, n, k), Denominators(H, n, k);
    seq(n, i requires 0 <= i < n => seq(k, j requires 0 <= j < k =>
      UpdatedEntry(H[i][j], WH[i][j], HHtH[i][j])))
  }

  /** A positive factor and a non-negative W: every denominator is positive, so
      the update is defined, and the updated factor is positive again. */
  lemma UpdatePositive(H: Matrix, W: Matrix, n: nat, k: nat)
    requires IsMatrix(H, n, k) && IsMatrix(W, n, n)
    requires Positive(H, n, k) && NonNegative(W, n, n)
    ensures Positive(Denominators(H, n, k), n, k) && Updatable(H, n, k)
    ensures Positive(Update(H, W, n, k), n, k)
  {
    var Ht := Transposed(H, n, k);
    var HHt := Product(H, Ht, n, k, n);
    var WH, HHtH := Numerators(H, W, n, k), Denominators(H, n, k);
    forall i, j | 0 <= i < n && 0 <= j < k
      ensures HHtH[i][j] > 0.0 && WH[i][j] >= 0.0
    {
      forall l | 0 <= l < n
        ensures HHt[i][l] > 0.0
      {
        DotPositive(H, Ht, i, l, k);
      }
      DotPositive(HHt, H, i, j, n);
      DotNonNegative(W, H, i, j, n);
    }
    forall i, j | 0 <= i < n && 0 <= j < k
      ensures Update(H, W, n, k)[i][j] > 0.0
    {
      var q := WH[i][j] / HHtH[i][j];
      assert q >= 0.0;
      assert 1.0 - Beta + Beta * q > 0.0;
    }
  }

  /** The update keeps a factor non-negative when the numerators are
      non-negative and the denominators positive. */
  lemma UpdateNonNegative(H: Matrix, W: Matrix, n: nat, k: nat)
    requires IsMatrix(H, n, k) && IsMatrix(W, n, n)
    requires NonNegative(H, n, k) && NonNegative(Numerators(H, W, n, k), n, k)
    requires Positive(Denominators(H, n, k), n, k)
    ensures Updatable(H, n, k)
    ensures NonNegative(Update(H, W, n, k), n, k)
  {
    var WH, HHtH := Numerators(H, W, n, k), Denominators(H, n, k);
    forall i, j | 0 <= i < n && 0 <= j < k
      ensures Update(H, W, n, k)[i][j] >= 0.0
    {
      var q := WH[i][j] / HHtH[i][j];
      assert q >= 0.0;
      assert 1.0 - Beta + Beta * q > 0.0;
    }
  }

  /** The sum of the squares of the first t entries of column j of M. */
  function ColumnSquares(M: Matrix, m: nat, n: nat, j: nat, t: nat): real
    requires IsMatrix(M, m, n) && j < n && t <= m
  {
    if t == 0 then 0.0 else ColumnSquares(M, m, n, j, t - 1) + M[t - 1][j] * M[t - 1][j]
  }

  /** The sum of the squares of the entries of the first c columns of M. */
  function SumOfSquares(M: Matrix, m: nat, n: nat, c: nat): real
    requires IsMatrix(M, m, n) && c <= n
  {
    if c == 0 then 0.0 else SumOfSquares(M, m, n, c - 1) + ColumnSquares(M, m, n, c - 1, m)
  }

  /** The Frobenius norm of the m×n matrix M: the square root of the sum of
      the squares of its entries. */
  function Frobenius(M: Matrix, m: nat, n: nat, sqrt: real -> real): real
    requires IsMatrix(M, m, n)
  {
    sqrt(SumOfSquares(M, m, n, n))
  }

  /** Diagonal entry j of MᵀM is the sum of squares of column j of M. */
  lemma {:induction false} GramDiagonal(M: Matrix, m: nat, n: nat, j: nat, t: nat)
    requires IsMatrix(M, m, n) && j < n && t <= m
    ensures Dot(Transposed(M, m, n), M, j, j, t) == ColumnSquares(M, m, n, j, t)
  {
    if t > 0 {
      GramDiagonal(M, m, n, j, t - 1);
    }
  }

  /** The trace of MᵀM is the sum of the squares of the entries of M. */
  lemma {:induction false} GramTrace(M: Matrix, m: nat, n: nat, c: nat)
    requires IsMatrix(M, m, n) && c <= n
    ensures DiagonalSum(Product(Transposed(M, m, n), M, n, m, n), n, c) == SumOfSquares(M, m, n, c)
  {
    if c > 0 {
      GramTrace(M, m, n, c - 1);
      GramDiagonal(M, m, n, c - 1, m);
    }
  }

  /** A sum of squares is never negative. */
  lemma {:induction false} ColumnSquaresNonNegative(M: Matrix, m: nat, n: nat, j: nat, t: nat)
    requires IsMatrix(M, m, n) && j < n && t <= m
    ensures ColumnSquares(M, m, n, j, t) >= 0.0
  {
    if t > 0 {
      ColumnSquaresNonNegative(M, m, n, j, t - 1);
    }
  }

  /** The square of a real is never negative. */
  lemma SquareNonNegative(x: real)
    ensures x * x >= 0.0
  {
  }

  /** The sum of squares of the first t entries of column j is at least the
      square of each of those entries. */
  lemma {:induction false} ColumnSquaresAtLeast(M: Matrix, m: nat, n: nat, j: nat, t: nat, r: nat)
    requires IsMatrix(M, m, n) && j < n && r < t <= m
    ensures ColumnSquares(M, m, n, j, t) >= M[r][j] * M[r][j]
  {
    if r < t - 1 {
      ColumnSquaresAtLeast(M, m, n, j, t - 1, r);
      SquareNonNegative(M[t - 1][j]);
    } else {
      ColumnSquaresNonNegative(M, m, n, j, t - 1);
    }
  }

  /** The sum of squares of the first c columns is never negative. */
  lemma {:induction false} SumOfSquaresNonNegative(M: Matrix, m: nat, n: nat, c: nat)
    requires IsMatrix(M, m, n) && c <= n
    ensures SumOfSquares(M, m, n, c) >= 0.0
  {
    if c > 0 {
      SumOfSquaresNonNegative(M, m, n, c - 1);
      ColumnSquaresNonNegative(M, m, n, c - 1, m);
    }
  }

  /** The sum of squares of the first c columns is at least the square of
      each entry of those columns. */
  lemma {:induction false} SumOfSquaresAtLeast(M: Matrix, m: nat, n: nat, c: nat, r: nat, s: nat)
    requires IsMatrix(M, m, n) && c <= n && r < m && s < c
    ensures SumOfSquares(M, m, n, c) >= M[r][s] * M[r][s]
  {
    if s < c - 1 {
      SumOfSquaresAtLeast(M, m, n, c - 1, r, s);
      ColumnSquaresNonNegative(M, m, n, c - 1, m);
    } else {
      SumOfSquaresNonNegative(M, m, n, c - 1);
      ColumnSquaresAtLeast(M, m, n, c - 1, m, r);
    }
  }

  /** The zero matrix has a zero sum of squares. */
  lemma {:induction false} SumOfSquaresOfZero(M: Matrix, m: nat, n: nat, c: nat)
    requires IsMatrix(M, m, n) && c <= n
    requires forall i, j :: 0 <= i < m && 0 <= j < n ==> M[i][j] == 0.0
    ensures SumOfSquares(M, m, n, c) == 0.0
  {
    if c > 0 {
      SumOfSquaresOfZero(M, m, n, c - 1);
      ColumnSquaresOfZero(M, m, n, c - 1, m);
    }
  }

  /** A zero column has a zero sum of squares. */
  lemma {:induction false} ColumnSquaresOfZero(M: Matrix, m: nat, n: nat, j: nat, t: nat)
    requires IsMatrix(M, m, n) && j < n && t <= m
    requires forall i :: 0 <= i < m ==> M[i][j] == 0.0
    ensures ColumnSquares(M, m, n, j, t) == 0.0
  {
    if t > 0 {
      ColumnSquaresOfZero(M, m, n, j, t - 1);
    }
  }

  /** The sum of squares of M is never negative, bounds the square of every
      entry of M, and is zero when every entry of M is zero. */
  lemma SumOfSquaresBounds(M: Matrix, m: nat, n: nat)
    requires IsMatrix(M, m, n)
    ensures SumOfSquares(M, m, n, n) >= 0.0
    ensures forall i, j :: 0 <= i < m && 0 <= j < n ==> SumOfSquares(M, m, n, n) >= M[i][j] * M[i][j]
    ensures (forall i, j :: 0 <= i < m && 0 <= j < n ==> M[i][j] == 0.0) ==> SumOfSquares(M, m, n, n) == 0.0
  {
    SumOfSquaresNonNegative(M, m, n, n);
    forall i, j | 0 <= i < m && 0 <= j < n
      ensures SumOfSquares(M, m, n, n) >= M[i][j] * M[i][j]
    {
      SumOfSquaresAtLeast(M, m, n, n, i, j);
    }
    if forall i, j :: 0 <= i < m && 0 <= j < n ==> M[i][j] == 0.0 {
      SumOfSquaresOfZero(M, m, n, n);
    }
  }

  /** The Frobenius norm of the change made by one step from H to next. */
  function Distance(next: Matrix, H: Matrix, n: nat, k: nat, sqrt: real -> real): real
    requires IsMatrix(next, n, k) && IsMatrix(H, n, k)
  {
    Frobenius(Difference(next, H, n, k), n, k, sqrt)
  }

  /** The run of the loop: the factor it returns and the norm of each step's change. */
  datatype Outcome = Outcome(H: Matrix, distances: seq<real>)

  /** The loop of converge_H entered with factor H after `iteration` steps:
      its guard. At the cap it returns H, the factor the last step computed;
      below it, it makes one more pass. It makes at most MaxIter - iteration
      passes, and at least one when below the cap; every pass but the last
      changed the factor by at least Epsilon, and the last one by less than
      Epsilon unless the loop reached the cap. */
  function Run(H: Matrix, W: Matrix, n: nat, k: nat, sqrt: real -> real, iteration: nat): (o: Outcome)
    requires IsMatrix(H, n, k) && IsMatrix(W, n, n) && iteration <= MaxIter
    requires Positive(H, n, k) && NonNegative(W, n, n)
    decreases MaxIter - iteration, 2
    ensures |o.distances| <= MaxIter - iteration
    ensures iteration < MaxIter ==> 1 <= |o.distances|
    ensures forall t :: 0 <= t < |o.distances| - 1 ==> o.distances[t] >= Epsilon
    ensures |o.distances| > 0 ==> o.distances[|o.distances| - 1] < Epsilon || |o.distances| == MaxIter - iteration
    ensures IsMatrix(o.H, n, k) && Positive(o.H, n, k)
  {
    if iteration < MaxIter then Pass(H, W, n, k, sqrt, iteration) else Outcome(H, [])
  }

  /** One pass of the body of the loop from H: the update, then the test of
      the norm of its change. */
  function Pass(H: Matrix, W: Matrix, n: nat, k: nat, sqrt: real -> real, iteration: nat): (o: Outcome)
    requires IsMatrix(H, n, k) && IsMatrix(W, n, n) && iteration < MaxIter
    requires Positive(H, n, k) && NonNegative(W, n, n)
    decreases MaxIter - iteration, 1
    ensures 1 <= |o.distances| <= MaxIter - iteration
    ensures forall t :: 0 <= t < |o.distances| - 1 ==> o.distances[t] >= Epsilon
    ensures o.distances[|o.distances| - 1] < Epsilon || |o.distances| == MaxIter - iteration
    ensures IsMatrix(o.H, n, k) && Positive(o.H, n, k)
    ensures Updatable(H, n, k) && o.distances[0] == Distance(Update(H, W, n, k), H, n, k, sqrt)
  {
    UpdatePositive(H, W, n, k);
    Check(Update(H, W, n, k), Distance(Update(H, W, n, k), H, n, k, sqrt), W, n, k, sqrt, iteration)
  }

  /** The end of a pass that computed next, whose change has norm d: the
      break when d is below Epsilon; otherwise the loop goes on from next. */
  function Check(next: Matrix, d: real, W: Matrix, n: nat, k: nat, sqrt: real -> real, iteration: nat): (o: Outcome)
    requires IsMatrix(next, n, k) && IsMatrix(W, n, n) && iteration < MaxIter
    requires Positive(next, n, k) && NonNegative(W, n, n)
    decreases MaxIter - iteration, 0
    ensures 1 <= |o.distances| <= MaxIter - iteration
    ensures o.distances[0] == d
    ensures forall t :: 0 <= t < |o.distances| - 1 ==> o.distances[t] >= Epsilon
    ensures o.distances[|o.distances| - 1] < Epsilon || |o.distances| == MaxIter - iteration
    ensures IsMatrix(o.H, n, k) && Positive(o.H, n, k)
  {
    if d < Epsilon then
      Outcome(next, [d])
    else
      var rest := Run(next, W, n, k, sqrt, iteration + 1);
      Outcome(rest.H, [d] + rest.distances)
  }

  /** H after t updates against W; every iterate of a positive factor is
      positive, so each update is defined. */
  function Iterated(H: Matrix, W: Matrix, n: nat, k: nat, t: nat): (P: Matrix)
    requires IsMatrix(H, n, k) && IsMatrix(W, n, n)
    requires Positive(H, n, k) && NonNegative(W, n, n)
    ensures IsMatrix(P, n, k) && Positive(P, n, k)
  {
    if t == 0 then H
    else
      var P := Iterated(H, W, n, k, t - 1);
      UpdatePositive(P, W, n, k);
      Update(P, W, n, k)
  }

  /** Updating first and then t times is updating t + 1 times. */
  lemma {:induction false} IteratedShift(H: Matrix, W: Matrix, n: nat, k: nat, t: nat)
    requires IsMatrix(H, n, k) && IsMatrix(W, n, n)
    requires Positive(H, n, k) && NonNegative(W, n, n)
    ensures Updatable(H, n, k) && Positive(Update(H, W, n, k), n, k)
    ensures Iterated(Update(H, W, n, k), W, n, k, t) == Iterated(H, W, n, k, t + 1)
  {
    UpdatePositive(H, W, n, k);
    if t > 0 {
      IteratedShift(H, W, n, k, t - 1);
    }
  }

  /** The Frobenius norm of the change made by update t + 1 from H. */
  function Change(H: Matrix, W: Matrix, n: nat, k: nat, sqrt: real -> real, t: nat): real
    requires IsMatrix(H, n, k) && IsMatrix(W, n, n)
    requires Positive(H, n, k) && NonNegative(W, n, n)
  {
    Distance(Iterated(H, W, n, k, t + 1), Iterated(H, W, n, k, t), n, k, sqrt)
  }

  /** The first two iterates, and the change of the first update. */
  lemma IteratedFirst(H: Matrix, W: Matrix, n: nat, k: nat, sqrt: real -> real)
    requires IsMatrix(H, n, k) && IsMatrix(W, n, n)
    requires Positive(H, n, k) && NonNegative(W, n, n)
    ensures Updatable(H, n, k) && Positive(Update(H, W, n, k), n, k)
    ensures Iterated(H, W, n, k, 0) == H && Iterated(H, W, n, k, 1) == Update(H, W, n, k)
    ensures Change(H, W, n, k, sqrt, 0) == Distance(Update(H, W, n, k), H, n, k, sqrt)
  {
    UpdatePositive(H, W, n, k);
  }

  /** The change of update t + 1 from Update(H) is that of update t + 2 from H. */
  lemma ChangeShift(H: Matrix, W: Matrix, n: nat, k: nat, sqrt: real -> real, t: nat)
    requires IsMatrix(H, n, k) && IsMatrix(W, n, n)
    requires Positive(H, n, k) && NonNegative(W, n, n)
    ensures Updatable(H, n, k) && Positive(Update(H, W, n, k), n, k)
    ensures Change(Update(H, W, n, k), W, n, k, sqrt, t) == Change(H, W, n, k, sqrt, t + 1)
  {
    IteratedShift(H, W, n, k, t);
    IteratedShift(H, W, n, k, t + 1);
  }

  /** One unfolding of the run: nothing at the cap; otherwise the update,
      and the rest of the run from it unless its change is below Epsilon. */
  lemma RunUnfolds(H: Matrix, W: Matrix, n: nat, k: nat, sqrt: real -> real, iteration: nat)
    requires IsMatrix(H, n, k) && IsMatrix(W, n, n) && iteration <= MaxIter
    requires Positive(H, n, k) && NonNegative(W, n, n)
    ensures Updatable(H, n, k) && Positive(Update(H, W, n, k), n, k)
    ensures iteration == MaxIter ==> Run(H, W, n, k, sqrt, iteration) == Outcome(H, [])
    ensures iteration < MaxIter && Distance(Update(H, W, n, k), H, n, k, sqrt) < Epsilon ==>
      Run(H, W, n, k, sqrt, iteration) == Outcome(Update(H, W, n, k), [Distance(Update(H, W, n, k), H, n, k, sqrt)])
    ensures iteration < MaxIter && Distance(Update(H, W, n, k), H, n, k, sqrt) >= Epsilon ==>
      var rest := Run(Update(H, W, n, k), W, n, k, sqrt, iteration + 1);
      Run(H, W, n, k, sqrt, iteration) == Outcome(rest.H, [Distance(Update(H, W, n, k), H, n, k, sqrt)] + rest.distances)
  {
    UpdatePositive(H, W, n, k);
    if iteration < MaxIter {
      var N := Update(H, W, n, k);
      assert Run(H, W, n, k, sqrt, iteration) == Pass(H, W, n, k, sqrt, iteration)
        == Check(N, Distance(N, H, n, k, sqrt), W, n, k, sqrt, iteration);
    }
  }

  /** The changes recorded from Update(H) onward, preceded by the change d of
      the update of H itself, are the changes of the iterates of H. */
  lemma ShiftedCharacterisation(H: Matrix, W: Matrix, n: nat, k: nat, sqrt: real -> real, d: real, rest: Outcome)
    requires IsMatrix(H, n, k) && IsMatrix(W, n, n)
    requires Positive(H, n, k) && NonNegative(W, n, n)
    requires Updatable(H, n, k) && Positive(Update(H, W, n, k), n, k)
    requires d == Distance(Update(H, W, n, k), H, n, k, sqrt)
    requires rest.H == Iterated(Update(H, W, n, k), W, n, k, |rest.distances|)
    requires forall t :: 0 <= t < |rest.distances| ==> rest.distances[t] == Change(Update(H, W, n, k), W, n, k, sqrt, t)
    ensures rest.H == Iterated(H, W, n, k, |rest.distances| + 1)
    ensures forall t :: 0 <= t < |rest.distances| + 1 ==> ([d] + rest.distances)[t] == Change(H, W, n, k, sqrt, t)
  {
    hide Update, Distance, Positive, Iterated, Change;
    IteratedShift(H, W, n, k, |rest.distances|);
    IteratedFirst(H, W, n, k, sqrt);
    forall t | 0 <= t < |rest.distances| + 1
      ensures ([d] + rest.distances)[t] == Change(H, W, n, k, sqrt, t)
    {
      if t > 0 {
        assert ([d] + rest.distances)[t] == rest.distances[t - 1];
        ChangeShift(H, W, n, k, sqrt, t - 1);
      }
    }
  }

  /** The run follows the real iterates of the update: step t's recorded
      change is the Frobenius norm of the difference between the iterates
      t + 1 and t, and the run returns the iterate after its last step. */
  lemma {:induction false} RunCharacterised(H: Matrix, W: Matrix, n: nat, k: nat, sqrt: real -> real, iteration: nat)
    requires IsMatrix(H, n, k) && IsMatrix(W, n, n) && iteration <= MaxIter
    requires Positive(H, n, k) && NonNegative(W, n, n)
    decreases MaxIter - iteration
    ensures var o := Run(H, W, n, k, sqrt, iteration);
      o.H == Iterated(H, W, n, k, |o.distances|) &&
      forall t :: 0 <= t < |o.distances| ==> o.distances[t] == Change(H, W, n, k, sqrt, t)
  {
    hide Run, Pass, Check, Update, Distance, Iterated, Positive, Change;
    RunUnfolds(H, W, n, k, sqrt, iteration);
    IteratedFirst(H, W, n, k, sqrt);
    var N := Update(H, W, n, k);
    var d := Distance(N, H, n, k, sqrt);
    if iteration < MaxIter && d >= Epsilon {
      RunCharacterised(N, W, n, k, sqrt, iteration + 1);
      ShiftedCharacterisation(H, W, n, k, sqrt, d, Run(N, W, n, k, sqrt, iteration + 1));
    }
  }

  /** H is what converge_H promises after s updates from a positive H0: the
      iterate s, positive, with 1 <= s <= 300, where every update before s
      changed the factor by at least Epsilon in Frobenius norm and update s
      changed it by less unless it was update 300. */
  predicate ConvergedAfter(H0: Matrix, W: Matrix, n: nat, k: nat, sqrt: real -> real, s: nat, H: Matrix)
    requires IsMatrix(H0, n, k) && IsMatrix(W, n, n)
    requires Positive(H0, n, k) && NonNegative(W, n, n)
  {
    1 <= s <= MaxIter && H == Iterated(H0, W, n, k, s) && Positive(H, n, k) &&
    (forall t :: 0 <= t < s - 1 ==> Change(H0, W, n, k, sqrt, t) >= Epsilon) &&
    (Change(H0, W, n, k, sqrt, s - 1) < Epsilon || s == MaxIter)
  }

  /** The run of converge_H from a positive H0 ends as ConvergedAfter says,
      after as many updates as it records changes. */
  lemma RunStopsAtFirstSmallChange(H0: Matrix, W: Matrix, n: nat, k: nat, sqrt: real -> real)
    requires IsMatrix(H0, n, k) && IsMatrix(W, n, n)
    requires Positive(H0, n, k) && NonNegative(W, n, n)
    ensures var o := Run(H0, W, n, k, sqrt, 0);
      ConvergedAfter(H0, W, n, k, sqrt, |o.distances|, o.H)
  {
    hide Change, Iterated, Update, Distance;
    var o := Run(H0, W, n, k, sqrt, 0);
    var s := |o.distances|;
    RunCharacterised(H0, W, n, k, sqrt, 0);
    assert o.H == Iterated(H0, W, n, k, s);
    forall t | 0 <= t < s - 1
      ensures Change(H0, W, n, k, sqrt, t) >= Epsilon
    {
      assert o.distances[t] >= Epsilon;
    }
    assert o.distances[s - 1] == Change(H0, W, n, k, sqrt, s - 1);
  }

  /** The loop of converge_H entered with factor P after `iteration` steps
      ends as the run o does: with the same factor, after the same total
      number of steps. */
  predicate OnTrack(P: Matrix, W: Matrix, n: nat, k: nat, sqrt: real -> real, iteration: nat, o: Outcome)
  {
    IsMatrix(P, n, k) && IsMatrix(W, n, n) && iteration <= MaxIter &&
    Positive(P, n, k) && NonNegative(W, n, n) &&
    Run(P, W, n, k, sqrt, iteration).H == o.H &&
    iteration + |Run(P, W, n, k, sqrt, iteration).distances| == |o.distances|
  }

  /** The loop has left with factor C after `iteration` steps, as the run o ends. */
  predicate Finished(C: Matrix, iteration: nat, o: Outcome) {
    C == o.H && iteration == |o.distances|
  }

  /** One pass of the loop keeps it on track for the run o: a pass that breaks
      leaves it finished with the factor it computed, any other leaves it on
      track from that factor. */
  lemma StepOnTrack(P: Matrix, W: Matrix, n: nat, k: nat, sqrt: real -> real, iteration: nat, o: Outcome)
    requires OnTrack(P, W, n, k, sqrt, iteration, o) && iteration < MaxIter
    ensures Updatable(P, n, k)
    ensures var next := Update(P, W, n, k);
      if Distance(next, P, n, k, sqrt) < Epsilon then Finished(next, iteration + 1, o)
      else OnTrack(next, W, n, k, sqrt, iteration + 1, o)
  {
    UpdatePositive(P, W, n, k);
    assert Run(P, W, n, k, sqrt, iteration) == Pass(P, W, n, k, sqrt, iteration)
      == Check(Update(P, W, n, k), Distance(Update(P, W, n, k), P, n, k, sqrt), W, n, k, sqrt, iteration);
  }

  /** At the cap the loop ends with the factor it holds. */
  lemma CapFinishes(P: Matrix, W: Matrix, n: nat, k: nat, sqrt: real -> real, o: Outcome)
    requires OnTrack(P, W, n, k, sqrt, MaxIter, o)
    ensures Finished(P, MaxIter, o)
  {
  }

  /** A factor that the update leaves as it is stops the loop after one step,
      with a change of norm sqrt(0) = 0. */
  lemma FixedPointStops(H: Matrix, W: Matrix, n: nat, k: nat, sqrt: real -> real, iteration: nat)
    requires IsMatrix(H, n, k) && IsMatrix(W, n, n) && iteration < MaxIter
    requires Positive(H, n, k) && NonNegative(W, n, n)
    requires Updatable(H, n, k) && Update(H, W, n, k) == H
    requires sqrt(0.0) == 0.0
    ensures Run(H, W, n, k, sqrt, iteration) == Outcome(H, [0.0])
  {
    DifferenceWithSelfIsZero(H, n, k);
    SumOfSquaresOfZero(Zero(n, k), n, k, k);
    assert Distance(H, H, n, k, sqrt) == 0.0;
    assert Run(H, W, n, k, sqrt, iteration) == Pass(H, W, n, k, sqrt, iteration)
      == Check(H, 0.0, W, n, k, sqrt, iteration);
  }
}
