# SymNMF and k-means, modelled in Dafny

This project models the two numeric pipelines of the SymNMF repository and
proves properties of the models.

**SymNMF in C.** The pipeline has five stages:

- the similarity matrix of a point set, a Gaussian kernel with a zero diagonal (`sym.c`);
- its degree matrix (`diagonal.c`);
- the normalised matrix W = D^-1/2 · A · D^-1/2 (`norm.c`);
- the multiplicative-update loop that factorises W ≈ H·Hᵀ (`symnmf.c`);
- the dense-matrix primitives behind all of these (`utils.c`).

**k-means in Python.** `kmeans.py` and `kmeans_hw1.py` hold the Point, Cluster and ClusterManager classes and the `kmeans` driver.

Each C routine is modelled as a Dafny method on `array2<real>`, proved to
produce exactly a pure function of its inputs' contents (`Elements`). Most
routines allocate a fresh result buffer and fill it with nested loops. Their
methods modify only that fresh buffer, so they cannot change their inputs.
There are two exceptions:

- `matrix_trace` (`Utils.MatrixTrace`) allocates nothing and returns a number;
- `diagonal_matrix_exponentiation` (`Norm.DiagonalMatrixExponentiation`) works in place on the matrix it is given (`modifies D`).

The row and loop helpers (`Utils.AccumulateDot`, `Sym.SimilarityRow`,
`Norm.DiagonalProductRow`, `SymNmf.UpdateRow`) modify the result buffer their
caller has just allocated.

The pure functions are in modules Matrix and Factorization, and the lemmas
about them carry the properties:

- transposing twice gives back the matrix;
- the similarity and normalised matrices are symmetric;
- the degree matrix is diagonal;
- the trace of MᵀM is the sum of the squares of M's entries;
- the update keeps a positive factor positive;
- `converge_H` returns the start factor updated s times, 1 ≤ s ≤ 300, where update s is the first whose change has Frobenius norm below 1e-4, or s = 300.

The k-means classes are Dafny classes with the same fields. A ghost field
`members` records the points a cluster has accumulated since its last
finalisation. The driver is proved to compute the pure run `Kmeans.Rounds`,
which is characterised separately by these facts:

- it makes rounds up to the first that converges, or up to `iter` of them;
- each round assigns every point to exactly one cluster, its closest;
- each centroid moves to the mean of its points.

`exp`, `pow` and `sqrt` are function-valued parameters left uninterpreted. A
member that needs a fact about them, such as `pow(x, 2) == x * x` or
`sqrt(0) == 0`, states it in its `requires`. The k-means classes take the
square of a coordinate difference as a parameter:

- `kmeans.py` multiplies the difference by itself (`Kmeans.SelfProduct`);
- `kmeans_hw1.py` calls `pow(x, 2)` (`KmeansHw1.PowSquare`).

Both files therefore share one model of their identical classes.

The model follows the code where its own comment disagrees with it:
`diagonal_matrix_exponentiation` is documented as not modifying its input
(norm.c:30), but it overwrites its diagonal in place (norm.c:39-41).
`norm_matrix` calls it on a deep copy, so the caller's degree matrix stays
intact.

Two more facts about the code shape the model:

- The convergence test of `converge_H` compares sqrt(trace(ΔᵀΔ)), the Frobenius norm itself, with 1e-4 (symnmf.c:42, symnmf.c:60).
- `norm_matrix` applies pow(d, -0.5) with no guard for a zero degree (norm.c:40).

Modules: Matrix (pure matrices), Utils (utils.c), Sym (sym.c), Diagonal
(diagonal.c), Norm (norm.c), Factorization (the update rule and run of
symnmf.c), SymNmf (symnmf.c), Kmeans (kmeans.py and the classes shared with
kmeans_hw1.py), KmeansHw1 (kmeans_hw1.py).

## Model

| member | source | states |
|---|---|---|
| Matrix.TransposeInvolutive | utils.c:95-115 | transposing an m×n matrix and then the n×m result gives back the matrix |
| Matrix.DifferenceWithSelfIsZero | utils.c:181-202 | subtracting a matrix from itself gives the zero matrix |
| Matrix.DotNonNegative | utils.c:85-91 | a dot product of a non-negative row and column is non-negative |
| Matrix.DotPositive | utils.c:85-91 | a non-empty dot product of a positive row and column is positive |
| Utils.CreateMatrix | utils.c:4-23 | a fresh m×n buffer whose entries are all 0 |
| Utils.DeepCopy | utils.c:25-44 | a fresh buffer of the same shape holding the same entries; the source is unchanged |
| Utils.ScaleMatrix | utils.c:46-66 | a fresh buffer holding every entry multiplied by the constant; the input is unchanged |
| Utils.MultiplyMatrices | utils.c:68-93 | a fresh m×n buffer whose entry (i, j) is the sum over t < s of A[i][t]·B[t][j]; inputs unchanged |
| Utils.AccumulateDot | utils.c:87-89 | the innermost loop adds the dot product of row i and column j to entry (i, j) and changes no other entry |
| Utils.TransposeMatrix | utils.c:95-115 | a fresh n×m buffer with R[i][j] = M[j][i]; the input is unchanged |
| Utils.MatrixTrace | utils.c:117-132 | the sum of the diagonal entries of a square buffer |
| Utils.SubtractMatrices | utils.c:181-202 | a fresh buffer holding the coordinate-wise difference; inputs unchanged |
| Sym.SquaredDistanceSymmetric | sym.c:13-18 | the squared distance does not depend on the order of the two points |
| Sym.SquaredDistanceNonNegative | sym.c:13-18 | the squared distance is never negative |
| Sym.SquaredDistanceToSelf | sym.c:13-18 | a point is at squared distance 0 from itself |
| Sym.EuclideanDistanceSquared | sym.c:4-19 | with pow(x, 2) = x·x, the loop returns the sum of squared coordinate differences of two points |
| Sym.SimilaritySymmetric | sym.c:40-49 | the similarity matrix is symmetric |
| Sym.SimilarityInUnitInterval | sym.c:43-45 | with exp mapping non-positive arguments into (0, 1], every off-diagonal similarity is in (0, 1] |
| Sym.SimilarityOfEqualPoints | sym.c:43-45 | two identical points have similarity exp(0) |
| Sym.SimilarityMatrix | sym.c:23-51 | a fresh n×n buffer equal to the similarity matrix: exp(-dist²/2) off the diagonal, 0 on it; the points are unchanged |
| Sym.SimilarityRow | sym.c:41-48 | one pass of the outer loop fills row i with its similarities and leaves the other rows alone |
| Diagonal.DegreeIsDiagonal | diagonal.c:27-37 | the degree matrix has zeros off the diagonal and row sum i at (i, i) |
| Diagonal.RowSumNonNegative | diagonal.c:14-16 | a row of non-negative similarities has a non-negative sum |
| Diagonal.RowSumPositive | diagonal.c:14-16 | a non-negative row with one positive entry has a positive sum |
| Diagonal.DegreePositive | diagonal.c:33-36 | for two or more points with positive off-diagonal similarities, every degree is positive |
| Diagonal.MatrixRowSum | diagonal.c:4-18 | the loop returns the sum of row i |
| Diagonal.DiagonalMatrix | diagonal.c:20-38 | a fresh n×n buffer equal to the degree matrix of S; S is unchanged |
| Norm.NormalizedByDiagonalScaling | norm.c:56-59 | scaling A by D^-1/2 on the left and then on the right gives A[i][j]·pow(d_i, -1/2)·pow(d_j, -1/2) |
| Norm.NormalizedSymmetric | norm.c:51-59 | a symmetric A gives a symmetric normalised matrix |
| Norm.NormalizedNonNegative | norm.c:56-59 | non-negative similarities and non-negative scaling factors give a non-negative normalised matrix |
| Norm.DiagonalMatrixMultiplication | norm.c:6-25 | a fresh buffer with R[i][j] = M[i][j]·D[i][i] for direction 0 and M[i][j]·D[j][j] otherwise; inputs unchanged |
| Norm.DiagonalProductRow | norm.c:19-23 | one pass of the outer loop fills row i and leaves the other rows alone |
| Norm.DiagonalMatrixExponentiation | norm.c:29-43 | raises each diagonal entry of D to the power e in place, keeps every other entry, and returns D itself |
| Norm.NormMatrix | norm.c:45-65 | a fresh buffer equal to the normalised matrix; the caller's D is unchanged because the exponentiation runs on a copy |
| Factorization.UpdatePositive | symnmf.c:16-26 | for H > 0 and W ≥ 0 every denominator H·Hᵀ·H of the update is positive, and the updated factor is positive |
| Factorization.UpdateNonNegative | symnmf.c:24 | H ≥ 0, W·H ≥ 0 and H·Hᵀ·H > 0 make the update defined and non-negative |
| Factorization.GramDiagonal | symnmf.c:39-41 | diagonal entry j of MᵀM is the sum of squares of column j of M |
| Factorization.GramTrace | symnmf.c:35-43 | the trace of MᵀM is the sum of the squares of all entries of M |
| Factorization.ColumnSquaresNonNegative | symnmf.c:35-43 | a column's sum of squares is never negative |
| Factorization.ColumnSquaresAtLeast | symnmf.c:35-43 | a column's sum of squares bounds the square of each of its entries |
| Factorization.SumOfSquaresNonNegative | symnmf.c:35-43 | the sum of squares of a matrix is never negative |
| Factorization.SumOfSquaresAtLeast | symnmf.c:35-43 | the sum of squares bounds the square of every entry |
| Factorization.SumOfSquaresOfZero | symnmf.c:35-43 | the zero matrix has sum of squares 0 |
| Factorization.ColumnSquaresOfZero | symnmf.c:35-43 | a zero column has sum of squares 0 |
| Factorization.SumOfSquaresBounds | symnmf.c:35-43 | the squared Frobenius norm is ≥ 0, ≥ the square of each entry, and 0 for the zero matrix |
| Factorization.Run | symnmf.c:51-66 | the loop from step `iteration` makes at most 300 - iteration passes, and at least one below the cap; every recorded change but the last is at least 1e-4 and the last is below 1e-4 unless the cap was reached; the factor it returns is positive |
| Factorization.Pass | symnmf.c:55-58 | one loop body from a positive H: the update is defined, the first recorded change is the Frobenius norm of Update(H) − H, and the bounds, stopping rule and positive result of Run hold |
| Factorization.Check | symnmf.c:60-63 | the break test records the norm of the change first and stops exactly when that norm is below 1e-4 |
| Factorization.StepOnTrack | symnmf.c:54-64 | one pass from a factor on track for the run either finishes the run with the new factor or stays on track from it |
| Factorization.Iterated | symnmf.c:55-58 | every iterate of the update from a positive factor against a non-negative W is defined and positive |
| Factorization.IteratedShift | symnmf.c:54-64 | updating once and then t times gives the iterate t + 1 |
| Factorization.RunCharacterised | symnmf.c:51-66 | the run follows the real iterates: recorded change t is the Frobenius norm of iterate t + 1 minus iterate t, and the run returns the iterate after its last step |
| Factorization.RunStopsAtFirstSmallChange | symnmf.c:46-67 | from a positive H0 the run makes s updates, 1 ≤ s ≤ 300, and returns iterate s, which is positive; every update before s changed H by at least 1e-4 in Frobenius norm, and update s by less unless s = 300 |
| Factorization.CapFinishes | symnmf.c:54 | at the cap of 300 the loop ends with the factor the run returns |
| Factorization.FixedPointStops | symnmf.c:56-62 | a factor the update leaves unchanged stops the loop after one pass with change 0 |
| SymNmf.UpdateH | symnmf.c:8-33 | a fresh n×k buffer equal to the multiplicative update with β = 0.5; H and W are unchanged |
| SymNmf.UpdateRow | symnmf.c:22-26 | one pass of the outer loop, run over columns j < k, fills row i with the updated entries and leaves the other rows alone |
| SymNmf.FrobeniusNorm | symnmf.c:35-43 | sqrt of the trace of MᵀM equals sqrt of the sum of squares of M, which is the Frobenius norm |
| SymNmf.Iterate | symnmf.c:55-62 | one loop body from a factor on track: a change below 1e-4 finishes the run, any other stays on track |
| SymNmf.Loop | symnmf.c:54-66 | the loop ends finished: it returns the last computed iterate after as many passes as the run makes |
| SymNmf.ConvergeH | symnmf.c:46-67 | returns a fresh buffer holding H0 updated `iterations` times, 1 ≤ iterations ≤ 300, which is positive; every update before the last changed H by at least 1e-4 in Frobenius norm, and the last by less unless it was update 300; H0 and W are unchanged |
| SymNmf.InnerGuardAsWrittenWritesOutside | symnmf.c:22-26 | row i of the loop as written writes only inside the n×k buffer exactly when i ≥ k: for i < k the guard `i < k` holds at column k, whose write is outside; the guard j < k keeps every write inside |
| SymNmf.UpdateTransposeAsWritten | symnmf.c:17 | matrix_transpose(prev_H, k, n) on an n×k buffer stays in bounds exactly when n = k; the call with (n, k) always does |
| SymNmf.FrobeniusMultiplyAsWritten | symnmf.c:39-41 | the product with dimensions (m, n, m) of the n×m transpose and the m×n matrix stays in bounds exactly when m = n; (n, m, n) always does |
| Kmeans.Add | kmeans.py:41-54 | a new point, built by a push per coordinate, holding p[i] + q[i] for every coordinate of p |
| Kmeans.SumCommutes | kmeans.py:41-54 | adding points of one dimension is commutative |
| Kmeans.SumOfZeros | kmeans.py:91-103 | adding a point to the zero accumulator of dimension d gives its first d coordinates |
| Kmeans.Divide | kmeans.py:56-71 | a new point, built by a push per coordinate, holding p[i] / num, for num ≠ 0 |
| Kmeans.QuotientByOne | kmeans.py:56-71 | dividing a point by 1 gives it back |
| Kmeans.EuclideanDistance | kmeans.py:27-39 | the loop returns sqrt of the sum of squared coordinate differences over the coordinates of p |
| Kmeans.SquaredDistanceSymmetric | kmeans.py:36-38 | with an even square, the sum of squared differences does not depend on the order of the points |
| Kmeans.DistanceSymmetric | kmeans.py:27-39 | with an even square, the distance between points of one dimension is symmetric |
| Kmeans.SquaredDistanceToSelf | kmeans.py:36-38 | with square(0) = 0, the sum of squared differences of a point with itself is 0 |
| Kmeans.DistanceToSelf | kmeans.py:27-39 | with square(0) = 0 and sqrt(0) = 0, a point is at distance 0 from itself |
| Kmeans.SelfProductLaws | kmeans.py:38 | the square of kmeans.py is even and maps 0 to 0, so its distance is symmetric and 0 to itself |
| Kmeans.TotalAppend | kmeans.py:102 | adding one more point to a cluster adds it to the running total |
| Kmeans.MeanOfOne | kmeans.py:113-114 | the mean of one point is that point |
| Kmeans.ClosestAmongStep | kmeans.py:140-144 | one step of the scan: the next centroid replaces the best exactly when strictly nearer, keeping the lowest-index minimum |
| Kmeans.ClosestUnique | kmeans.py:129-145 | at most one index is both a minimum and strictly nearer than every earlier index |
| Kmeans.ClosestFrom | kmeans.py:140-144 | the scan from any prefix where best is the lowest-index minimum returns the lowest-index minimum of all centroids |
| Kmeans.Closest | kmeans.py:129-145 | the index of a centroid at minimal distance from the point, the lowest such index |
| Kmeans.AssignedAreClosest | kmeans.py:223-225 | every point assigned to centroid c is one of the points and has c as its closest centroid |
| Kmeans.AssignedAppend | kmeans.py:223-225 | one more point is added to the points of its closest centroid and of no other |
| Kmeans.AssignedCountStep | kmeans.py:223-225 | one more point adds one to the clusters before n exactly when its closest centroid is before n |
| Kmeans.AssignedCountOfNone | kmeans.py:223 | with no points no cluster receives any |
| Kmeans.AssignedPartition | kmeans.py:223-225 | each point is assigned to exactly one cluster: the clusters together hold as many points as there are |
| Kmeans.LonePointBecomesCentroid | kmeans.py:113-114 | a cluster that received exactly one point moves onto that point |
| Kmeans.Rounds | kmeans.py:222-234 | the loop makes at most `remaining` rounds, at least one when any remain, and keeps the number and dimension of the centroids |
| Kmeans.RoundsCharacterised | kmeans.py:222-234 | the run returns the centroids after its last round; no round before the last converged; the last converged unless all rounds were used |
| Kmeans.StableCentroidsStop | kmeans.py:227-234 | centroids that a round leaves in place stop the run after one round, when square(0) = sqrt(0) = 0 |
| Kmeans.RoundOnTrack | kmeans.py:222-234 | one round on track for a run finishes it with the next centroids when it converges, and stays on track otherwise |
| Kmeans.RoundsExhausted | kmeans.py:222 | a loop on track that has used all iter rounds ends as the run does |
| Kmeans.SquaredDistanceOfSameSquare | kmeans_hw1.py:19-23 | two squares that agree on every argument give the same squared distances |
| Kmeans.ClosestOfSameSquare | kmeans_hw1.py:78-86 | squares that agree choose the same closest centroid |
| Kmeans.AssignedOfSameSquare | kmeans_hw1.py:130-132 | squares that agree assign the same points to every centroid |
| Kmeans.RoundOfSameSquare | kmeans_hw1.py:129-141 | squares that agree make a round with the same next centroids and the same convergence verdict |
| Kmeans.RoundsOfSameSquare | kmeans_hw1.py:129-141 | squares that agree make the same run |
| Kmeans.Cluster.constructor | kmeans.py:91-94 | a cluster at the given centroid with a zero total of its dimension and a count of 0 |
| Kmeans.Cluster.UpdateCentroid | kmeans.py:96-103 | the total becomes total + point and the count grows by exactly 1; the centroid does not move; total and count stay those of the members (the same in kmeans_hw1.py:57-59) |
| Kmeans.Cluster.FinalizeNextCentroidPos | kmeans.py:105-117 | with no points it returns 0 and changes nothing; otherwise the centroid becomes total / count, which is the mean of the members, the accumulators reset to zero, and it returns the distance moved (the same in kmeans_hw1.py:61-68) |
| Kmeans.ClusterManager.constructor | kmeans.py:126-127 | a manager with no clusters |
| Kmeans.ClusterManager.ClosestCluster | kmeans.py:129-145 | the index of a minimal-distance centroid, the lowest one on ties, because of the strict comparison (the same in kmeans_hw1.py:78-86) |
| Kmeans.ClusterManager.UpdateNextCentroidPosition | kmeans.py:147-154 | the cluster at the index receives the point; no other object changes (the same in kmeans_hw1.py:88-89) |
| Kmeans.ClusterManager.Push | kmeans.py:156-162 | appends the cluster to the list of clusters (the same in kmeans_hw1.py:91-92) |
| Kmeans.ClusterManager.ClustersToList | kmeans.py:167-176 | the centroids of the clusters, in order (the same in kmeans_hw1.py:97-101) |
| Kmeans.AssignPoint | kmeans.py:224-225 | the point goes to the cluster of its closest centroid; no centroid moves and no other cluster changes |
| Kmeans.AssignPoints | kmeans.py:223-225 | after the assignment loop every cluster holds exactly the points whose closest centroid it has, in order; no centroid moves |
| Kmeans.FinalizeCluster | kmeans.py:229 | finalising cluster j moves it to its next centroid and returns its shift |
| Kmeans.FinalizeClusters | kmeans.py:227-231 | after the finalisation loop every centroid is its next centroid, and the round converges exactly when no shift exceeds 1e-4 |
| Kmeans.SeedClusters | kmeans.py:216-220 | K fresh, empty clusters centred on the first K points |
| Kmeans.Round | kmeans.py:223-231 | one round moves the centroids from cs to Next of cs and reports whether it converged |
| Kmeans.ClusterPoints | kmeans.py:216-236 | returns the centroids of the run from the first K points with at most iter rounds (the same in kmeans_hw1.py:123-143) |
| Kmeans.Kmeans | kmeans.py:206-236 | exits with "Invalid maximum iteration!" for iter outside (1, 1000), else with "Invalid number of clusters!" for K outside (1, |points|), else returns the run's centroids |
| Kmeans.KmeansShape | kmeans.py:218-236 | a successful run returns K centroids of the points' dimension after 1 to iter rounds |
| KmeansHw1.PowSquareIsSelfProduct | kmeans_hw1.py:22 | with pow(x, 2) = x·x, the square of kmeans_hw1.py agrees with that of kmeans.py |
| KmeansHw1.PowDistanceLaws | kmeans_hw1.py:19-23 | with pow(x, 2) = x·x and sqrt(0) = 0, the distance is symmetric and 0 from a point to itself |
| KmeansHw1.Kmeans | kmeans_hw1.py:104-143 | None exactly when iter is outside (1, 1000) or K outside (1, |points|); otherwise the run's centroids |
| KmeansHw1.AgreesWithKmeans | kmeans_hw1.py:104-143 | with pow(x, 2) = x·x, the run of kmeans_hw1.py is the run of kmeans.py |

## Left out

- File input and output are parameters or absent. That covers `read_points` and the file reading inside `kmeans_hw1.kmeans`, `print_matrix`, `__str__`/`__repr__`, the printed messages, and the `__main__`/argparse handling. `exit(1)` in kmeans.py becomes the result `Exit(message)`.
- Memory management (`free_matrix`, `free_continuous_matrix` and their calls in symnmf.c and norm.c) is absent. Dafny is garbage-collected; the model keeps only "fresh result, inputs unchanged".
- IEEE floating point is absent: rounding, NaN and infinity (from pow(0, -0.5) or a zero denominator) and the numeric values of `exp`, `pow`, `sqrt`. These functions are uninterpreted, and C `int` sizes are unbounded naturals.
- symnmfmodule.c, symnmf.py, analysis.py and setup.py are not part of this model. They are the CPython binding, command-line code, numpy/sklearn scoring and build configuration. utils.h and symnmf.h only declare.
- The unused `multiprocessing.Value` import of kmeans.py is not part of this model.
- `Point.push` and `ClusterManager.__iter__` have no members of their own. Push is the sequence append inside `Add` and `Divide`, and iteration is an index loop.
- Points are values. In the source a Point wraps a list that may be shared, but only the fresh list inside `__add__`/`__truediv__` is ever appended to, so no sharing is observable.
- `type(iter) != int`, `type(K) != int` (kmeans_hw1.py:105, 119) and `assert type(num) == int` (kmeans.py:65) always pass, because K, iter and num are Dafny integers.
- Kmeans.Kmeans: requires all points to have one dimension. With ragged input the source raises IndexError or compares coordinate prefixes, and that behaviour is not modelled.
- KmeansHw1.Kmeans: requires all points to have one dimension, for the same reason.
- Kmeans.ClusterManager.UpdateNextCentroidPosition: requires 0 <= centroid_id. Python would also accept a negative index counting from the end, but the driver only passes results of `closest_cluster`.
- SymNmf.ConvergeH: requires H0 > 0 and W ≥ 0 entrywise, which is stronger than the C code needs. C needs only every denominator of every step to be non-zero; positivity is what guarantees that (Factorization.UpdatePositive).
- Factorization.Run: requires positive H and non-negative W, for the same reason.
- Factorization.SumOfSquaresBounds: does not state the converse "sum of squares 0 implies the zero matrix". It states a lower bound by each entry's square instead, from which that converse follows for reals.
- Utils, Sym, Diagonal, Norm and SymNmf methods: the C dimension arguments (m, n, s, num_points, k) are the dimensions of the buffers passed in. A call whose dimension arguments differ from the allocation is not modelled, except for the three call sites under "## Findings", whose bounds are stated by separate predicates.
- converge_H leaves `cur_H` unset when `max_iter` is 0. With max_iter = 300 the loop always runs, so this is not modelled.

## Findings

| source | as written | input that shows it | evidently intended | confidence | as-written member | corrected member |
|---|---|---|---|---|---|---|
| symnmf.c:23 | the inner loop of update_H tests `i < k` | n = 1, k = 1: in row 0 the guard holds at every column, so column 1, past the 1×1 buffer next_H, is written | `j < k` | not executed | SymNmf.InnerGuardAsWrittenWritesOutside | SymNmf.UpdateRow |
| symnmf.c:17 | `matrix_transpose(prev_H, k, n)` on the n×k factor | n = 2, k = 1: the call reads prev_H[0][1], past the single column | `matrix_transpose(prev_H, n, k)`, giving the k×n transpose | not executed | SymNmf.UpdateTransposeAsWritten | SymNmf.UpdateH |
| symnmf.c:40 | `matrix_multiplication(transpose, matrix, m, n, m)` for the n×m transpose times the m×n matrix | m = 2, n = 1 (converge_H passes n = 2, k = 1): it reads transpose[1][0], past the single row | `matrix_multiplication(transpose, matrix, n, m, n)` and a trace over n | not executed | SymNmf.FrobeniusMultiplyAsWritten | SymNmf.FrobeniusNorm |
