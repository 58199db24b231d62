# Verified kernels of Feel++'s linear algebra

This project models the self-contained numerical kernels and the distributed sparsity-graph code under
`feel/feelalg`, and the point-set symmetries of two scripts under `applications/polyvis`, and proves what they
compute. `double` is modelled by exact `real`; nothing here is about rounding. Loops that update arrays or
members are methods over arrays or class fields; each is proved against a specification that is stated
independently of the code.

## What is modelled

* **Sparse LDL'** (`Pattern`, `LdlSteps`, `LdlValues`, `LdlSweeps`, `SparseLdl`). The symbolic pass builds the
  elimination tree while it counts; the numeric pass walks the finished tree, stacks every row pattern in
  topological order and writes each column in place. `Pattern.Fill` defines the fill-in of the factor by
  elimination alone, without a tree; the tree, the counts and the visited nodes are proved to be exactly the ones
  this definition gives. The factors read back from the arrays multiply to the matrix (with duplicate entries
  summed), a zero pivot is reported exactly when the matrix has no such factorization, and the three sweeps give
  the one solution. The mathematics of elimination is in `Factor` and `Systems`.
* **Dense Cholesky** (`Cholesky`): success exactly for positive definite matrices, and a witness for every failure.
* **Dense LU with partial pivoting** (`Permutations`, `LuSteps`, `LuPicks`, `LuSystems`, `Determinant`,
  `LuDeterminant`, `DenseLu`): the factorization for every shape and rank and which rows it picks, the determinant
  against an independent definition by cofactors, the solves and the inverse, also for matrices with more rows than
  columns.
* **Quasi-Newton minimization** (`Vectors`, `InverseHessian`, `Bfgs`, `SearchEnds`): the limited-storage operator in
  both variants, the Wolfe line search and when it ends, and the outer loop over whole runs.
* **Dirichlet elimination** (`Dirichlet`, `ZeroRowsDense`, `ZeroRowsSparse`, `ZeroRowsAgree`): what rewriting the
  system means, the dense and the two-pass sparse form, and exactly when the two agree.
* **Closing a sparsity graph** (`OrderedSets`, `GraphRows`, `SparsityGraph`, `Exchange`, `GraphClose`): counting and
  packing, the message exchange as interleaved process steps in which sends may block, unpacking and merging, and
  the compressed row arrays. A run of all processes leaves every owner with the union of what anybody recorded.
* **Block numbering and block graphs** (`Intervals`, `DataMaps`, `BlockGraph`, `BlockClose`, `GraphDiagonal`): the
  numbering each process derives for the rows of a block matrix, the block graph on one process, assembled and closed,
  and the added diagonal.
* **Point-set symmetries** (`Dihedral`, `Simplex`, `Hypercube`): the index maps act as the dihedral groups of order
  six and eight, for every order.

`Sums` and `Matrices` hold finite sums and two-dimensional arrays.

## Where the code falls short of its intent

Each of these is a property one would expect, false in the code as written; the project gives the exact condition
under which it holds, and an input on which it fails.

* The sparse elimination subtracts a column from every row, also from the rows of unknowns listed earlier, whose
  right hand side is already final. It agrees with the dense one exactly if every listed diagonal is stored, every
  nonzero of a listed row is mirrored in the pattern, and no listed unknown is coupled to one listed later
  (`ZeroRowsAgree.SparseMatchesDenseIff`, `ZeroRowsAgree.CoupledExample`).
* Elimination that keeps the diagonal leaves an unknown free when its diagonal is zero
  (`Dirichlet.MeaningKeptIff`, `Dirichlet.UnpinnedExample`).
* `solve` documents that L\*U\*x is the permuted right hand side. With more rows than columns the substitutions only
  see the first n rows, and the result solves the other equations exactly if the system has a solution
  (`LuSystems.SolvesAllIff`, `LuSystems.ContradictingExample`).
* The line search is only given up at values up to twice the first one. With the true gradient of a smooth function
  that is bounded below it always ends (`SearchEnds.SmoothEnds`). At a kink, or with a gradient that a blocked pass
  left from an earlier trial, it still ends from every positive value (`SearchEnds.PositiveEnds`); from a value that is
  not positive it need not, even for a convex function with subgradients (`SearchEnds.EndsIffPositive`,
  `SearchEnds.KinkNeverEnds`).
* `close()` does not update the row sizes and their maximum, recorded before the exchange
  (`GraphClose.RecordedSizeRightIff`, `GraphClose.RecordedMaximumRightIff`, `GraphClose.StaleSizeExample`).
* The column map's last numbers are set with the emptiness test of the wrong process
  (`DataMaps.ColumnOwnerFoundIff`, `DataMaps.MissedOwnerExample`).
* `addMissingZeroEntriesDiagonal` looks up the first row instead of the current one, so a created row gets no owner
  (`GraphDiagonal.StaysWellFormedIff`, `GraphDiagonal.OwnerlessExample`).
* `npoints` of the simplex script counts a point for order 0 and below (`Simplex.NPointsRightIff`).

`close()` writes `ia = [0]` for a process with at most one row and no entry, also when that process owns a row; the
contract of `SparsityGraph.GraphCSR.BuildArrays` says so.

## Model

| member | source | states |
|---|---|---|
| Factor.FactorsExist | feel/feelalg/ldl.hpp:344-405 | with nonzero earlier pivots, the eliminated values give a unit lower L and a diagonal D with L\*D\*L' equal to the matrix |
| Factor.FactorsUnique | feel/feelalg/ldl.hpp:253-275 | any unit lower L and diagonal D with L\*D\*L' = A and nonzero earlier pivots are the computed ones |
| Factor.PivotsNonzeroIffFactorable | feel/feelalg/ldl.hpp:342-405 | all pivots are nonzero exactly if A is L\*D\*L' for some unit lower L and nonvanishing D: what return value n means |
| Systems.SweepsSolve | feel/feelalg/ldl.hpp:203-211 | a vector that passes the three triangular and diagonal systems is the one solution of A\*x = b |
| Systems.SweptAll | feel/feelalg/ldl.hpp:411-425 | after all columns, the swept vector times L is the right hand side |
| Systems.PositiveDefiniteIffPivots | feel/feelalg/cholesky.hpp:57-81 | a symmetric matrix is positive definite exactly if every elimination pivot is positive |
| Systems.WitnessQuad | feel/feelalg/cholesky.hpp:60-66 | the vector that maps to the k-th unit vector has the k-th pivot as its quadratic form |
| Pattern.ColumnRowsAscend | feel/feelalg/ldl.hpp:382-399 | the predicted rows of a column are its filled rows, strictly ascending |
| Pattern.ParentIsLeast | feel/feelalg/ldl.hpp:293-310 | the parent of i is the least k with L(k,i) structurally nonzero; none exactly if there is no such k |
| Pattern.FillClimbs | feel/feelalg/ldl.hpp:306-314 | Liu's path lemma: a filled node's parent is at most k, and filled in row k if it is before k |
| Pattern.FillFromChild | feel/feelalg/ldl.hpp:292-315 | a filled node that is not stored is the parent of a filled node: fill only comes along tree paths |
| Pattern.ClosedSetIsRow | feel/feelalg/ldl.hpp:292-315 | a set with the stored entries of column k that is closed under parents holds every filled node of row k |
| Pattern.EntryIsStored | feel/feelalg/ldl.hpp:360-366 | the entries the elimination starts from are the sums of the values stored in the column for the row |
| Pattern.StoredOnce | feel/feelalg/ldl.hpp:360-366 | a row stored at one position only has the value stored there |
| Pattern.NotStored | feel/feelalg/ldl.hpp:360-366 | a row the column does not store is zero |
| LdlSteps.VisitStep | feel/feelalg/ldl.hpp:306-314 | one step of a path walk keeps the tree and the counts exact for the nodes visited so far, and climbs |
| LdlSteps.VisitComplete | feel/feelalg/ldl.hpp:290-317 | after the column's entries are walked, parents and counts are those of the first k + 1 rows |
| LdlSteps.ColumnsDisjoint | feel/feelalg/ldl.hpp:319-325 | the slots of different columns of L do not overlap |
| LdlValues.PatternCoversValues | feel/feelalg/ldl.hpp:378-399 | an eliminated value off the fill pattern is zero |
| LdlValues.ClimbStep | feel/feelalg/ldl.hpp:368-372 | recording one node of a path keeps nodes distinct, marked and filled, and leaves room before the stack |
| LdlValues.PathOnStack | feel/feelalg/ldl.hpp:368-374 | a path moved onto the stack keeps every node before its ancestors |
| LdlValues.AncestorsDeeper | feel/feelalg/ldl.hpp:382-399 | every node that contributes to a stacked node lies above it on the stack |
| LdlValues.StackComplete | feel/feelalg/ldl.hpp:360-376 | when the column is scattered, the stack holds each filled node of the row exactly once |
| LdlValues.PopIsFinal | feel/feelalg/ldl.hpp:384-386 | the workspace value of a node is the eliminated value when the node is popped |
| LdlValues.ColumnPush | feel/feelalg/ldl.hpp:396-398 | storing L(k,i) at the end of column i keeps every column exact and touches no other column |
| LdlValues.PopStep | feel/feelalg/ldl.hpp:384-395 | after a pop the remaining nodes still owe exactly the columns not yet subtracted |
| LdlValues.PendingEnd | feel/feelalg/ldl.hpp:379-402 | with the stack empty, D(k) is the k-th pivot and the workspace is zero |
| LdlSweeps.FactorsRead | feel/feelalg/ldl.hpp:378-404 | L looked up in the column arrays and D multiply back to the matrix on the rows processed |
| LdlSweeps.StoredLIsL | feel/feelalg/ldl.hpp:396-397 | looking an entry up in the arrays gives the entry of L, and zero where nothing is stored |
| LdlSweeps.SweepsGiveSolution | feel/feelalg/ldl.hpp:206-211 | forward, diagonal and backward sweeps over the stored columns give the one solution |
| SparseLdl.Ldl.constructor | feel/feelalg/ldl.hpp:174-192 | arrays of the sizes the passes need |
| SparseLdl.Ldl.ValidMatrix | feel/feelalg/ldl.hpp:546-573 | true exactly for nondecreasing column pointers and row indices in range |
| SparseLdl.Ldl.MarkNode | feel/feelalg/ldl.hpp:307-314 | one node of a path gets its parent, its count and its mark, and the walk goes on strictly above it |
| SparseLdl.Ldl.MarkPath | feel/feelalg/ldl.hpp:307-314 | the walk terminates and marks the path up to a marked node, extending tree and counts exactly |
| SparseLdl.Ldl.VisitRow | feel/feelalg/ldl.hpp:292-317 | tree, counts and marks are exact for one more row |
| SparseLdl.Ldl.Symbolic | feel/feelalg/ldl.hpp:277-329 | Parent is the elimination tree, Lp the starts for the exact column sizes, for every valid matrix |
| SparseLdl.Ldl.WalkPath | feel/feelalg/ldl.hpp:368-372 | the recorded path never reaches the stack; its nodes are marked once, each before its parent |
| SparseLdl.Ldl.MovePath | feel/feelalg/ldl.hpp:374 | the scratch prefix is put in front of the stack in its own order, the rest unchanged |
| SparseLdl.Ldl.PushPath | feel/feelalg/ldl.hpp:368-374 | walking and moving keep the stack distinct, marked and topological |
| SparseLdl.Ldl.ScatterColumn | feel/feelalg/ldl.hpp:352-376 | Y holds column k of the stored matrix, duplicates summed; the stack is the row pattern in topological order |
| SparseLdl.Ldl.SubtractColumn | feel/feelalg/ldl.hpp:387-392 | exactly the stored column times yi is subtracted |
| SparseLdl.Ldl.EliminateNode | feel/feelalg/ldl.hpp:385-395 | L(k,i) is the entry of the factor; its column leaves Y and its share leaves D(k) |
| SparseLdl.Ldl.StoreEntry | feel/feelalg/ldl.hpp:387-398 | column i gains L(k,i) as its next entry and no other column changes |
| SparseLdl.Ldl.PopNode | feel/feelalg/ldl.hpp:384-398 | L(k,i) is finished and stored, and its share leaves the pivot |
| SparseLdl.Ldl.PopAll | feel/feelalg/ldl.hpp:382-399 | every stacked node is finished and stored, in stack order, and D(k) owes nothing more |
| SparseLdl.Ldl.NumericRow | feel/feelalg/ldl.hpp:350-402 | D(k) is the pivot; if it is nonzero, row k is factorized and the workspace is clear again |
| SparseLdl.Ldl.FactorRows | feel/feelalg/ldl.hpp:350-404 | the loop stops at the first vanishing pivot with every row before it factorized |
| SparseLdl.Ldl.Numeric | feel/feelalg/ldl.hpp:344-405 | L and D read from the arrays satisfy L\*D\*L' = A on the rows processed, A being the stored matrix, D is zero at the returned row, and n is returned exactly if A is factorable |
| SparseLdl.Ldl.LSolve | feel/feelalg/ldl.hpp:412-425 | the in-place forward sweep solves with L |
| SparseLdl.Ldl.DSolve | feel/feelalg/ldl.hpp:432-440 | every coordinate is divided by its pivot |
| SparseLdl.Ldl.GatherColumn | feel/feelalg/ldl.hpp:453-458 | coordinate j loses exactly the stored column times the solved coordinates |
| SparseLdl.Ldl.LtSolve | feel/feelalg/ldl.hpp:447-460 | the in-place backward sweep solves with L' |
| SparseLdl.Ldl.Solve | feel/feelalg/ldl.hpp:206-211 | the right hand side is overwritten with the unique x such that A\*x = b for the stored matrix A |
| Cholesky.Reduced | feel/feelalg/cholesky.hpp:60-77 | subtracting the products of computed columns leaves the eliminated value |
| Cholesky.GramIsMatrix | feel/feelalg/cholesky.hpp:57-81 | with positive pivots L\*L' is the matrix given by the lower triangle of A |
| Cholesky.FailureWitness | feel/feelalg/cholesky.hpp:63-66 | a nonpositive pivot k gives a nonzero x on the first k + 1 coordinates with x'\*A\*x <= 0 |
| Cholesky.FillColumn | feel/feelalg/cholesky.hpp:70-77 | column k of L below and on the diagonal, nothing else changed |
| Cholesky.CholeskyDecompose | feel/feelalg/cholesky.hpp:45-82 | 0 exactly for positive definite A, then L\*L' = A with positive diagonal, as a full product if the upper triangle of L was zero; 1 + k only with the leading k rows definite, their columns finished and a failure witness; nothing above the diagonal or from the failing column on is written |
| Permutations.SwapKeepsPermutation | feel/feelalg/lu.hpp:313-315 | exchanging two entries of a permutation leaves a permutation |
| Permutations.SwapFlips | feel/feelalg/lu.hpp:313-316 | exchanging any two entries flips the parity of the inversions |
| LuSteps.ExchangeKeeps | feel/feelalg/lu.hpp:304-315 | exchanging rows of the packed factors and of piv keeps every factored column, bounds included |
| LuSteps.DivideFactors | feel/feelalg/lu.hpp:319-327 | dividing by the pivot, or not when it is zero, turns the reduced column into a factored one |
| LuSteps.AllReduced | feel/feelalg/lu.hpp:272-290 | after the dot products the column holds what the earlier columns leave of the permuted matrix |
| LuPicks.ExchangeKeepsFirst | feel/feelalg/lu.hpp:304-315 | later exchanges do not change which row of a column was the first of the largest |
| LuPicks.PickNext | feel/feelalg/lu.hpp:292-327 | one column more: piv is the outcome of picking in every column the first of the largest rows, every row that stood before it having a multiplier below 1 |
| DenseLu.LU.constructor | feel/feelalg/lu.hpp:234-329 | for any shape and rank: piv a permutation, A(piv(i),j) the sum of L(i,k)\*U(k,j), multipliers at most 1, pivsign the parity of piv; piv is the outcome of picking the first of the largest entries in every column |
| DenseLu.LU.Factorize | feel/feelalg/lu.hpp:262-328 | one column at a time the factorization, the parity, the determinant sign and the choice of the pivots are kept |
| DenseLu.LU.ApplyPrevious | feel/feelalg/lu.hpp:265-290 | column j is reduced by all earlier columns, the others unchanged |
| DenseLu.LU.FindPivot | feel/feelalg/lu.hpp:294-302 | the first index of a largest entry at or below the diagonal |
| DenseLu.LU.Exchange | feel/feelalg/lu.hpp:304-317 | rows of the factors and piv exchanged together, pivsign flipped, all invariants kept |
| DenseLu.LU.Divide | feel/feelalg/lu.hpp:319-327 | column j becomes a factored column with multipliers of size at most 1, also for a zero pivot |
| DenseLu.LU.IsNonsingular | feel/feelalg/lu.hpp:337-346 | for a matrix at least as tall as wide, true exactly if only the zero vector is mapped to zero by A |
| DenseLu.LU.GetL | feel/feelalg/lu.hpp:353-379 | the unit lower factor of the factorization |
| DenseLu.LU.GetU | feel/feelalg/lu.hpp:385-406 | the upper factor, and every A(piv(i),j) is the full product of the two |
| LuDeterminant.PivotProduct | feel/feelalg/lu.hpp:420-436 | the signed product of the pivots is the determinant by cofactors |
| LuDeterminant.ClosedForm2 | feel/feelalg/lu.hpp:43-55 | the closed forms of size 1 and 2 are the determinant by cofactors |
| LuDeterminant.ClosedForm3 | feel/feelalg/lu.hpp:57-67 | the closed form of size 3 is the determinant by cofactors |
| LuDeterminant.ClosedForm4 | feel/feelalg/lu.hpp:69-98 | the closed form of size 4 is the determinant by cofactors |
| Determinant.RowExchange | feel/feelalg/lu.hpp:304-317 | exchanging two rows changes the sign of the determinant |
| Determinant.RowAddition | feel/feelalg/lu.hpp:284-289 | adding a multiple of another row leaves the determinant |
| Determinant.UpperDet | feel/feelalg/lu.hpp:427-434 | the determinant of an upper triangular matrix is the product of its diagonal |
| DenseLu.LU.Det | feel/feelalg/lu.hpp:420-436 | the determinant of a square matrix and 0 for any other |
| LuSystems.NonsingularIffInjective | feel/feelalg/lu.hpp:337-346 | the pivots are all nonzero exactly if A, at least as tall as wide, is injective |
| LuSystems.SubstitutionSolves | feel/feelalg/lu.hpp:536-560 | forward and back substitution on the permuted right hand side give exactly the solutions of the n pivot rows of A\*x = b, of all rows if A is square |
| LuSystems.SolvesAllIff | feel/feelalg/lu.hpp:510-517 | with more rows than columns, the result solves A\*x = b exactly if that system has a solution |
| LuSystems.ContradictingExample | feel/feelalg/lu.hpp:510-517 | two equations for one unknown that no result can solve |
| LuSystems.SolvesAreInverse | feel/feelalg/lu.hpp:438-441 | solving for all unit vectors gives a left inverse, and a two-sided one of a square matrix |
| DenseLu.LU.ForwardSubstitute | feel/feelalg/lu.hpp:538-545 | the in-place loop solves with L |
| DenseLu.LU.BackSubstitute | feel/feelalg/lu.hpp:547-556 | the in-place loop solves with U |
| DenseLu.LU.Solve | feel/feelalg/lu.hpp:520-561 | empty for a nonconformant b or a matrix that is not injective; otherwise the first n entries are the unique solution of the pivot rows, of the whole system if it is square, and the other m - n are the permuted right hand side |
| DenseLu.LU.SolveMatrix | feel/feelalg/lu.hpp:459-507 | the same for every column of a matrix |
| DenseLu.LU.Inverse | feel/feelalg/lu.hpp:438-441 | the empty matrix if A is not injective, otherwise a left inverse in the first n rows, two-sided for a square matrix |
| InverseHessian.FormSymmetric | feel/feelalg/bfgs.hpp:76-98 | the operator of any stored history is symmetric |
| InverseHessian.UpdatedForm | feel/feelalg/bfgs.hpp:109-141 | the new form is the old form at a shifted argument plus rho times a square: congruence for BFGS, Cauchy-Schwarz for DFP |
| InverseHessian.UpdateKeepsPositive | feel/feelalg/bfgs.hpp:109-141 | an update with positive curvature keeps the operator positive definite |
| InverseHessian.CurvedIsPositive | feel/feelalg/bfgs.hpp:76-141 | any sequence of positive-curvature updates gives a positive definite operator |
| InverseHessian.DfpDivisor | feel/feelalg/bfgs.hpp:92-95 | the divisor tau of DFP is positive |
| InverseHessian.Secant | feel/feelalg/bfgs.hpp:109-141 | the operator maps the latest gamma to the latest delta, in both variants |
| InverseHessian.BfgsFormula | feel/feelalg/bfgs.hpp:81-97 | in the variant BFGS the stored vectors give the Broyden-Fletcher-Goldfarb-Shanno update of the operator, entry by entry |
| InverseHessian.DfpFormula | feel/feelalg/bfgs.hpp:81-97 | in the variant DFP they give the Davidon-Fletcher-Powell update |
| Bfgs.BfgsInvHessian.constructor | feel/feelalg/bfgs.hpp:70-73 | an empty history, hence the identity |
| Bfgs.BfgsInvHessian.Hmult | feel/feelalg/bfgs.hpp:75-98 | the loop applies the operator of the stored history |
| Bfgs.BfgsInvHessian.Restart | feel/feelalg/bfgs.hpp:100-107 | the history is empty again |
| Bfgs.BfgsInvHessian.Update | feel/feelalg/bfgs.hpp:109-141 | the pair is recorded; with positive curvature the operator stays positive definite and satisfies the secant equation |
| Bfgs.UpdateSucceeds | feel/feelalg/bfgs.hpp:109-141 | recording one more positive-curvature pair keeps the history usable, positive definite and secant |
| Bfgs.NextKeepsBracket | feel/feelalg/bfgs.hpp:211-234 | a rejected trial keeps lambda_min < lambda, lambda midway once bounded, and then halves the bracket |
| Bfgs.TrialRule | feel/feelalg/bfgs.hpp:189-246 | one trial in numbers: the two conditions with 0.27 and 0.57, the new bracket and step, and the give-up test |
| Bfgs.LineSearch | feel/feelalg/bfgs.hpp:186-250 | a regular exit meets both Wolfe conditions with the gradient at the new point, at a trial the search reached; a blocked one returns the point of the trial where the give-up test held, with the gradient of the last trial that decreased the value; it is cut off exactly if none of the first trials was accepted or blocked |
| Bfgs.Descent | feel/feelalg/bfgs.hpp:183-187 | d = -H\*r is a descent direction for the stored gradient |
| Bfgs.WolfeCurvature | feel/feelalg/bfgs.hpp:218-219 | a Wolfe exit gives update a pair with positive curvature |
| Bfgs.DecreaseIsStrict | feel/feelalg/bfgs.hpp:211 | an accepted step strictly lowers the value |
| Bfgs.SearchStep | feel/feelalg/bfgs.hpp:183-250 | one pass: the descent direction of the operator, and a step that meets Wolfe's conditions with positive curvature, or the point and gradient of the trial at which the search was given up; cut off exactly if the search along it goes on |
| Bfgs.Learn | feel/feelalg/bfgs.hpp:255-272 | a restart empties the history, an update makes it map the gradient change to the step |
| Bfgs.DueIsMultiple | feel/feelalg/bfgs.hpp:261 | a restart is due exactly when the count is a multiple of `restart` |
| Bfgs.Pass | feel/feelalg/bfgs.hpp:181-277 | one pass from the current history and first step: the direction of that history, a search that ends in one of its trials, and the history emptied or extended by the step and the change of the gradient |
| Bfgs.UnderwayPush | feel/feelalg/bfgs.hpp:181-278 | one pass more keeps the run, its histories, and the count of restarts in a row |
| Bfgs.RunDecreases | feel/feelalg/bfgs.hpp:181-278 | over any run without blocked passes the value has strictly decreased |
| Bfgs.Minimize | feel/feelalg/bfgs.hpp:153-280 | every run comes with its histories: pass k goes along minus the operator of history k, starts its search at the step of the pass before (the initial one after a blocked pass), and extends the history by its step and gradient change, or empties it when a restart is due or the pass was blocked; the loop ends converged, at its bound, or in the eleventh restart in a row, and otherwise in a search that has not ended |
| SearchEnds.SmoothEnds | feel/feelalg/bfgs.hpp:197-250 | with the gradient of a smooth function that is bounded below along the line, the search ends from every value |
| SearchEnds.PositiveEnds | feel/feelalg/bfgs.hpp:197-250 | from a positive value, the search ends along every line on which the function is continuous and bounded below, whatever the stored gradient |
| SearchEnds.EndsIffPositive | feel/feelalg/bfgs.hpp:197-250 | for convex functions with subgradients it ends along all such lines that start at a given value exactly if the value is positive |
| SearchEnds.KinkNeverEnds | feel/feelalg/bfgs.hpp:183-246 | the first pass of a minimization from a kink with a value that is not positive searches for any number of trials |
| Dirichlet.RewritingKeepsMeaning | feel/feelalg/matrixeigendense.cpp:267-283 | with nonzero kept diagonals, the rewritten system is solved exactly by the x with the prescribed entries and all other original equations |
| Dirichlet.ListedEquation | feel/feelalg/matrixeigendense.cpp:276-282 | the rewritten equation of a listed unknown is its diagonal entry, or 1, times the unknown and the prescribed value |
| Dirichlet.MeaningKeptIff | feel/feelalg/matrixeigendense.cpp:267-283 | every solution of the rewritten system is one of the constrained problem exactly if no kept diagonal vanishes or the constrained problem has no solution |
| Dirichlet.UnpinnedExample | feel/feelalg/matrixeigendense.cpp:267-283 | two unknowns with zero diagonals: the rewritten system has a solution that misses the prescribed value |
| Dirichlet.SymmetryKept | feel/feelalg/matrixeigendense.cpp:273-279 | elimination keeps a symmetric matrix symmetric |
| Dirichlet.DefinitenessKept | feel/feelalg/matrixeigendense.cpp:267-283 | elimination keeps a positive definite matrix positive definite |
| ZeroRowsDense.MovedStep | feel/feelalg/matrixeigendense.cpp:275 | eliminating one more unknown moves exactly what its column still holds |
| ZeroRowsDense.ZeroListed | feel/feelalg/matrixeigendense.cpp:267-283 | one more listed unknown, repeated or not, on a system with others eliminated |
| ZeroRowsDense.ZeroRows | feel/feelalg/matrixeigendense.cpp:256-284 | matrix and right hand side are the constrained ones, for any list with repetitions, and the new system means the constrained problem |
| ZeroRowsSparse.SparseMovedStep | feel/feelalg/matrixeigensparse.cpp:225-242 | one more listed column: subtracted everywhere, set in its own row if the diagonal is stored |
| ZeroRowsSparse.ClearColumn | feel/feelalg/matrixeigensparse.cpp:227-242 | one listed column: entries cleared except the diagonal, rows marked, right hand side moved |
| ZeroRowsSparse.ClearMirrored | feel/feelalg/matrixeigensparse.cpp:246-255 | the marked entries of one column cleared, its diagonal kept |
| ZeroRowsSparse.FirstPass | feel/feelalg/matrixeigensparse.cpp:224-243 | listed columns cleared, the met entries marked by row, the right hand side moved |
| ZeroRowsSparse.SecondPass | feel/feelalg/matrixeigensparse.cpp:244-256 | exactly the marked entries off the diagonal are cleared |
| ZeroRowsSparse.ZeroRows | feel/feelalg/matrixeigensparse.cpp:216-257 | the values and right hand side left by both passes, for any pattern and any list |
| ZeroRowsAgree.SparseMatchesDenseIff | feel/feelalg/matrixeigensparse.cpp:224-256 | sparse and dense elimination agree for all data exactly if diagonals are stored, listed rows are mirrored and no listed unknown is coupled to one listed later |
| ZeroRowsAgree.StoredMatchesDenseIff | feel/feelalg/matrixeigensparse.cpp:224-256 | the same for every matrix read from column storage |
| ZeroRowsAgree.CoupledUnknownsDisagree | feel/feelalg/matrixeigensparse.cpp:232-239 | two coupled unknowns listed one after the other: the results differ |
| ZeroRowsAgree.CoupledValue | feel/feelalg/matrixeigensparse.cpp:232-239 | the right hand side of the first of two listed unknowns is its final value less what the second one's column moved |
| ZeroRowsAgree.CoupledExample | feel/feelalg/matrixeigensparse.cpp:232-239 | a full two by two matrix for which they differ |
| OrderedSets.AscendingUnique | feel/feelalg/graphcsr.hpp:73 | an ordered set is determined by its elements |
| OrderedSets.WithinCounts | feel/feelalg/graphcsr.cpp:796-814 | the count of a range is the number of elements in it |
| GraphRows.DecodeEncode | feel/feelalg/graphcsr.cpp:872-882 | reading the packed messages back gives the packed rows, one by one |
| GraphRows.FrameWords | feel/feelalg/graphcsr.cpp:872-882 | a row travels as its index, its local index and its columns |
| GraphRows.MergedBoxes | feel/feelalg/graphcsr.cpp:917-968 | after merging all sources a row holds what it held and what the messages carried for it, nothing else |
| SparsityGraph.GraphCSR.CountColumns | feel/feelalg/graphcsr.cpp:796-814 | the two counts of a row grow by its columns inside and outside the process's range |
| SparsityGraph.GraphCSR.CountRow | feel/feelalg/graphcsr.cpp:777-825 | one more owned row counted, measured and added to the maximum |
| SparsityGraph.GraphCSR.PackRow | feel/feelalg/graphcsr.cpp:828-856 | one more row packed for its owner, the announced size in step |
| SparsityGraph.GraphCSR.CountAndPack | feel/feelalg/graphcsr.cpp:740-882 | both counts, sizes, their maximum and sum of the owned rows; every other row packed once for its owner |
| SparsityGraph.Flatten | feel/feelalg/graphcsr.cpp:868-882 | the contents are laid out back to back and fill the announced size exactly |
| SparsityGraph.InsertCounted | feel/feelalg/graphcsr.cpp:940-966 | a new column raises exactly one of the two counts and the total |
| SparsityGraph.GraphCSR.InsertColumn | feel/feelalg/graphcsr.cpp:940-966 | a received column is inserted and counted once, and not at all if it was there |
| SparsityGraph.GraphCSR.MergeMessage | feel/feelalg/graphcsr.cpp:919-968 | all rows of a message pair merged, found or created, counts kept exact |
| SparsityGraph.GraphCSR.Merge | feel/feelalg/graphcsr.cpp:917-968 | the messages of all sources merged in order, counts kept exact |
| SparsityGraph.GraphCSR.CopyRows | feel/feelalg/graphcsr.cpp:1028-1052 | the arrays hold the rows back to back |
| SparsityGraph.GraphCSR.BuildArrays | feel/feelalg/graphcsr.cpp:1025-1060 | ia monotone from 0 to the length of ja and each slice the ascending row, or ia = [0] for at most one row without entries |
| SparsityGraph.GraphCSR.Finish | feel/feelalg/graphcsr.cpp:917-1060 | merging, exact counts with on-process plus off-process equal to the row size, and the arrays; for a process without columns everything received counts as off-process |
| SparsityGraph.SliceIsRow | feel/feelalg/graphcsr.cpp:1034-1052 | the slice between two consecutive starts is the row |
| Exchange.StepKeeps | feel/feelalg/graphcsr.cpp:888-912 | every step of every process keeps the protocol invariant: sent before received, in flight exactly once |
| Exchange.NoDeadlock | feel/feelalg/graphcsr.cpp:888-912 | as long as a process is not done some step is possible, even if no send is buffered |
| Exchange.RunIsBounded | feel/feelalg/graphcsr.cpp:888-912 | every run ends after at most n\*n\*(2n+1) steps |
| Exchange.ExchangeDelivers | feel/feelalg/graphcsr.cpp:888-912 | a run that cannot go on has delivered to every process exactly what was sent to it, and nothing is in flight |
| GraphClose.ExchangeDeliversFrames | feel/feelalg/graphcsr.cpp:868-912 | what a process receives is the frames packed for it |
| GraphClose.BoxesAreOwned | feel/feelalg/graphcsr.cpp:923-930 | every row a process receives is one it owns |
| GraphClose.ClosedRowIsUnion | feel/feelalg/graphcsr.cpp:714-968 | the owner's row is exactly the union of the columns all processes recorded for it |
| GraphClose.OtherRowsUnchanged | feel/feelalg/graphcsr.cpp:917-968 | rows a process does not own stay as recorded |
| GraphClose.RunCloses | feel/feelalg/graphcsr.cpp:714-968 | after any complete run every process received what its merge needs, and merging leaves the union of everything recorded in every owned row |
| GraphClose.CountsAreSets | feel/feelalg/graphcsr.cpp:940-966 | on a process with columns the two counts of a row are the sizes of its sets of columns inside and outside the range |
| GraphClose.FinishRun | feel/feelalg/graphcsr.cpp:888-1060 | the same with the counts and arrays of the class, whatever run delivered the messages: the counts of an owned row are the numbers of recorded columns inside and outside the range of the process |
| GraphClose.RecordedSizeRightIff | feel/feelalg/graphcsr.cpp:791 | a row size recorded before the exchange is right afterwards exactly if no process had recorded a column of the row that its owner had not |
| GraphClose.RecordedMaximumRightIff | feel/feelalg/graphcsr.cpp:821 | the recorded maximum is right afterwards exactly if no owned row has more columns recorded over all processes |
| GraphClose.StaleSizeExample | feel/feelalg/graphcsr.cpp:940-966 | two processes that record different columns of one row: size and maximum are too small |
| DataMaps.ProcOnGlobalCluster | feel/feelalg/datamap.cpp:336-353 | the first process whose table holds the dof, and 0 if there is none |
| DataMaps.NumberIsInjective | feel/feelalg/graphcsr.cpp:368-383 | different dofs of different blocks get different numbers, and the number determines the owner |
| DataMaps.NumberIsSurjective | feel/feelalg/graphcsr.cpp:368-383 | every number below the total is the number of a dof |
| DataMaps.TotalIsSum | feel/feelalg/graphcsr.cpp:291-316 | the numbers run to the sum of the block sizes |
| DataMaps.NextNumber | feel/feelalg/graphcsr.cpp:370-383 | the dofs one process owns in a block are numbered in their order, without gaps |
| DataMaps.FirstNumber | feel/feelalg/graphcsr.cpp:355-374 | the first of them is numbered after all dofs of the processes before, and after the process's own in the blocks before |
| DataMaps.AloneNumber | feel/feelalg/graphcsr.cpp:367-385 | on one process a dof is shifted by the sizes of the blocks before its own |
| DataMaps.LocalNumbers | feel/feelalg/graphcsr.cpp:367-385 | the map of a process, dof by dof: the number lies as far after the start of its owner and block as the dof after the first of that owner |
| DataMaps.GhostNumbersAgree | feel/feelalg/graphcsr.cpp:377-384 | two processes that hold the same dof give it the same number |
| DataMaps.MapsInvert | feel/feelalg/graphcsr.cpp:370-376 | on owned dofs the two maps are inverse in both orders |
| DataMaps.MergedOwnerFound | feel/feelalg/datamap.cpp:336-353 | the merged owner lookup returns the owner of the dof in its block |
| DataMaps.ColumnOwnerFoundIff | feel/feelalg/graphcsr.cpp:345-348 | for the tables set for the column map the owner lookup is right exactly under a condition on the dof counts |
| DataMaps.RowLastNumber | feel/feelalg/graphcsr.cpp:340-343 | the last row number of a process, with its own count tested |
| DataMaps.ColumnLastNumber | feel/feelalg/graphcsr.cpp:345-348 | the last column number of a process, with the count of the process that runs the loop tested |
| DataMaps.MissedOwnerExample | feel/feelalg/graphcsr.cpp:345-348 | three processes of which the middle one owns both columns: the last process takes one for process 0's |
| DataMaps.DataMap.SetTables | feel/feelalg/graphcsr.cpp:289-352 | the entries of one process in all tables, with the count that is tested, and nothing else |
| DataMaps.UpdateTables | feel/feelalg/graphcsr.cpp:288-352 | counts, first and last numbers, local and global, of every process for rows and columns; the column map's with the wrong test |
| DataMaps.DataMap.NumberDof | feel/feelalg/graphcsr.cpp:367-385 | one more local dof numbered, owned or ghost, the earlier ones untouched |
| DataMaps.UpdateDataMap | feel/feelalg/graphcsr.cpp:279-421 | the tables of both maps, and every dof of every row and column block numbered in both directions |
| BlockGraph.MergeBlockGraph | feel/feelalg/graphcsr.cpp:424-465 | the entries of the block, shifted, join the ones already there |
| BlockGraph.Assemble | feel/feelalg/graphcsr.cpp:186-210 | the graph is the union of all shifted blocks, and its rows carry the metadata of one process |
| BlockGraph.WindowIsBlock | feel/feelalg/graphcsr.cpp:186-210 | each window of the assembled graph is its block |
| BlockClose.AloneIsWellFormed | feel/feelalg/graphcsr.cpp:186-227 | the rows a block graph is assembled into on one process meet what closing asks for |
| BlockClose.ArraysHoldBlocks | feel/feelalg/graphcsr.cpp:1025-1060 | every window of the compressed arrays is the block that belongs there |
| BlockClose.MapMatchesRows | feel/feelalg/graphcsr.cpp:188-210 | on one process the map gives every dof of a block the number of the row the assembly places it on |
| BlockClose.AssembleAndClose | feel/feelalg/graphcsr.cpp:186-227 | the block constructor and close on one process: exact counts, the rows in order in the arrays, every window of them its block and nothing beyond, or the empty arrays for at most one row without entries |
| GraphDiagonal.AddMissingZeroEntriesDiagonal | feel/feelalg/graphcsr.cpp:687-711 | unless it returns early, the diagonal joins every owned row whose number is also below the last column, as many as the smaller of the two counts; rows keep their owners, and of the rows created only the first gets one |
| GraphDiagonal.DiagonalAdded | feel/feelalg/graphcsr.cpp:687-711 | exactly the diagonal entries are added |
| GraphDiagonal.StaysWellFormedIff | feel/feelalg/graphcsr.cpp:699-709 | the rows stay well formed exactly if no later row was created, or it belongs to process 0 with local index 0 |
| GraphDiagonal.OwnerlessExample | feel/feelalg/graphcsr.cpp:699-709 | process 1 of two with its second row missing: the row is created for process 0 and the rows are not well formed |
| Dihedral.ActionComposes | applications/polyvis/simplex.py:249-260 | a turn and a flip with the defining relations compose like the elements of the dihedral group |
| Dihedral.ActionInverts | applications/polyvis/hypercube.py:291-346 | every element has an inverse, so its map is a bijection |
| Simplex.LocateIndex | applications/polyvis/simplex.py:238-247 | every number belongs to one row and column |
| Simplex.IndexLocate | applications/polyvis/simplex.py:238-247 | every row and column has one number |
| Simplex.NumbersRun | applications/polyvis/simplex.py:238-247 | the numbers run along the rows, one row after the other |
| Simplex.FirstRowImages | applications/polyvis/simplex.py:227-247 | the base map takes point c of the first row to the start of row c, the height map reverses the row |
| Simplex.Base | applications/polyvis/simplex.py:227-236 | the search returns the flip of the point, and nothing for a number out of range |
| Simplex.Height | applications/polyvis/simplex.py:238-247 | the search returns the mirrored point of the row, and nothing for a number out of range |
| Simplex.HeightIsElement | applications/polyvis/simplex.py:238-247 | the height map is a flip followed by two turns, and after a flip it is two turns |
| Simplex.Anticlockwise | applications/polyvis/simplex.py:249-251 | acts as one turn |
| Simplex.Hypotenuse | applications/polyvis/simplex.py:254-256 | acts as a flip followed by one turn |
| Simplex.Clockwise | applications/polyvis/simplex.py:258-260 | acts as two turns, the inverse of anticlockwise |
| Simplex.TriangleRelations | applications/polyvis/simplex.py:227-260 | three turns are none, two flips are none, and a flip reverses a turn, for every order |
| Simplex.SymmetryLaws | applications/polyvis/simplex.py:227-260 | composing the maps is composing in the group of order six |
| Simplex.SymmetriesDiffer | applications/polyvis/simplex.py:227-260 | from two points a side on, the six maps are different |
| Simplex.NPointsRightIff | applications/polyvis/simplex.py:216-221 | the count formula is the number of points exactly for positive orders; for order 0 it counts one |
| Hypercube.PointOf | applications/polyvis/hypercube.py:291-309 | every number below n\*n is one point |
| Hypercube.Base | applications/polyvis/hypercube.py:291-309 | the loop with the running counter returns the flipped point, row reversed, of the (order - 1) squared ones, and any other number unchanged |
| Hypercube.OnceAnticlockwise | applications/polyvis/hypercube.py:312-324 | acts as one turn: point (i, j) goes to (j, order - 2 - i), and nothing is returned out of range |
| Hypercube.SecondDiagonal | applications/polyvis/hypercube.py:327-329 | acts as a flip followed by one turn |
| Hypercube.Height | applications/polyvis/hypercube.py:332-334 | acts as a flip followed by two turns |
| Hypercube.TwiceClockwise | applications/polyvis/hypercube.py:336-338 | acts as two turns |
| Hypercube.Diagonal | applications/polyvis/hypercube.py:340-342 | acts as a flip followed by three turns |
| Hypercube.OnceClockwise | applications/polyvis/hypercube.py:344-346 | acts as three turns, the inverse of one |
| Hypercube.SquareRelations | applications/polyvis/hypercube.py:291-346 | four turns are none, two flips are none, and a flip reverses a turn, for every order |
| Hypercube.SymmetryLaws | applications/polyvis/hypercube.py:291-346 | composing the maps is composing in the group of order eight |
| Hypercube.SymmetriesDiffer | applications/polyvis/hypercube.py:291-346 | from two points a side on, the eight maps are different |

## Left out

- The permutation `P` and its inverse in `ldl` are null as the class constructs them; only the unpermuted
  factorization is modelled, and `perm`, `permt` and `valid_perm` are not.
- Rounding, overflow and the width of the index types. Indices are unbounded, so `size_type` wrap-around is not
  modelled; `sqrt` is any function that is positive and squares back on positive numbers.
- Bfgs.LineSearch: carries a bound on its trials, because the loop need not end for every function.
- Bfgs.Minimize: takes the stopping rule of the iteration object as a predicate that holds for the zero gradient,
  with the bound on the number of iterations; norms and tolerances are not modelled.
- DenseLu.LU.GetU: requires at least as many rows as columns, where the code would read past the matrix; so do
  IsNonsingular, Solve, SolveMatrix and Inverse.
- DenseLu.LU.SolveMatrix: requires at least one right hand side, where the code computes the range 0..nx-1.
- The closed-form inverses of sizes 1 to 3 are not modelled.
- BlockClose.AssembleAndClose: the call without `diagIsNonZero`; what adding the diagonal does to the rows is in
  `GraphDiagonal`.
- ZeroRowsDense.ZeroRows: takes the prescribed values as a value, so the right hand side and the prescribed values
  cannot be the same vector.
- SparsityGraph.GraphCSR.CountAndPack: visits the rows in any order, of which the order of the map is one.
- The processes of the exchange agree on the rounds; lost messages and failing processes are not modelled.
- The numbers of dofs of a block on its processes are taken as consecutive intervals in process order, and its local
  numbers as starting at 0.
- `mergeBlockGraphMPI`, `transpose` and `zero` of the graph, and the printing functions.
- PETSc, Trilinos and Eigen wrappers other than the two `zeroRows` bodies.
- The drawing functions of the two scripts.
