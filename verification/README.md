# Verified model of the fixed-effects solver

This project models the numerical core of a fixed-effects least-squares solver written in Rust
and proves that each stage keeps the meaning of the matrix it works on. Scalars are real
numbers; square roots are a function `sqrt` with `sqrt(x) >= 0` and `sqrt(x) * sqrt(x) == x`.

The pipeline, from data to solution:

* A channel pair's observations are accumulated into a cross block `C` with two diagonals
  (`Accumulate`, `PairAssembly`), split into connected components (`Components`,
  `ExtractComponent`, `SplitSubdomains`) and weighted into a partition of unity
  (`PartitionOfUnity`).
* Each component's signed Gram matrix becomes a symmetric diagonally dominant matrix: signs
  (`FoldingSigns`), scaling (`DominanceScaling`), clamping and ground edges (`Convert`,
  `ConvertComponent`).
* What such a system can answer is settled before any solver: a system of nonnegative energy is
  solvable exactly for right-hand sides orthogonal to its kernel (`Fredholm`), the kernel of an
  SDDM system follows its edges (`SddmKernel`), and on a connected component it is at most one
  sign vector (`Connectivity`). Reachability classes give connected blocks
  (`ClassConnectivity`), and the cover of one is connected exactly when no signs balance it
  (`CoverConnectivity`).
* The larger block is eliminated (`Elimination`, `Schur`, `ExplicitLaplacian`,
  `ReducedSystem`), or replaced star by star by sampled edges (`SampledSchur`, `EdgeSort`,
  `EdgeLaplacian`); a component without a signature goes through a Gremban double cover
  (`Gremban`, `Cover`, `ReducedFactor`). The local solve then answers the original signed
  system (`AssembledSystem`, `BlockElimSolver`, `ReducedSolve`, `SolveLocal`, `Build`,
  `LocalAnswers`, `DomainAnswers`).
* All subdomains act together as an additive Schwarz preconditioner, with compare-and-swap
  additions or worker-local buffers (`Subdomains`, `AtomicBackend`, `ReductionBackend`,
  `SchwarzExecutor`). Concurrency is a state machine over steps: a schedule is a sequence of
  steps, theorems hold for every schedule, and a step that is not enabled changes nothing.
* What that preconditioner is, from the design's columns to the solver's requirements: local
  solves are linear, symmetric and of nonnegative energy (`LocalOperator`, `SchwarzOperator`),
  each domain's matrix is a submatrix of the normal matrix (`PairGram`, `DomainGram`), and the
  sum over all domains the design is split into is blind to a gradient only where no domain
  holds a coefficient (`SchwarzDesign`, `ServedDomain`, `BuiltDomain`, `DomainBuild`). The
  diagonal one is in `DiagonalPrecond`; `ZeroColumn` shows that no preconditioner touches an
  empty column.
* Slope columns are whitened per level and the solution mapped back (`LevelMoments`,
  `GramSchmidt`, `Whitening`, `BackTransform`, `SlopeFit`).
* The design operator and its adjoint (`StableArgsort`, `DesignOperator`, `Scatter`,
  `DesignSystem`) feed the preconditioned LSMR iteration (`Bidiagonal`, `GolubKahan`,
  `WindowRing`, `ModifiedGolubKahan`, `Recurrence`, `NormalEquations`, `Krylov`,
  `ExactResidual`, `Attainable`, `LsmrInvariant`, `Lsmr`, `Staleness`).

`Sums`, `Vectors`, `CsrBlock`, `Transpose`, `Buckets`, `Sorting`, `RowFilling` and
`Wrappers` hold the shared vocabulary.

A matrix is a function from two indices to a real; a sparse row denotes the function that adds
up the weights stored for a column. External code enters as follows: a factorization is any
function that returns a solution whenever one exists and may fail (`ExactBackend`, `FactorOf`);
a clique sampler is any function returning forward edges of nonnegative weight between the
star's neighbours (`SoundSampler`); a local solver is any function of the restricted right-hand
side; the preconditioner in LSMR is any linear, symmetric map of nonnegative energy. Roundoff
budgets are arbitrary functions, the guard threshold any nonnegative and the smallest positive
number any positive constant.

One place where code and comment differ, modelled as the code has it:
`crates/schwarz-precond/src/lsmr/recurrence.rs:109` calls the residual estimate conservative. It
is a lower bound of the true residual norm; after an iteration with clear guards it is the true
norm exactly when the right vector has vanished, that is when the bidiagonalization broke down
(`ExactResidual.ResidualExactIff`), and `ResidualEstimate.EstimateUndershoots` gives a run that
stops on a tolerance the residual does not meet.

## Model

| member | source | states |
|---|---|---|
| `FoldingSigns.FindSigns` | crates/within/src/domain/factor_pairs/sddm.rs:355-380 | returns a sign per node under which every edge finds the sign it demands, and `None` exactly when no such signature exists |
| `FoldingSigns.FoldGraph` | crates/within/src/domain/factor_pairs/sddm.rs:355-380 | the same decision for any undirected signed graph: `None` means that every candidate signature fails |
| `FoldingSigns.SignatureFolds` | crates/within/src/domain/factor_pairs/sddm.rs:355-380 | with nonzero weights a sign vector is a signature if and only if every folded off-diagonal `s_i s_j v_ij` is negative |
| `FoldingSigns.Frustrated` | crates/within/src/domain/factor_pairs/sddm.rs:367-375 | an edge whose two ends disagree inside one tree rules out every signature of the whole graph |
| `FoldingSigns.ScanNeighbors` | crates/within/src/domain/factor_pairs/sddm.rs:368-376 | scanning a node keeps the search invariant: closed trees stay settled and every signature restricts to the current tree up to one global sign |
| `DominanceScaling.ScaleToDominance` | crates/within/src/domain/factor_pairs/sddm.rs:389-463 | fails exactly on a non-positive diagonal; otherwise scales, sweeps and violation are those of the iterate the relaxation reaches, the violation being the worst row of that very scaling, and the product of the peaks it divided by is at most the spread of any positive vector that satisfies the dominance inequality |
| `DominanceScaling.Relax` | crates/within/src/domain/factor_pairs/sddm.rs:425-448 | the result is the normalized iterate at which the rule stops, at the first violation within tolerance or with the budget spent, with the violation of that very iterate; the divisors of its sweeps multiply to at most the spread of any dominating vector |
| `DominanceScaling.PeaksBoundedBySpread` | crates/within/src/domain/factor_pairs/sddm.rs:428-448 | for every number of sweeps from all ones each divisor is at least 1 and the product of the divisors is at most the largest over the smallest entry of any positive vector that satisfies the normalized dominance inequality |
| `DominanceScaling.SweepAndNormalize` | crates/within/src/domain/factor_pairs/sddm.rs:429-447 | one sweep divides the raised iterate by its own largest entry, which is at least 1, so the next iterate stays in (0, 1] |
| `DominanceScaling.RaiseKeepsDominated` | crates/within/src/domain/factor_pairs/sddm.rs:429-437 | raising an entry to its own target never lifts the iterate above a dominating witness |
| `Convert.FoldWeights` | crates/within/src/domain/factor_pairs/sddm.rs:249-262 | each stored weight becomes minus its product with both factors; with the Z-matrix rule the call fails exactly when some weight folds negative |
| `Convert.Finalize` | crates/within/src/domain/factor_pairs/sddm.rs:294-352 | fails exactly on a diagonal that is not positive, or in error mode on a deficit beyond the tolerance; otherwise it floats exactly when the total surplus is within the roundoff budget, every diagonal is its row sum, plus its surplus when grounded, and the reported clamp is zero or the worst deficit there is |
| `Convert.Assemble` | crates/within/src/domain/factor_pairs/sddm.rs:242-291 | the result is the SDDM form of the block under the given factors, grounded as `Finalize` decides; it fails exactly on a weight that folds negative where none may, a scaled diagonal that is not positive, or in error mode a deficit beyond the tolerance |
| `Convert.RowSums` | crates/within/src/domain/factor_pairs/sddm.rs:465-475 | the sums over `C` and its transpose are the plain or magnitude row sums of all local nodes |
| `Convert.ConvertedRepresents` | crates/within/src/domain/factor_pairs/sddm.rs:242-352 | the SDDM form is a congruence of the signed Gram matrix if and only if no scaled row is in deficit and either the surplus is above the budget or every surplus is zero |
| `ConvertComponent.BalancedFoldsNonnegative` | crates/within/src/domain/factor_pairs/sddm.rs:249-262 | under a signature and positive scales no weight folds negative, so a balanced component never trips the Z-matrix rejection |
| `ConvertComponent.ConvertGeneral` | crates/within/src/domain/factor_pairs/sddm.rs:199-239 | a component becomes a Z-matrix if and only if it has a signature, otherwise it keeps its signs for the cover; its factors are signs times the scales the relaxation reaches, it fails exactly on a non-positive diagonal or, in error mode, on a deficit beyond the tolerance under those scales, and a warning states their worst deficit exactly |
| `ConvertComponent.SameScaled` | crates/within/src/domain/factor_pairs/sddm.rs:382-448 | the signs do not matter to dominance: the factors leave the scaled diagonal and the off-diagonal magnitudes of the reached scales |
| `ConvertComponent.AttainedDeficit` | crates/within/src/domain/factor_pairs/sddm.rs:425-448 | the violation at which the scaling stopped is attained by a row of the folded component as its deficit |
| `ConvertComponent.ConvertKnownLaplacian` | crates/within/src/domain/factor_pairs/sddm.rs:173-197 | rejected exactly when the diagonal is further from the row sums than the budget; otherwise the adopted diagonal is the row sums, and a claim that holds exactly is adopted unchanged |
| `Build.OrientedSameGram` | crates/within/src/domain/factor_pairs/sddm.rs:86-106 | orientation puts the larger block first and the Gram matrix, the diagonal and the global ids are the same ones renumbered |
| `BlockElimSolver.FoldInPlace` | crates/within/src/domain/factor_pairs/sddm.rs:63-77 | the two representations of the map agree with one diagonal scaling of the vector |
| `Elimination.EliminationEquivalence` | crates/within/src/block_elim/solver.rs:350-423 | a vector solves the bipartite system if and only if its eliminated part is back-substituted and its kept part solves the Schur system |
| `Elimination.SchurRowSum` | crates/within/src/block_elim/schur.rs:70-79 | row sums of the Schur complement are the reduced ground edges |
| `Elimination.MassConserved` | crates/within/src/block_elim/solver.rs:350-423 | with no ground edge the reduced right-hand side has the same total as the full one |
| `Elimination.SolvableSumsToZero` | crates/within/src/block_elim/solver.rs:350-423 | with no ground edge a solvable right-hand side sums to zero |
| `Elimination.ShiftKeepsSolution` | crates/within/src/block_elim/solver.rs:445-466 | with no ground edge adding a constant to a solution leaves it a solution |
| `SchurComplement.ComputeSchurRowDense` | crates/within/src/block_elim/schur.rs:96-116 | the workspace ends as row `i` of the Schur complement and every nonzero cell is on the touched list, a cell that cancels midway included |
| `SchurComplement.ExtractSparseRow` | crates/within/src/block_elim/schur.rs:119-132 | the row is strictly ascending with the workspace's coefficients, keeps its diagonal even at zero, and leaves the workspace all zero |
| `SchurComplement.Exact` | crates/within/src/block_elim/schur.rs:29-61 | every stored row is ascending, carries its diagonal, and its entries are `D_i - sum_k C_ki C_kj / D_k` |
| `ExplicitLaplacian.BuildExplicitLaplacian` | crates/within/src/block_elim/schur.rs:214-268 | the output is sorted and is the rebuilt matrix bordered by a ground vertex whose row balances every surplus |
| `ReducedSystem.ReducedSurplus` | crates/within/src/block_elim/schur.rs:197-212 | the surplus carried to the kept block is the ground edge of elimination, zero when floating |
| `ReducedSystem.RebuiltDiagonalIsSchur` | crates/within/src/block_elim/schur.rs:213-268 | the diagonal rebuilt as adjacency plus surplus equals the true Schur diagonal |
| `ReducedSystem.ExactForFactor` | crates/within/src/block_elim/schur.rs:70-79 | the matrix handed to the factorization is the Schur complement, bordered by its ground vertex when grounded |
| `ReducedSystem.ReducedIsLaplacian` | crates/within/src/block_elim/schur.rs:70-79 | the reduced matrix is symmetric, non-positive off the diagonal, and every row, the ground row included, sums to zero |
| `Cover.AssembleBipartiteCover` | crates/within/src/block_elim/solver.rs:221-271 | the cover of a signed SDDM matrix is a valid unsigned SDDM matrix: magnitudes split over the sheets, diagonals and ground edges copied |
| `Gremban.CoverActsAntisymmetrically` | crates/within/src/block_elim/solver.rs:221-277 | the cover acts on `[x, -x, 0]` as `[S x, -S x, 0]` |
| `Gremban.CoverCommutesWithSchur` | crates/within/src/block_elim/solver.rs:221-277 | the Schur complement of the cover covers the signed Schur complement |
| `Gremban.ReadBackSolves` | crates/within/src/block_elim/factor.rs:89-107 | half the difference of the two sheets of any solution of `[b, -b]` solves the signed system, ground vertex or not |
| `Gremban.GroundGauge` | crates/within/src/block_elim/solver.rs:376-409 | subtracting the ground potential from a bordered solution solves the bare system |
| `ReducedSolve.CoverReducedCovers` | crates/within/src/block_elim/solver.rs:192-217 | the bordered reduced matrix of the assembled cover still covers the signed Schur complement |
| `ReducedFactors.SolveInPlace` | crates/within/src/block_elim/factor.rs:79-109 | in place: the direct factor's answer, or the read-back of the embedded `[x, -x, 0]` solve; a backend failure is reported |
| `ReducedSolve.KeptSolves` | crates/within/src/block_elim/solver.rs:372-409 | for a connected component, whatever the gauge and whichever factor, the kept block solves the signed Schur system exactly when the component is grounded somewhere or the right-hand side is orthogonal to its sign balances |
| `ReducedSolve.SchurSolvableIff` | crates/within/src/block_elim/solver.rs:350-423 | the Schur system of a connected component is solvable exactly for the kept right-hand sides the whole component answers |
| `ReducedSolve.CoverKeptSolves` | crates/within/src/block_elim/factor.rs:89-107 | behind a cover the read-back solves the signed Schur system under exactly that condition, so always when no sign vector balances the component |
| `ReducedSolve.FloatingRhs` | crates/within/src/block_elim/solver.rs:372-375 | subtracting the mean before a floating reduced solve changes nothing, because elimination conserved the total |
| `BlockElimSolver.BackSubstitute` | crates/within/src/block_elim/solver.rs:42-77 | each eliminated entry becomes its scaled right-hand side plus the scaled gather of the kept solution; the rest of the buffer is untouched |
| `BlockElimSolver.SubtractMean` | crates/within/src/block_elim/solver.rs:23-31 | the block is left mean-free, everything outside it untouched |
| `BlockElimSolver.PrepareReduced` | crates/within/src/block_elim/solver.rs:358-384 | the zero-padded gauged reduced right-hand side ends in its slot although it overlaps the input |
| `BlockElimSolver.EliminateAndRecover` | crates/within/src/block_elim/solver.rs:350-423 | inside the two shared buffers the kept block is the reduced solution of the carried right-hand side and the eliminated block is back-substituted from it; it succeeds exactly when the reduced solve does |
| `SolveLocal.SolveLocal` | crates/within/src/block_elim/solver.rs:445-466 | solved in place: every solvable original system, and for a connected component exactly the right-hand sides it answers; the call fails exactly when the reduced solve does |
| `SolveLocal.CongruentSystems` | crates/within/src/domain/factor_pairs/sddm.rs:63-82 | a folded vector solves the folded system if and only if the unfolded one solves the original |
| `SolveLocal.FloatingSolvesIffBalanced` | crates/within/src/block_elim/solver.rs:445-466 | with a floating gauge a connected component's centred folded system is always solved, and the original equations hold if and only if the folded right-hand side sums to zero |
| `SolveLocal.SolvesIffAnswerable` | crates/within/src/block_elim/solver.rs:444-467 | the result solves the original equations of a connected component if and only if some ground edge is positive or the folded right-hand side is orthogonal to every sign balance |
| `SolveLocal.OriginalIffFolded` | crates/within/src/block_elim/solver.rs:445-466 | the result solves the original signed system if and only if its folded form solves the SDDM system |
| `SolveLocal.SolvableInput` | crates/within/src/block_elim/solver.rs:445-452 | on a solvable system the opening mean subtraction is a no-op |
| `Fredholm.SolvableIffOrthogonal` | crates/within/src/block_elim/solver.rs:350-423 | eliminating one vertex after another, a symmetric system of nonnegative energy is solvable exactly for right-hand sides orthogonal to its kernel |
| `SddmKernel.SystemEnergy` | crates/within/src/domain/factor_pairs/sddm.rs:108-115 | the energy of a balanced system is that of its edges plus that of its ground edges |
| `SddmKernel.KernelIsNull` | crates/within/src/domain/factor_pairs/sddm.rs:108-115 | its kernel is exactly the vectors that agree up to sign along every edge and vanish at every ground edge |
| `Connectivity.SddmSolvableIff` | crates/within/src/block_elim/solver.rs:444-467 | a connected SDDM system is solvable if and only if it is grounded somewhere or the right-hand side is orthogonal to its sign balances |
| `Connectivity.FloatingAnswers` | crates/within/src/block_elim/solver.rs:445-466 | floating and unsigned, those are exactly the right-hand sides that sum to zero |
| `Connectivity.SignsUnique` | crates/within/src/domain/factor_pairs/sddm.rs:355-380 | two sign balances of a connected block agree up to one global sign |
| `ClassConnectivity.ExtractedConnected` | crates/within/src/domain/cross_tab.rs:213-265 | the block extracted for a reachability class is connected: no cut of its nodes is free of edges |
| `CoverConnectivity.AssembledCoverConnected` | crates/within/src/block_elim/solver.rs:221-271 | the cover of a connected component is connected if and only if no sign vector balances the component |
| `Build.Eliminated` | crates/within/src/block_elim/solver.rs:164-184 | reciprocals of a positive eliminated diagonal, or the first index whose entry is not positive |
| `Build.FactorReduced` | crates/within/src/block_elim/solver.rs:192-217 | the backend is asked for the exact complement where that is small; unless only its dense factorization failed that answer stands, otherwise the exact or sampled complement is factored as configured; the call fails exactly when the deciding attempt does, and a factor of an exact complement solves it whenever it is solvable |
| `Build.BuildSolver` | crates/within/src/block_elim/solver.rs:311-347 | the solver holds the factor of that block, directly for a Laplacian form and behind a cover otherwise, and over an exact complement fits its matrix; it succeeds exactly when the eliminated diagonal is positive and the deciding attempt does, and says which of the two failed |
| `Build.ConvertedSolverRepresents` | crates/within/src/domain/factor_pairs/sddm.rs:158-352 | the built solver represents the signed Gram matrix if and only if no scaled row was in deficit and no surplus was rounded away |
| `Build.PlainRepresents` | crates/within/src/domain/factor_pairs/sddm.rs:173-197 | a component adopted with its own diagonal represents its Gram matrix |
| `LocalAnswers.ConvertedConnected` | crates/within/src/domain/factor_pairs/sddm.rs:249-262 | nonzero factors fold a connected block to a connected one |
| `LocalAnswers.OrientedConnected` | crates/within/src/domain/factor_pairs/sddm.rs:86-106 | orientation keeps a block connected |
| `LocalAnswers.BalancesAreSignatures` | crates/within/src/domain/factor_pairs/sddm.rs:355-380 | the sign balances of the folded component are the signatures of the original one, and both see the same part of the right-hand side |
| `LocalAnswers.LocalSolveAnswersGram` | crates/within/src/block_elim/solver.rs:311-347 | convert, build and solve together: the signed Gram system of a connected component converted without loss is solved if and only if some scaled row is strictly dominant or the right-hand side, weighted by the factors, is orthogonal to every signature |
| `DomainAnswers.DomainSolves` | crates/within/src/domain/factor_pairs.rs:94-152 | the solver built for the domain of a reachability class solves the original equations it represents if and only if the domain answers the folded right-hand side |
| `DomainAnswers.DomainAnswersGram` | crates/within/src/domain/factor_pairs.rs:94-152 | extract, orient, convert, build and solve together: from a reachability class to its signed Gram system, under the scaling the relaxation reaches solved if and only if some scaled row is strictly dominant or the weighted right-hand side is orthogonal to every signature |
| `DomainAnswers.ExactDomainAnswersGram` | crates/within/src/domain/factor_pairs.rs:94-152 | the default class end to end: the component of an exact intercept pair, adopted as a Laplacian, built and solved, answers its Gram system if and only if the right-hand side has one total over its rows and over its columns |
| `LocalOperators.LocalLinear` | crates/within/src/block_elim/solver.rs:444-467 | on a connected component whose gauge leaves nothing undetermined the local solve of a combination is the combination of the local solves |
| `LocalOperators.LocalSymmetric` | crates/within/src/block_elim/solver.rs:444-467 | and it is symmetric |
| `LocalOperators.LocalEnergy` | crates/within/src/block_elim/solver.rs:444-467 | its energy is nonnegative, and zero exactly for right-hand sides the elimination never sees |
| `LocalOperators.GaugedUnique` | crates/within/src/block_elim/solver.rs:350-423 | in gauge the folded system has one solution |
| `EdgeSort.SortAndDedup` | crates/within/src/block_elim/schur.rs:375-403 | both sorting branches give the merge of the one sorted arrangement |
| `EdgeSort.CountingSortByLo` | crates/within/src/block_elim/schur.rs:406-426 | a rearrangement of the edges in non-decreasing `lo` |
| `EdgeSort.Dedup` | crates/within/src/block_elim/schur.rs:393-402 | the read/write-index pass equals merging equal neighbours in order |
| `EdgeSort.MergedEdges` | crates/within/src/block_elim/schur.rs:375-403 | merged pairs ascend strictly and each keeps the total weight emitted for it |
| `EdgeSort.SortByMultiset` | crates/within/src/block_elim/schur.rs:337-372 | the order in which edges arrive does not influence the sorted list |
| `EdgeLaplacian.BuildLaplacianCsr` | crates/within/src/block_elim/schur.rs:149-195 | the two-cursor fill yields strictly ascending rows: lower part, degree, upper part |
| `EdgeLaplacian.RowCoef` | crates/within/src/block_elim/schur.rs:149-195 | an entry is minus the pair weight off the diagonal and the degree on it |
| `EdgeLaplacian.LaplacianMeaning` | crates/within/src/block_elim/schur.rs:149-195 | the block is symmetric, minus the total pair weight off the diagonal, and every row sums to zero |
| `EdgeLaplacian.LaplacianOfEmitted` | crates/within/src/block_elim/schur.rs:149-195 | from unsorted emitted edges to entries: minus the total weight between two vertices, whatever the order |
| `SampledSchur.ParEmit` | crates/within/src/block_elim/schur.rs:337-372 | the sorted, merged list of all star edges and positive kept surpluses |
| `SampledSchur.Sampled` | crates/within/src/block_elim/schur.rs:64-68 | for every sound sampler the result is a graph Laplacian with the emitted pair weights |
| `SampledSchur.CapacityIsDiagonal` | crates/within/src/block_elim/schur.rs:306-322 | the total weight of a star with its surplus edge is the eliminated diagonal |
| `SampledSchur.WholeCliquesAreExact` | crates/within/src/block_elim/schur.rs:63-79 | if the sampler returns whole cliques the sampled matrix equals the exact reduced matrix entry by entry |
| `Transposition.Transpose` | crates/within/src/csr_block.rs:59-90 | strictly ascending output rows store exactly the mirror image of the input |
| `Transposition.TransposeEntry` | crates/within/src/csr_block.rs:59-90 | the transpose at (j, i) is the block at (i, j) |
| `Transposition.TransposeTwice` | crates/within/src/csr_block.rs:59-90 | transposing twice gives the identical row pointers, indices and data |
| `Csr.CanonicalBlocksUnique` | crates/within/src/csr_block.rs:26-56 | two ascending blocks without stored zeros that denote the same matrix are identical |
| `Spmv.SpmvAssignAdd` | crates/within/src/csr_block.rs:129-187 | `y` becomes base plus the matrix product on its stretch and is untouched elsewhere |
| `LevelMoment.LevelMoments.Observe` | crates/within/src/solver/reparam.rs:233-252 | after one more observation the stored moments still describe the two-pass sums of every level |
| `LevelMoment.UpdateDescribes` | crates/within/src/solver/reparam.rs:233-252 | the weighted one-pass update of means and comoments equals recomputing the two-pass sums |
| `LevelMoment.CenteredAtMean` | crates/within/src/solver/reparam.rs:254-275 | about the mean the two-pass sum is the raw second moment less the share of the mean |
| `LevelMoment.Gram` | crates/within/src/solver/reparam.rs:260-275 | the matrix read off is symmetric and is the weighted Gram of the level's deviations |
| `LevelMoment.TriIndexInjective` | crates/within/src/solver/reparam.rs:214-220 | distinct cells of the packed triangle never share a place |
| `GramSchmidt.PivotedGramSchmidt` | crates/within/src/solver/reparam.rs:284-316 | `W G W^T = I` with rows supported on the kept columns, one row per kept column; each pivot stands out against the rows before it by more than the tolerance, most of all that do, and what is left of every dropped column does not |
| `GramSchmidt.PivotedUnique` | crates/within/src/solver/reparam.rs:284-316 | the Gram matrix and the tolerance determine the rows, the pivots and which columns are kept |
| `GramSchmidt.FindPivot` | crates/within/src/solver/reparam.rs:288-291 | an eligible column of largest residual, the last one on a tie |
| `GramSchmidt.RemainderEnergy` | crates/within/src/solver/reparam.rs:303-312 | the energy of the remainder is the tracked residual variance |
| `GramSchmidt.ExtendedOrthonormal` | crates/within/src/solver/reparam.rs:294-313 | normalizing the remainder extends the orthonormal basis |
| `Whitening.BuildTerm` | crates/within/src/solver/reparam.rs:78-169 | on the columns of an effect, within every level the returned columns have weighted Gram `diag(1..1, 0..0)` and, with an intercept, weighted mean zero; each level is pivoted at the rank tolerance, and the directions listed, by address, are exactly the dropped ones and the intercepts of levels without weight |
| `Whitening.LevelDetermined` | crates/within/src/solver/reparam.rs:113-150 | the observations and the tolerance determine which slopes a level keeps and, where it has weight, its whole transform |
| `Whitening.SplitColumns` | crates/within/src/solver/reparam.rs:86-97 | the slope columns with their covariates in order, and the constant column if there is one |
| `Whitening.LevelWhitened` | crates/within/src/solver/reparam.rs:117-160 | the loadings written for one level have identity Gram on kept directions and zero elsewhere |
| `Whitening.LevelCentered` | crates/within/src/solver/reparam.rs:137-160 | with an intercept every whitened column has weighted mean zero in its level |
| `Whitening.UnidentifiedExactly` | crates/within/src/solver/reparam.rs:118-136 | a direction is listed if and only if its slope was dropped there or, for the intercept, the level carries no weight |
| `Whitening.UnidentifiedByAddress` | crates/within/src/solver/reparam.rs:118-136 | read by address: the intercept is listed exactly at levels without weight, a slope exactly where it was dropped |
| `BackTransforms.BackTransform` | crates/within/src/solver/reparam.rs:173-194 | every level's slots hold the mapped coefficients and every slot outside the term is untouched |
| `BackTransforms.FitPreservedIff` | crates/within/src/solver/reparam.rs:173-194 | the fitted value is preserved if and only if the level kept a direction or its whitened slope part contributed nothing |
| `SlopeFits.SolverLeavesZero` | crates/within/src/solver/reparam.rs:43-47 | past the rank of a level the whitened columns are empty, so the solver leaves exact zeros there |
| `SlopeFits.SolverKeepsFit` | crates/within/src/solver/reparam.rs:173-194 | at every observation the fitted value of what the solver returns survives the back-transform, fully dropped levels included |
| `SlopeFits.DroppedComesBackZero` | crates/within/src/solver/reparam.rs:43-47 | a slope reported as unidentified comes back exactly zero |
| `SlopeFits.ConstantIsDropped` | crates/within/src/solver/reparam.rs:113-150 | an intercept with a constant slope: whatever the tolerance, the build keeps no direction |
| `SlopeFits.FitLost` | crates/within/src/solver/reparam.rs:173-194 | why those zeros are needed: in that term a coefficient left in the dropped slot turns a fit of zero into one |
| `VectorKernels.AxpyWithSqNorm` | crates/schwarz-precond/src/lsmr/bidiag.rs:24-43 | the updated vector and the squared norm of that result, from one sweep |
| `VectorKernels.AlphaFromVp` | crates/schwarz-precond/src/lsmr/bidiag.rs:99-111 | the root of a nonnegative pairing, zero for one negative within roundoff, an error beyond |
| `VectorKernels.VecNorm` | crates/schwarz-precond/src/lsmr.rs:24-36 | the scaled accumulation equals the Euclidean norm |
| `Bidiagonal.RunOrthogonal` | crates/schwarz-precond/src/lsmr/bidiag.rs:386-472 | over every run the left vectors are orthogonal and the right ones orthogonal in the preconditioner's metric, for any linear, symmetric preconditioner of nonnegative energy |
| `Bidiagonal.NoEnergy` | crates/schwarz-precond/src/lsmr/bidiag.rs:99-111 | a direction without energy is one the preconditioner sends to zero, so a vanished alpha means that nothing is left to see |
| `Bidiagonal.RunUnique` | crates/schwarz-precond/src/lsmr/bidiag.rs:386-472 | one right-hand side determines the whole run, scalars and vectors |
| `Bidiagonal.StalledStep` | crates/schwarz-precond/src/lsmr/bidiag.rs:414-512 | after a vanished right vector nothing but zeros follows |
| `GolubKahan.NextOfIsNext` | crates/schwarz-precond/src/lsmr/bidiag.rs:278-304 | the normalized successor with exact square roots satisfies the recurrence as far as the preconditioner sees, and entry by entry until it breaks down |
| `ModifiedGolubKahans.ModifiedGolubKahan.constructor` | crates/schwarz-precond/src/lsmr/bidiag.rs:428-472 | the buffers simulate the first textbook triple of the right-hand side |
| `ModifiedGolubKahans.ModifiedGolubKahan.Step` | crates/schwarz-precond/src/lsmr/bidiag.rs:278-304 | for every state reached the step never errs, extends the textbook run by one triple and returns that triple's scalars, the buffers holding it as far as the preconditioner sees |
| `ModifiedGolubKahans.ModifiedGolubKahan.Advance` | crates/schwarz-precond/src/lsmr/bidiag.rs:488-512 | the right half leaves `p` scaled by alpha and `v` its preconditioned image, equal to the textbook successor |
| `ModifiedGolubKahans.ModifiedGolubKahan.UpdatePTilde` | crates/schwarz-precond/src/lsmr/bidiag.rs:475-485 | `p` becomes the raw right vector of the unnormalized `u` |
| `ModifiedGolubKahans.ReorthonormalizeV` | crates/schwarz-precond/src/lsmr/bidiag.rs:488-512 | windowed reorthogonalization followed by one product keeps `v` the preconditioned `p` |
| `ModifiedGolubKahans.RunStalls` | crates/schwarz-precond/src/lsmr/bidiag.rs:278-304 | after a breakdown every later step reports (0, 0) |
| `ModifiedGolubKahans.StalledLeft` | crates/schwarz-precond/src/lsmr/bidiag.rs:475-485 | where alpha vanished the next left vector vanishes too, so the quotient beta/alpha is never taken there |
| `WindowRings.WindowRing.Push` | crates/schwarz-precond/src/lsmr/bidiag.rs:206-216 | the window becomes its last `cap` pairs with the new one at the end |
| `WindowRings.WindowRing.Reorthogonalize` | crates/schwarz-precond/src/lsmr/bidiag.rs:195-203 | both vectors are swept against the window, oldest pair first, the ring unchanged |
| `WindowRings.SweepKeepsPrecond` | crates/schwarz-precond/src/lsmr/bidiag.rs:195-203 | the lockstep sweep keeps `v` the preconditioned image of `p` |
| `WindowRings.SweepOrthogonalizes` | crates/schwarz-precond/src/lsmr/bidiag.rs:195-203 | the swept vector is orthogonal to every pair of the window |
| `Recurrence.GivensRotates` | crates/schwarz-precond/src/lsmr/recurrence.rs:20-27 | the rotation maps (a, b) to (r, 0) with nonnegative radius and unit coefficients |
| `Recurrence.LsmrRecurrenceState.Step` | crates/schwarz-precond/src/lsmr/recurrence.rs:81-107 | the new scalars are those of two chained rotations |
| `Recurrence.AdvancedUnique` | crates/schwarz-precond/src/lsmr/recurrence.rs:81-107 | a step is determined by its inputs, so a run determines whether its guards were clear |
| `Recurrence.SoundStep` | crates/schwarz-precond/src/lsmr/recurrence.rs:81-107 | with a nonzero incoming diagonal every denominator of the step is positive |
| `Recurrence.EstimatesNeverIncrease` | crates/schwarz-precond/src/lsmr/recurrence.rs:109-122 | neither the residual nor the normal-equation estimate grows in any step |
| `Lsmr.StagesFall` | crates/schwarz-precond/src/lsmr/recurrence.rs:109-122 | along all stages of a run neither estimate is ever larger than at an earlier one |
| `Recurrence.AlphaZeroCollapses` | crates/schwarz-precond/src/lsmr/recurrence.rs:81-107 | a step with alpha zero makes the normal-equation estimate zero at once |
| `NormalEquations.SolutionState.Update` | crates/schwarz-precond/src/lsmr/recurrence.rs:143-191 | the fused sweep gives the three updated vectors from their old values |
| `NormalEquations.TracksStep` | crates/schwarz-precond/src/lsmr/recurrence.rs:143-191 | exact quotients keep `M^-1 A^T (b - A x)` equal to the tracked scalar times the preconditioned tracked direction |
| `Krylov.GeometryStep` | crates/schwarz-precond/src/lsmr/recurrence.rs:81-191 | every iteration keeps the iterate in the explored span and the tracked directions orthonormal to it |
| `Krylov.ResidualAtLeastEstimate` | crates/schwarz-precond/src/lsmr/recurrence.rs:110-112 | the residual estimate never exceeds the true residual norm |
| `Krylov.NormalEstimateExact` | crates/schwarz-precond/src/lsmr/recurrence.rs:115-122 | once the identity holds the normal-equation estimate is exact |
| `LsmrInvariant.InvariantStep` | crates/schwarz-precond/src/lsmr.rs:323-328 | one iteration keeps the loop invariant for every outcome of the update's guards |
| `LsmrInvariant.GuardedUpdateIff` | crates/schwarz-precond/src/lsmr/recurrence.rs:143-191 | the guarded update keeps the normal-equation identity if and only if its quotient was taken in full or the scalar was zero |
| `LsmrInvariant.ClearIsExact` | crates/schwarz-precond/src/lsmr/recurrence.rs:143-191 | a clear guard takes both quotients exactly |
| `LsmrInvariant.EstimatesMeasure` | crates/schwarz-precond/src/lsmr/recurrence.rs:109-122 | on every run the residual estimate is a lower bound and, guards clear, the normal-equation one is exact |
| `ExactResidual.ResidualExactIff` | crates/schwarz-precond/src/lsmr/recurrence.rs:109-112 | with exact quotients the residual estimate equals the residual norm of the new iterate if and only if the right vector has vanished, and is strictly below it otherwise |
| `LsmrInvariant.ClearStep` | crates/schwarz-precond/src/lsmr.rs:323-328 | an iteration whose guards are clear keeps the tracked identities and leaves the estimate exact exactly on breakdown |
| `LsmrInvariant.NoGuard` | crates/schwarz-precond/src/lsmr/recurrence.rs:143-191 | with a zero threshold every guard is clear |
| `Lsmr.ConvergenceState.Check` | crates/schwarz-precond/src/lsmr/recurrence.rs:244-255 | reports the residual tolerance exactly when the residual estimate meets it, else the normal-equation tolerance exactly when that estimate is within tolerance of the two norms, else nothing |
| `Lsmr.AfterIteration` | crates/schwarz-precond/src/lsmr.rs:329-360 | either the run ends with a truthful report, its numbers those of the stage just reached, or the next step starts from a positive alpha |
| `Lsmr.LsmrFromBidiag` | crates/schwarz-precond/src/lsmr.rs:298-371 | ends within `maxiter`; the stop reason certifies its tolerance, its budget or a stall; the two numbers are the estimates of the last stage of the run and no larger than at any stage before; the residual estimate is a lower bound, and when the guards of that very run were clear it is exact exactly on breakdown and the normal-equation report is exact; without a threshold the guards are always clear |
| `Lsmr.Mlsmr` | crates/schwarz-precond/src/lsmr.rs:206-295 | accepts exactly well-shaped input, for any linear, symmetric preconditioner of nonnegative energy; whatever the warm start the report is about `b - A x` for the original `b` and the returned `x`, what was added to the warm start is orthogonal to whatever all preconditioned gradients are, and the bounds, exactness and tolerances of `LsmrFromBidiag` carry over |
| `Attainables.RunIsAttainable` | crates/schwarz-precond/src/lsmr/bidiag.rs:278-304 | combinations of a run's right vectors are orthogonal to whatever every preconditioned gradient `M^-1 A^T u` is orthogonal to |
| `Attainables.UntouchedStaysZero` | crates/schwarz-precond/src/lsmr/bidiag.rs:278-304 | a coefficient no preconditioned gradient touches is zero in every iterate |
| `Lsmr.ShiftedEnergies` | crates/schwarz-precond/src/lsmr.rs:226-292 | correcting a warm start leaves the residual and normal-equation energies of the corrected system |
| `StalenessRuns.StalenessRun.ShouldEscalate` | crates/schwarz-precond/src/lsmr.rs:148-159 | escalates exactly when the trailing stall has reached the window |
| `StalenessRuns.TrailingMeansRatios` | crates/schwarz-precond/src/lsmr.rs:141-160 | over positive residuals escalation means the last `window` ratios all exceeded the threshold, and conversely |
| `StalenessRuns.TryNew` | crates/schwarz-precond/src/lsmr.rs:119-128 | a policy is accepted exactly for a positive window and an admissible threshold, and the error names the one that was not |
| `ResidualEstimate.EstimateUndershoots` | crates/schwarz-precond/src/lsmr/recurrence.rs:109-112 | on a concrete 2x2 run with clear guards the residual test stops at a tolerance of nine tenths on an estimate of four fifths, while the residual norm exceeds nine tenths |
| `Subdomains.RestrictWeighted` | crates/schwarz-precond/src/domain.rs:135-152 | the local buffer starts with the weighted gather of the global vector |
| `Subdomains.ProlongateWeightedAdd` | crates/schwarz-precond/src/domain.rs:156-170 | every coefficient gains exactly the weighted local entries that map to it |
| `Subdomains.ApplyWeightedInto` | crates/schwarz-precond/src/local_solve.rs:106-125 | whatever the scratch held, success adds the subdomain's planned contribution and failure adds nothing |
| `AtomicBackend.PerformConserves` | crates/schwarz-precond/src/domain.rs:47-61 | a load or exchange, spuriously failing or not, keeps each cell plus what is still owed to it |
| `AtomicBackend.RunConserves` | crates/schwarz-precond/src/schwarz/executor.rs:76-126 | conservation over every interleaving |
| `AtomicBackend.AtomicSum` | crates/schwarz-precond/src/schwarz/executor.rs:76-126 | once all tasks finished, under any interleaving each cell is the sum of `R^T D A^-1 D R r` |
| `AtomicBackend.Completes` | crates/schwarz-precond/src/domain.rs:47-61 | from every reachable state some continuation settles every subdomain |
| `ReductionBackend.EnterConserves` | crates/schwarz-precond/src/schwarz/buffers.rs:162-186 | handing out a stacked or fresh buffer moves its contents without changing the total |
| `ReductionBackend.RunConserves` | crates/schwarz-precond/src/schwarz/buffers.rs:162-198 | every assignment of subdomains to re-entrant worker buffers conserves the total |
| `ReductionBackend.ReductionSum` | crates/schwarz-precond/src/schwarz/executor.rs:128-165 | the gathered buffers sum to the same Schwarz sum |
| `ReductionBackend.ReduceInto` | crates/schwarz-precond/src/schwarz/buffers.rs:239-258 | the output is the sum of all buffers and every buffer is zero afterwards |
| `ReductionBackend.FinishRound` | crates/schwarz-precond/src/schwarz/buffers.rs:219-237 | success gives the sum, failure zeros; either way every buffer returns zeroed |
| `SchwarzExecutor.BufferPool.Take` | crates/schwarz-precond/src/schwarz/buffers.rs:42-57 | a clean buffer of the asked strategy, taken out of the pool or fresh |
| `SchwarzExecutor.BufferPool.Put` | crates/schwarz-precond/src/schwarz/buffers.rs:60-71 | only successful, clean buffers are kept and the pool never exceeds four |
| `SchwarzExecutor.ApplyAtomic` | crates/schwarz-precond/src/schwarz/executor.rs:76-126 | success leaves the Schwarz sum in `z` and the accumulator zero; failure is reported |
| `SchwarzExecutor.ApplyReduction` | crates/schwarz-precond/src/schwarz/executor.rs:128-165 | success leaves the Schwarz sum in `z`; buffers return zeroed either way |
| `SchwarzExecutor.Apply` | crates/schwarz-precond/src/schwarz/executor.rs:55-74 | under either strategy and every schedule success gives the same `z`, and after success or failure the pool holds at most four all-zero buffers |
| `SchwarzOperators.SchwarzPairing` | crates/schwarz-precond/src/schwarz/preconditioner.rs:82-90 | the pairing of the Schwarz sum with a vector is the sum of the pairings of the local solves |
| `SchwarzOperators.SchwarzSemidefinite` | crates/schwarz-precond/src/schwarz/preconditioner.rs:82-90 | the Schwarz sum is linear, symmetric and of nonnegative energy when every local solve is |
| `SchwarzOperators.SchwarzUnseen` | crates/schwarz-precond/src/schwarz/preconditioner.rs:82-90 | and it sends a vector to zero exactly when every local solve sees no energy in it |
| `PairGrams.PairGramIsNormal` | crates/within/src/domain/cross_tab/accumulate.rs:66-273 | the accumulated matrix of a channel pair is the submatrix of the normal matrix `D^T W D` at the pair's coefficients |
| `DomainGrams.DomainGramIsNormal` | crates/within/src/domain/factor_pairs.rs:94-152 | extracted and oriented, a component's Gram matrix is the submatrix of the normal matrix at its own coefficients |
| `SchwarzDesigns.KernelMeetsNoGradient` | crates/schwarz-precond/src/schwarz/preconditioner.rs:82-90 | whatever that submatrix sends to zero is orthogonal to every gradient `D^T u` there |
| `SchwarzDesigns.RunningIsOperator` | crates/within/src/operator/schwarz.rs:105-113 | the solve of a connected component's entry is linear, symmetric and of nonnegative energy |
| `SchwarzDesigns.SeenExactly` | crates/within/src/operator/schwarz.rs:105-113 | one subdomain sees no energy in a gradient if and only if the gradient vanishes on it, floating gauges included |
| `SchwarzDesigns.SchwarzSystemOperators` | crates/within/src/operator/schwarz.rs:89-103 | the weighted design under its Schwarz preconditioner meets everything the iterative solver requires |
| `SchwarzDesigns.SchwarzBlindness` | crates/schwarz-precond/src/schwarz/preconditioner.rs:82-90 | the preconditioner sends `D^T u` to zero if and only if `D^T u` vanishes at every covered coefficient |
| `SchwarzDesigns.NormalEquationsMet` | crates/schwarz-precond/src/schwarz/preconditioner.rs:82-90 | with every nonempty column covered the normal-equation energy the solver reports on vanishes exactly at solutions of the normal equations |
| `ServedDomains.DomainRuns` | crates/within/src/domain/factor_pairs.rs:94-152 | every domain cut from an assembled pair is connected, determined by its gauge and scaled by nonzero factors |
| `ServedDomains.DomainServes` | crates/within/src/domain/factor_pairs.rs:94-152 | and its matrix is folded from the normal matrix, unless a general component taken as ungrounded lost something in its conversion |
| `DomainBuilds.FindAllActiveLevels` | crates/within/src/domain/cross_tab.rs:25-38 | a level is flagged exactly when some observation has it |
| `DomainBuilds.DesignPairsExactly` | crates/within/src/domain/factor_pairs.rs:48-60 | the pairs enumerated are exactly those of channels of two different terms, the earlier term first |
| `DomainBuilds.DomainsOfPair` | crates/within/src/domain/factor_pairs.rs:63-79 | one pair assembled, classified and split; nothing without observations; it fails exactly when a component of the pair is refused |
| `DomainBuilds.BuildLocalDomains` | crates/within/src/domain/factor_pairs.rs:36-92 | the domains and warnings of all pairs in order, weighted into a partition of unity unless there is a slope; it fails exactly when a component of some pair is refused |
| `DomainBuilds.BuiltCover` | crates/within/src/domain/factor_pairs.rs:94-114 | with several terms every coefficient whose column is not empty is held by some entry |
| `DomainBuilds.BuiltPreconditioner` | crates/within/src/operator/schwarz.rs:231-271 | from the design to its preconditioner: the iterative solver's requirements are met and, with several terms and nothing lost in conversion, the preconditioner is definite on the gradients |
| `DiagonalPreconditioners.BuildDiagonal` | crates/within/src/operator/schwarz.rs:185-229 | the result is the inverse diagonal of the normal matrix, zero where the diagonal is |
| `DiagonalPreconditioners.DiagonalSystemOperators` | crates/within/src/operator/schwarz.rs:54-87 | the diagonal preconditioner meets what the iterative solver requires |
| `DiagonalPreconditioners.DiagonalDefinite` | crates/within/src/operator/schwarz.rs:214-224 | it is definite on the gradients although zero diagonals stay in its null space |
| `ZeroColumns.EmptyInNoDomain` | crates/within/src/domain/factor_pairs.rs:94-114 | a coefficient whose column is empty is in no domain |
| `ZeroColumns.SchwarzLeavesEmpty` | crates/within/src/operator/schwarz.rs:89-103 | so the Schwarz preconditioner touches no such coefficient |
| `ZeroColumns.DiagonalLeavesEmpty` | crates/within/src/operator/schwarz.rs:214-224 | neither does the diagonal one |
| `ZeroColumns.PlainLeavesEmpty` | crates/schwarz-precond/src/lsmr.rs:206-295 | nor does a solve without preconditioner, which meets the requirements as well |
| `ZeroColumns.EmptyStaysZero` | crates/within/src/solver/reparam.rs:43-47 | under each of them what the solver returns is exactly zero at every empty column |
| `Accumulation.AccumulateDense` | crates/within/src/domain/cross_tab/accumulate.rs:170-193 | the canonical block and both diagonals are the sums over all active observations |
| `Accumulation.AccumulateSparse` | crates/within/src/domain/cross_tab/accumulate.rs:196-273 | the same sums, although a cancelling cell lists its column twice and one workspace serves all rows |
| `Accumulation.AccumulatedUnique` | crates/within/src/domain/cross_tab/accumulate.rs:157-167 | dense and sparse results are identical, row pointers, indices, data and diagonals |
| `Accumulation.Accumulate` | crates/within/src/domain/cross_tab/accumulate.rs:157-167 | the dispatch cannot be observed in the result |
| `Accumulation.ScatterBucket` | crates/within/src/domain/cross_tab/accumulate.rs:245-251 | the workspace is the bucket's totals and every nonzero cell is listed |
| `Accumulation.DrainRow` | crates/within/src/domain/cross_tab/accumulate.rs:252-262 | an ascending row without zeros, and an all-zero workspace, from a list with repetitions |
| `Accumulation.FillBuckets` | crates/within/src/domain/cross_tab/accumulate.rs:216-233 | every row's bucket holds its contributions in observation order |
| `Accumulation.FromDenseTable` | crates/within/src/csr_block.rs:93-126 | row pointers of the counting pass agree with the pushed nonzero cells of every row |
| `Accumulation.InterceptDiagonals` | crates/within/src/domain/cross_tab/accumulate.rs:66-82 | between two intercepts each diagonal is its row or column sum of `C` |
| `PairAssembly.CompactMap` | crates/within/src/domain/cross_tab.rs:41-51 | active levels are numbered from zero in order, and nothing else is mapped |
| `PairAssembly.BuildCompactMapping` | crates/within/src/domain/cross_tab.rs:54-86 | absent exactly when one side has no active level; otherwise local node `t` is the `t`-th active global column |
| `PairAssembly.BuildForPair` | crates/within/src/domain/cross_tab.rs:140-161 | a valid cross-tabulation with accumulated diagonals, nonnegative between intercepts |
| `PairAssembly.InterceptPairIsExact` | crates/within/src/domain/factor_pairs.rs:66-72 | an intercept pair satisfies the Laplacian claim exactly |
| `Components.BipartiteConnectedComponents` | crates/within/src/domain/cross_tab.rs:175-210 | sorted disjoint components covering every node, each exactly a reachability class |
| `Components.Explore` | crates/within/src/domain/cross_tab.rs:182-204 | the search from one root lists exactly the nodes it reaches, ascending |
| `Extraction.ExtractComponent` | crates/within/src/domain/cross_tab.rs:213-265 | every entry of the component's rows at its renumbered place, order and signs kept, and both remap buffers vacant again |
| `Extraction.KeptCoef` | crates/within/src/domain/cross_tab.rs:232-246 | renumbering keeps the coefficient of every kept column |
| `SplitSubdomains.ExtractAll` | crates/within/src/domain/factor_pairs.rs:103-124 | block, diagonal and ids of every component, the single-component shortcut included |
| `SplitSubdomains.EntryStaysInside` | crates/within/src/domain/factor_pairs.rs:103-124 | no nonzero entry crosses components |
| `SplitSubdomains.PartRowSums` | crates/within/src/domain/factor_pairs.rs:103-124 | exact row sums survive splitting |
| `SplitSubdomains.SurvivorsArePositive` | crates/within/src/domain/factor_pairs.rs:128-131 | of an exact Laplacian a component is entirely dead or has a positive diagonal throughout |
| `SplitSubdomains.DomainConnected` | crates/within/src/domain/factor_pairs.rs:103-146 | the matrix a reachability class is converted to is connected |
| `SplitSubdomains.SplitIntoSubdomains` | crates/within/src/domain/factor_pairs.rs:95-152 | one oriented, converted, connected domain per component that is not dead, in order, with the warnings of exactly the components that left one; it fails exactly when the diagonal of such a component is not positive or, in error mode, the scaling the relaxation reaches leaves a deficit beyond the tolerance; an exact Laplacian is never rejected and all its diagonals are positive |
| `PartitionOfUnity.ComputePartitionWeights` | crates/within/src/domain/factor_pairs.rs:155-194 | every weight is positive and for every covered coefficient the squared weights over all subdomains sum to one |
| `StableArgsort.Argsort` | crates/within/src/domain.rs:110-140 | both branches return the unique stable order of the observations |
| `StableArgsort.StableUnique` | crates/within/src/domain.rs:105-140 | there is only one permutation sorted by key with ties in original order |
| `StableArgsort.RoundTrip` | crates/within/src/domain.rs:281-303 | two lists that agree in internal order agree in the caller's order |
| `StableArgsort.PermuteOut` | crates/within/src/domain.rs:291-303 | the one list that permuting in takes to the given one, so permuting in and out is the identity |
| `StableArgsort.SortedLevels` | crates/within/src/domain.rs:225-236 | the sorting term's levels come out non-decreasing |
| `Scatter.ScatterSequential` | crates/within/src/operator/design/scatter.rs:124-136 | every coefficient gains the sum of its rows' values |
| `Scatter.ScatterFold` | crates/within/src/operator/design/scatter.rs:139-169 | the same sum for every way the range is split |
| `Scatter.ScatterAtomic` | crates/within/src/operator/design/scatter.rs:189-204 | the same sum under every interleaving and whatever the scratch held |
| `Scatter.ScatterSortedCoalesced` | crates/within/src/operator/design/scatter.rs:206-242 | the same sum for every chunk size and interleaving, level runs split across chunks included |
| `Scatter.ChunkCommits` | crates/within/src/operator/design/scatter.rs:219-239 | coalesced runs commit exactly the total of the chunk's rows |
| `DesignOperator.ScatterTerm` | crates/within/src/operator/design/scatter.rs:76-94 | all strategies agree |
| `DesignOperator.ScatterApply` | crates/within/src/operator/design/scatter.rs:14-73 | the result is the adjoint of the weighted design for every column structure, strategy and schedule |
| `DesignOperator.GatherApply` | crates/within/src/operator/design/gather.rs:10-78 | the result is the weighted design times the coefficients, for every chunk size; unrolled and generic kernels agree |
| `DesignOperator.RowDot` | crates/within/src/operator/design/gather.rs:10-109 | a row of the design meets one loaded coefficient per column |
| `DesignOperator.Adjoint` | crates/within/src/operator/design.rs:97-116 | `<r, D x> = <D^T r, x>` |
| `DesignSystem.DesignOperators` | crates/within/src/operator/design.rs:88-117 | the design operator meets what the iterative solver assumes of its operator |

## Left out

- Floating-point rounding, NaN, infinities, overflow and the panics of `u32` conversion; indices are natural numbers, and a sentinel index is an absent value.
- The `approx_chol` factorization and the clique sampler themselves: external, contracts only. The statistical accuracy of sampled complements and convergence rates of LSMR.
- `LocalAnswers.LocalSolveAnswersGram`: speaks about the exact reduced matrix; a solver built on a sampled matrix is only shown to get a graph Laplacian (`SampledSchur.Sampled`). The same holds for `DomainAnswers` and for the entries of `DomainBuilds.BuiltPreconditioner`.
- Parallel thresholds and chunk sizes: chunk sizes are parameters of the model, independent chunks are run in one order. Chunked matrix-vector products are modelled by the sequential one.
- `AtomicBackend.AtomicSum`: speaks of runs in which every task finished; that the thread pool runs a schedule to its end is an assumption, `AtomicBackend.Completes` shows only that nothing can be stuck.
- `Scatter.ScatterAtomic`: additions are the same compare-and-swap machine; the scratch keeps its seed in the model, since no caller reads it afterwards.
- Flat layouts of ring lanes, Gram matrices and moment blocks are nested sequences; the packed triangle of comoments, the row-major accumulation table and the strided coefficient blocks are kept flat.
- `Convert.Assemble` and several push-built or cursor-filled arrays (sparse blocks, buckets, tables) are sequences reassigned in place of mutable vectors; where a buffer is shared, overlapping or reused it is an array.
- Errors raised by an operator or preconditioner during LSMR, and the unpreconditioned solver, which is the same recurrence with the identity as preconditioner. `ZeroColumns.PlainOperators` covers the latter.
- `DomainBuilds.BuiltPreconditioner`: an entry's local solve is taken to succeed, as it does whenever the backend does; definiteness on gradients asks that a general component counted as ungrounded lost nothing in its conversion (`ServedDomains.KeptWhole`), since a clamped deficit is a changed matrix.
- `Build.BuildSolver`: any factor of the block it was given counts as exact; what an approximate factorization of that block solves is not modelled.
- `Lsmr.Mlsmr`: the finiteness checks on input have no counterpart over the reals.
- `PairAssembly.BuildForPair`: the choice between dense and sparse accumulation by memory cost is a parameter.
- Serialization and its validation, Python bindings, planning heuristics, configuration, timing, and the driver that combines the stages for a batch of right-hand sides.
