# Verified model of cuOpt's conic translation, branch and bound, and rational arithmetic

This project models three parts of cuOpt's solver in Dafny and proves what they promise.

**Second-order-cone translation** (`ConicModel`, `SocClassify`, `SocShapes`, `SocAcceptance`, `SocGeneral`, `SocPasses`,
`SocHeads`, `SocDisjoint`, `SocPermute`, `SocTranslate`, `SocLimits`). Quadratic rows are recognised as Lorentz cones, rotated
cones or cones with an affine head, or are factored by the general convex path; the affine heads and the rotated cones are
linked to fresh columns; shared and bounded cone members are replaced by linked copies; all columns are permuted so that the
cones are consecutive trailing blocks; the quadratic objective is scattered into the new order. `ConicProblem` is the problem
the passes change in place. The main theorem is the contract of `ConicProblem.Convert`: which lists of rows are accepted, read
off their coordinates, the layout the barrier gets, and that the translated problem has the same feasible points and the same
objective. `SocShapes.ShapeIff` says which rows are recognised as what.

**Branch and bound.** The tree that closes upward (`BranchPath`, `BranchTree`), the two-heap queue with lazy deletion and
stealing (`NodeQueue`), the pool of workers with the counters of active divers (`WorkerPool`), objective lattices
(`Lattice`) and reduced-cost tightening (`ReducedCosts`). `ParallelSearch` is the asynchronous search as a system of
atomic steps over any number of workers; `ParallelSafety` proves its invariant and what it implies for the global
bound, for termination and for the incumbent, and `ParallelSteps` which nodes are dropped, solved and branched on, and in
which order. The deterministic, bulk-synchronous mode has its own chain: the workers'
stacks and backlogs (`Deterministic`), the sorted merging of pseudo-costs (`PseudoCosts`, `PseudoCostRuns`), the replay of
events and solutions (`Replay`, `ReplayRuns`), the whole mode as a step system (`DeterministicSearch`), what its steps do
(`DeterministicSteps`), its safety (`DeterministicSafety`), its reported bound and verdict (`DeterministicVerdict`), when that
verdict can be trusted (`DeterministicExactness`), and the independence of the interleaving of the workers
(`DeterministicRuns`). `SortedOrders` holds the fact all of this rests on: two sorted arrangements of the same elements show
the same keys.

**Rational arithmetic** (`Integers`, `Rational`). The continued-fraction approximation, the fraction type and its gcd.

Arithmetic is exact, over `int` and `real`. A square root is a function whose results are non-negative and square back;
the LDLᵀ factorisation and the LP solver are oracles with a contract (`IsLdlt`, `LpOk`, `AnswerOk`). Pseudo-cost sums are
folded with an arbitrary addition function, so no law of real addition is used there.

Where the code and its comments disagree, the model follows the code:

- `rational.hpp` lines 18-22 say that failure means that no fraction within the limit is close enough. `PromiseIff` says
  that this holds for limits up to 7071068 and from 99999999999999 on, and for no limit in between; `PromiseFails` gives a
  number for which it is false at the default limit, `MissedIff` what happens at each single number.
- `translate_soc.hpp` line 838 reads the linear part of an affine row as it was given, so a `>=` row keeps the wrong sign.
  `AffineExactIff` says exactly when this matters, `AffineGreaterFails` gives a row.
- `translate_soc.hpp` lines 333-360 accept a negative square without tails and without a bound on the head. The result is
  right exactly when no point of the bounds and linear rows has a negative head (`TaillessExactIff`); `TaillessFails` gives a
  row, `TaillessGuard` a test that is enough.
- `translate_soc.hpp` lines 115-124 and 668 number columns from the same place, so affine and general rows in one call
  collide. `Convert` translates such calls as the code does: `TranslateRows` says that the reserved heads are fresh exactly
  when the call does not mix the two kinds, `CollisionForces` what a collision adds to the rows, and `MixedCallFails` runs a
  two-row call that loses a point.
- `branch_and_bound.cpp` lines 4193-4200 report optimal or infeasible as soon as no worker has work, also when a node was
  given up for numerical reasons. `VerdictExactIff` says exactly when that verdict can be trusted, `GuardExactIff` that under
  mild conditions this is the comparison of the numerical bound with the upper bound, and `AbandonedHidesPoint` gives a run in
  which a feasible problem is reported infeasible.

## Model

| member | source | states |
|---|---|---|
| SocTranslate.ConicProblem.Convert | cpp/src/barrier/translate_soc.hpp:54-1315 | no error is reported exactly when there are quadratic rows, each of them is acceptable by its coordinates (special form with heads kept non-negative by their bound or a singleton row and continuous columns where needed, or found convex), and the quadratic objective is readable; then integer columns are still integer where the column map puts them, the cones are disjoint trailing blocks of the recorded sizes, every member free or a head in [0, inf); and when tail-less heads are bounded, affine rows are given as at-most rows and not mixed with general rows, the accepted points project onto exactly the feasible points of the input with equal linear and quadratic objective |
| SocTranslate.AcceptedIff | cpp/src/barrier/translate_soc.hpp:126-899 | a list of rows passes all checks on shapes, convexity and variable types exactly when every row is acceptable by its coordinates, without the shape being named |
| SocAcceptance.AcceptableIff | cpp/src/barrier/translate_soc.hpp:126-657 | the same for one row |
| SocAcceptance.HeadTestIff | cpp/src/barrier/translate_soc.hpp:69-89 | the better of explicit and implied lower bound of a column is non-negative exactly when its bound is, or some singleton row states so |
| SocTranslate.ConicProblem.TranslateRows | cpp/src/barrier/translate_soc.hpp:112-792 | every row becomes its cone or its general columns and rows, without an error exactly when no row is rejected; the columns reserved for affine heads are still unused exactly when the call does not mix affine and general rows |
| SocTranslate.ConicProblem.TranslateAll | cpp/src/barrier/translate_soc.hpp:54-1016 | afterwards there are only cones, with the linking rows of every affine head in its reserved column and of the first general row from the first new column on; an extension of the input when nothing above is violated |
| SocTranslate.ConicProblem.InstallAffineHeads | cpp/src/barrier/translate_soc.hpp:795-870 | bounds, linking rows and rotated cones of the affine heads in their reserved columns, taken or not |
| SocTranslate.BarrierSolution.ProjectToModel | cpp/src/barrier/translate_soc.hpp:1319-1338 | primal point and reduced costs become the gather along the recorded column map, the duals stay |
| SocClassify.NormalizeGreaterToLess | cpp/src/barrier/translate_soc.hpp:32-52 | the in-place sign changes leave the normalised row |
| SocClassify.NormalizedSat | cpp/src/barrier/translate_soc.hpp:32-52 | a row and its normalised form hold at the same points |
| SocClassify.ImpliedLowers | cpp/src/barrier/translate_soc.hpp:69-89 | for every column the best lower bound that singleton rows imply |
| SocClassify.ImpliedLowerValid | cpp/src/barrier/translate_soc.hpp:69-89 | every point that satisfies the rows respects the implied bound |
| SocClassify.ImpliedLowerBest | cpp/src/barrier/translate_soc.hpp:69-89 | the implied bound is at least that of every singleton row and is attained by one of them, minus infinity without any |
| SocClassify.FormByParts | cpp/src/barrier/translate_soc.hpp:137-260 | the quadratic form is the sum over its positive, negative and cross entries |
| SocShapes.Classify | cpp/src/barrier/translate_soc.hpp:126-551 | invalid arguments are rejected for the first reason that applies; any other row gets the one shape that fits its coordinates |
| SocShapes.ShapeIff | cpp/src/barrier/translate_soc.hpp:262-551 | a shape is the one decided on if and only if it fits the coordinates: special form is a zero right-hand side, no coordinate row twice, and squares of one positive scale besides at most one negative entry, none with a linear part; every shape and every refusal is read off that entry, the scale and the head bounds, and all other rows are general |
| SocShapes.LorentzRecognised | cpp/src/barrier/translate_soc.hpp:361-407 | -s head² + s |tails|² with a bounded head and at least one tail is recognised with that head and exactly the other columns, in increasing order |
| SocShapes.RotatedRecognised | cpp/src/barrier/translate_soc.hpp:452-532 | -2d a b + s |tails|² with bounded heads and at least one tail is recognised with those heads and tails, and with the non-negative ratio of square d/s |
| SocShapes.AffineRecognised | cpp/src/barrier/translate_soc.hpp:408-447 | s |tails|² with a linear part is recognised with scale s and exactly its columns |
| SocShapes.GeneralPathIff | cpp/src/barrier/translate_soc.hpp:262-291 | the tests on the sorted and partitioned entries send a row down the general path exactly when its coordinates have no special form |
| SocClassify.ShapeExact | cpp/src/barrier/translate_soc.hpp:137-551 | on points that respect the head bounds a recognised row holds exactly when the cone, rotated cone or affine cone that replaces it holds |
| SocClassify.ShapeColumns | cpp/src/barrier/translate_soc.hpp:262-551 | a recognised row only names columns of the model and repeats none in its cone |
| SocGeneral.CollectVars | cpp/src/barrier/translate_soc.hpp:553-588 | exactly the columns of the row, without repetition, and their inverse numbering |
| SocGeneral.AccumulateHessian | cpp/src/barrier/translate_soc.hpp:589-629 | for any coordinate list with duplicates the stored triangle is that of Q + Qᵀ |
| SocGeneral.HessFormExact | cpp/src/barrier/translate_soc.hpp:564-629 | half of xᵀ(Q + Qᵀ)x is the sum of v·x_r·x_c over the list |
| SocGeneral.FactoredForm | cpp/src/barrier/translate_soc.hpp:630-657 | given a factorisation, xᵀHx is the sum of d_k times the squares of the linear forms of the factor |
| SocGeneral.GeneralExact | cpp/src/barrier/translate_soc.hpp:553-792 | a convex row holds exactly when the values fixed by its linking rows lie in the cone of dimension rank + 2 |
| SocPasses.GeneralExtends | cpp/src/barrier/translate_soc.hpp:658-792 | the emitted rows and cone extend the model: every feasible point has exactly one continuation and no point is added |
| SocPasses.RecognisedExtends | cpp/src/barrier/translate_soc.hpp:262-551 | replacing a recognised row by its cone changes no feasible point |
| SocPasses.AffineExtends | cpp/src/barrier/translate_soc.hpp:795-870 | when every affine row was given as an at-most row, its head in a fresh column, its linking row and rotated cone extend the model |
| SocHeads.WithHeadsDefines | cpp/src/barrier/translate_soc.hpp:112-124 | when the reserved columns are the next free ones, installing the heads there defines new columns |
| SocHeads.WithHeadsLinear | cpp/src/barrier/translate_soc.hpp:795-870 | also in taken columns, heads only narrow the points of the bounds and linear rows |
| SocPasses.LiftExtends | cpp/src/barrier/translate_soc.hpp:872-1016 | with non-negative heads, lifting all rotated cones to standard ones extends the model |
| SocPasses.CopyExtends | cpp/src/barrier/translate_soc.hpp:1018-1190 | replacing cone members by columns tied to them by equality rows extends the model |
| ConicModel.ExtendsByDefinition | cpp/src/barrier/translate_soc.hpp:658-870 | columns defined by linking rows, with constraints that agree on linked points, make an extension |
| ConicModel.ExtendsTransitive | cpp/src/barrier/translate_soc.hpp:54-1190 | the passes compose |
| SocDisjoint.AliasShared | cpp/src/barrier/translate_soc.hpp:1018-1100 | afterwards no column is in two cones, each cone keeps its size, and a member is replaced, by a recorded copy, exactly when an earlier cone has it |
| SocDisjoint.SplitBounded | cpp/src/barrier/translate_soc.hpp:1102-1190 | afterwards every member is free, a head in [0, inf) or a fresh copy, the members stay distinct, and exactly the members that are neither are replaced |
| SocPermute.BuildOrder | cpp/src/barrier/translate_soc.hpp:1192-1215 | the numbering is a bijection that puts the cones, in order, behind all other columns |
| SocPermute.FlattenAt | cpp/src/barrier/translate_soc.hpp:1197-1212 | member i of cone k is at place i of block k |
| SocPermute.PermutedCones | cpp/src/barrier/translate_soc.hpp:1197-1250 | a permuted point lies in the blocks exactly when the point lies in the cones |
| SocPermute.PermutedLinear | cpp/src/barrier/translate_soc.hpp:1216-1250 | a permuted point satisfies the permuted bounds and rows exactly when the point satisfies the original ones |
| SocPermute.PermutedObjective | cpp/src/barrier/translate_soc.hpp:1228-1248 | the permuted linear objective has the same value |
| SocPermute.ScatterQuadratic | cpp/src/barrier/translate_soc.hpp:1252-1303 | counting, prefix sums and scattering leave a valid matrix whose rows are the old rows renamed |
| SocPermute.PermutedCsrForm | cpp/src/barrier/translate_soc.hpp:1252-1303 | the scattered quadratic objective has the same value at the permuted point |
| SocPermute.SegmentsTotal | cpp/src/barrier/translate_soc.hpp:1264-1284 | the row segments of the new matrix tile its value array |
| SocTranslate.RelaidOnto | cpp/src/barrier/translate_soc.hpp:1192-1315 | every accepted point of the final problem projects to a feasible model point |
| SocTranslate.RelaidInto | cpp/src/barrier/translate_soc.hpp:1192-1315 | every feasible model point is the projection of an accepted point |
| SocTranslate.RelaidObjective | cpp/src/barrier/translate_soc.hpp:1228-1315 | the projection has the same linear and quadratic objective |
| SocLimits.AffineExactIff | cpp/src/barrier/translate_soc.hpp:801-870 | an affine row is represented exactly if and only if it was given as an at-most row or its coefficients cancel in every column |
| SocLimits.AffineGreaterFails | cpp/src/barrier/translate_soc.hpp:838-838 | a concrete at-least row and a point on which row and translation disagree |
| SocLimits.TaillessExactIff | cpp/src/barrier/translate_soc.hpp:333-360 | on the points of the bounds and linear rows, a negative square without tails agrees with its cone if and only if none of these points has a negative head |
| SocLimits.TaillessGuard | cpp/src/barrier/translate_soc.hpp:333-360 | a non-negative lower bound of the head, its own or implied by a singleton row, is enough |
| SocLimits.TaillessOnBox | cpp/src/barrier/translate_soc.hpp:333-360 | without linear rows that test is also necessary |
| SocLimits.TaillessFails | cpp/src/barrier/translate_soc.hpp:333-360 | the row -x0² <= 0 on a free column holds at -1, the cone it becomes does not |
| SocTranslate.HeadsFreshIff | cpp/src/barrier/translate_soc.hpp:112-124 | reserved affine heads lie behind the columns of the general rows if and only if the call does not mix the two kinds |
| SocLimits.CollisionForces | cpp/src/barrier/translate_soc.hpp:666-836 | an affine head in the first column of a general row forces, on every point of the emitted rows, the square of the scaled linear part below twice the quadratic form of the general row |
| SocLimits.MixedCallFails | cpp/src/barrier/translate_soc.hpp:112-870 | the call with x0² + x1 <= 0 and x0² <= 1 is accepted when the second row is found convex, and then no point of its emitted rows extends (0, -1), which satisfies both rows |
| SocLimits.MixedCallAccepted | cpp/src/barrier/translate_soc.hpp:630-657 | some factorisation routine within its contract finds that row convex |
| Lattice.SnapSafe | cpp/src/branch_and_bound/branch_and_bound.cpp:1325-1336 | no lattice value at or above the leaf objective lies below the snapped bound |
| Lattice.SnapMonotone | cpp/src/branch_and_bound/branch_and_bound.cpp:1325-1336 | snapping keeps the order of leaf objectives |
| Lattice.SnapNear | cpp/src/branch_and_bound/branch_and_bound.cpp:1325-1336 | the snapped bound is at most the tolerance below the leaf objective, and at tolerance zero on the lattice |
| Lattice.SnapIsLeast | cpp/src/branch_and_bound/branch_and_bound.cpp:1325-1336 | the snapped bound is the least lattice value that is not more than the tolerance below the leaf objective |
| Lattice.CutoffExactIff | cpp/src/branch_and_bound/branch_and_bound.cpp:1551-1565 | the cutoff loses no improving lattice value if and only if the incumbent value is a lattice value up to the tolerance from below |
| Lattice.CutoffSafe | cpp/src/branch_and_bound/branch_and_bound.cpp:1551-1565 | with the incumbent on the lattice a relaxation at or above the cutoff holds no improving value |
| Lattice.CutoffIsGreatest | cpp/src/branch_and_bound/branch_and_bound.cpp:1551-1565 | below the dual tolerance the cutoff is the greatest lattice value whose successor does not exceed the incumbent by more than the tolerance |
| ReducedCosts.FindReducedCostFixings | cpp/src/branch_and_bound/branch_and_bound.cpp:446-503 | for an integer column of large reduced cost with a finite bound on the side it pushes against, exactly the affordable integers remain of the old interval; every other bound is unchanged; the number returned is that of the columns whose affordable integers lie within the fixing tolerance of the bound |
| ReducedCosts.TighteningExact | cpp/src/branch_and_bound/branch_and_bound.cpp:463-488 | an integer stays in the reduced interval exactly when the move from the bound to it costs at most the gap, up to the tolerance |
| ReducedCosts.CountsIffFixed | cpp/src/branch_and_bound/branch_and_bound.cpp:489-499 | a column is counted as fixed exactly when all affordable integers lie within the tolerance of its bound |
| ReducedCosts.GapBound | cpp/src/branch_and_bound/branch_and_bound.cpp:446-503 | with complementary duals the objective exceeds the root value at least by the reduced cost times the move of any one column |
| ReducedCosts.TighteningSafe | cpp/src/branch_and_bound/branch_and_bound.cpp:446-503 | every integer-feasible point not worse than the upper bound lies inside the returned bounds |
| ReducedCosts.FixedIsFixed | cpp/src/branch_and_bound/branch_and_bound.cpp:489-499 | a column counted as fixed has one value in all of those points |
| BranchPath.FirstWriteIsIntersection | cpp/src/branch_and_bound/mip_node.hpp:144-180 | the first write on the way to the root is the intersection of all intervals of the path with the start box |
| BranchPath.ChildrenSplit | cpp/src/branch_and_bound/mip_node.hpp:116-142 | the two children split the integer-feasible points of the parent, no point in both |
| BranchPath.ChildrenNarrow | cpp/src/branch_and_bound/mip_node.hpp:116-142 | the intervals of the children lie inside that of the parent |
| BranchPath.ChildrenCutValue | cpp/src/branch_and_bound/mip_node.hpp:116-142 | the down child keeps exactly the integers up to the LP value, the up child exactly those from it on, and a fractional value is in neither |
| BranchTree.SearchTree.GetVariableBounds | cpp/src/branch_and_bound/mip_node.hpp:144-180 | the walk to the root leaves exactly the box of the path |
| BranchTree.SearchTree.SetBound | cpp/src/branch_and_bound/branch_and_bound.cpp:1394-1395 | the bound of an open node changes and the tree stays valid |
| BranchTree.SearchTree.Branch | cpp/src/branch_and_bound/mip_node.hpp:385-429 | two pending children with fresh ids, linked to the parent and with its bound, on the two sides of the value; no other node changes and the tree stays valid |
| BranchTree.SearchTree.Update | cpp/src/branch_and_bound/mip_node.hpp:222-242 | closing a leaf closes exactly the ancestors without open leaf, at the minimum closing bound, and frees exactly what hangs below closed nodes; the leaf carries the given status, ancestors closed with it are fathomed, all other statuses stay |
| BranchTree.RemoveFathomed | cpp/src/branch_and_bound/mip_node.hpp:360-368 | every child visited is still there, and afterwards the children of the stack are gone and nothing else |
| BranchTree.InactiveIffClosed | cpp/src/branch_and_bound/mip_node.hpp:195-205 | a node that is there is inactive exactly when every leaf below it is closed |
| BranchTree.ClosedHasNoOpen | cpp/src/branch_and_bound/mip_node.hpp:195-242 | below a closed node nothing is open |
| BranchTree.MinClosedIsMinimum | cpp/src/branch_and_bound/mip_node.hpp:207-220 | the bound of a closed node is at most every closing bound below it and is attained by one leaf |
| BranchTree.ClosedRoot | cpp/src/branch_and_bound/mip_node.hpp:222-242 | a closed root: every leaf is closed, the root carries the minimum of their bounds |
| BranchTree.FreedIsClosed | cpp/src/branch_and_bound/mip_node.hpp:360-383 | only closed nodes are freed, so an open node and its ancestors are still there |
| NodeQueue.NodeQueue.Push | cpp/src/branch_and_bound/node_queue.hpp:84-97 | the node joins the contents, both heaps stay matched, the cached bound is the new minimum |
| NodeQueue.NodeQueue.Pop | cpp/src/branch_and_bound/node_queue.hpp:99-109 | a node of minimum bound leaves the contents, its entry is dead for diving, the cached bound is the minimum of the rest |
| NodeQueue.NodeQueue.PopDiving | cpp/src/branch_and_bound/node_queue.hpp:192-203 | a live node of least score among those not yet dived from, which is never selected again; nothing when there is none |
| NodeQueue.NodeQueue.StealFrom | cpp/src/branch_and_bound/node_queue.hpp:130-150 | the union of both contents is kept, nodes move one by one while the victim has at least the count until the count is reached, the stolen ones are the victim's best |
| NodeQueue.StealCountMeans | cpp/src/branch_and_bound/node_queue.hpp:130-150 | the number stolen is at most the count; it stops short of it exactly when the victim gets shorter than the count, and no node is taken from a shorter one |
| NodeQueue.NodeQueue.GetLowerBound | cpp/src/branch_and_bound/node_queue.hpp:155-158 | the cached bound is the true minimum, infinity for the empty queue |
| WorkerPool.DivingPool.PopIdle | cpp/src/branch_and_bound/worker_pool.hpp:47-60 | the longest idle id leaves the list, ids stay distinct and match the counter |
| WorkerPool.DivingPool.ReturnWorker | cpp/src/branch_and_bound/worker_pool.hpp:62-74 | the worker joins the end of the list inactive, its owner's count falls by one exactly if it was active |
| WorkerPool.DivingPool.SetInactive | cpp/src/branch_and_bound/worker.hpp:228-237 | exactly the owner of an active diver loses one |
| WorkerPool.DivingPool.Launch | cpp/src/branch_and_bound/branch_and_bound.cpp:2107-2156 | below the maximum, a diver starts exactly when diving is enabled, an idle worker and a node that is deep enough and not above the upper bound exist, its bounds survive strengthening and nothing has stopped the search; then its owner has one active diver more, otherwise no count changes; counts equal attached divers and stay within the maxima |
| WorkerPool.DivingPool.AllIdle | cpp/src/branch_and_bound/worker_pool.hpp:47-74 | the counter equals the size exactly when every id is idle, and then no diver is attached anywhere |
| ParallelSafety.StepKeeps | cpp/src/branch_and_bound/branch_and_bound.cpp:1651-2003 | every atomic step of every worker keeps the invariant: nodes held once, siblings in the stack, bounds below what is held, idle workers empty, every feasible point covered |
| ParallelSafety.RunKeeps | cpp/src/branch_and_bound/branch_and_bound.cpp:1651-2003 | the invariant holds after every run, in any interleaving |
| ParallelSafety.ChildrenOk | cpp/src/branch_and_bound/branch_and_bound.cpp:1397-1421 | the children of a solved node have valid bounds and cover its feasible points |
| ParallelSteps.ChildBoxes | cpp/src/branch_and_bound/mip_node.hpp:116-142 | the box of a child is that of the parent within the LP bounds, cut at the LP value |
| ParallelSteps.ChildBounds | cpp/src/branch_and_bound/branch_and_bound.cpp:1325-1336 | the bound of the children is the least lattice value not more than the tolerance below the LP value, the LP value itself without a lattice |
| ParallelSteps.BestPopped | cpp/src/branch_and_bound/branch_and_bound.cpp:1949-1955 | a worker takes a node of least bound from its queue, and no other node moves |
| ParallelSteps.BestLaunched | cpp/src/branch_and_bound/branch_and_bound.cpp:1839-1862 | a launched worker starts with a node of least bound of its launcher's queue |
| ParallelSteps.StolenBest | cpp/src/branch_and_bound/branch_and_bound.cpp:1872-1883 | a steal gives the thief the best nodes of the victim, up to the count and as long as the victim has that many |
| ParallelSteps.Announced | cpp/src/branch_and_bound/branch_and_bound.cpp:1690-1957 | every bound a worker announces is exact: the least of the queue before a pop, that of the node in hand, infinity after a plunge, and for a launched worker the least of the queue it is about to be given a node of, then of its own |
| ParallelSteps.FinishedIff | cpp/src/branch_and_bound/branch_and_bound.cpp:1987-1994 | a worker that ends without nodes joins the end of the idle list, one with nodes does not |
| ParallelSteps.BranchedIff | cpp/src/branch_and_bound/branch_and_bound.cpp:1397-1440 | a fractional node is branched on exactly when its snapped bound is not above the upper bound by more than the tolerance, and otherwise closes at that bound |
| ParallelSteps.PreferredFirst | cpp/src/branch_and_bound/branch_and_bound.cpp:1804-1815 | the child in the preferred direction comes first, the other second |
| ParallelSteps.SiblingWaits | cpp/src/branch_and_bound/branch_and_bound.cpp:1785-1815 | the rest of the stack goes to the queue, the first child is the next node in hand, and the second waits on the stack or, while the queue is short, in the queue |
| ParallelSteps.DroppedIff | cpp/src/branch_and_bound/branch_and_bound.cpp:1701-1709 | a node in hand is dropped exactly when its bound is above the upper bound, and otherwise solved against that |
| ParallelSteps.StartDroppedIff | cpp/src/branch_and_bound/branch_and_bound.cpp:1959-1966 | a node from the queue is dropped exactly when its bound is above the upper bound, and otherwise plunged from |
| ParallelSteps.NoVainSolve | cpp/src/branch_and_bound/branch_and_bound.cpp:1651-2003 | throughout every run no LP is started for a node whose bound is above the upper bound the LP is stopped at |
| ParallelSafety.GlobalBoundSafe | cpp/src/branch_and_bound/branch_and_bound.cpp:316-336 | at every moment the global bound is at most the bound of every open, in-flight or abandoned node |
| ParallelSafety.GlobalBoundGreatest | cpp/src/branch_and_bound/branch_and_bound.cpp:316-336 | the global bound is the least of the numerical bound, the bounds of the active workers and the bounds queued at them, and equals one of them, whenever one is finite and none minus infinity; only otherwise it is the root bound, or minus infinity without one |
| ParallelSafety.BoundsEnclose | cpp/src/branch_and_bound/branch_and_bound.cpp:316-336 | at every moment no feasible point is better than both the upper bound and the global bound |
| ParallelSafety.ExhaustedIsOptimal | cpp/src/branch_and_bound/branch_and_bound.cpp:1340-1448 | a run that ends with no open and no abandoned node proves that no feasible point is better than the upper bound |
| ParallelSafety.IncumbentOptimal | cpp/src/branch_and_bound/branch_and_bound.cpp:1340-1448 | without an initial cutoff such a run has found an optimal point, or there is no feasible point |
| ParallelSafety.AllIdleMeansDone | cpp/src/branch_and_bound/branch_and_bound.cpp:1988-2000 | when as many workers are idle as there are, no node is open anywhere |
| SortedOrders.SortedAgree | cpp/src/branch_and_bound/branch_and_bound.cpp:4406-4415 | two sorted arrangements of the same elements show the same keys, whatever the ties |
| PseudoCosts.EarlierIsLexicographic | cpp/src/branch_and_bound/pseudo_costs.hpp:99-105 | the comparison of updates is lexicographic in time, variable, delta and worker |
| PseudoCosts.PseudoCostTable.MergeUpdates | cpp/src/branch_and_bound/pseudo_costs.hpp:145-156 | the table becomes the fold of the updates in the order given |
| PseudoCosts.MergedCell | cpp/src/branch_and_bound/pseudo_costs.hpp:145-156 | every sum folds exactly the updates of its variable and direction, every counter counts them |
| PseudoCosts.MergedColumns | cpp/src/branch_and_bound/pseudo_costs.hpp:145-156 | the same for the four columns: down updates go to the down sums and counters, up updates to the up ones |
| PseudoCosts.MergeIgnoresArrival | cpp/src/branch_and_bound/branch_and_bound.cpp:4406-4415 | for any addition function, sorted merging depends only on the multiset of updates |
| PseudoCosts.TiesStayOpen | cpp/src/branch_and_bound/pseudo_costs.hpp:99-105 | the comparison leaves the order of two updates open that differ in direction |
| PseudoCosts.UnsortedDiffers | cpp/src/branch_and_bound/pseudo_costs.hpp:145-156 | without the sort the arrival order shows for some addition function |
| PseudoCosts.Snapshot.QueueUpdate | cpp/src/branch_and_bound/pseudo_costs.hpp:286-297 | the update is queued once and applied to the private copy |
| PseudoCosts.Snapshot.TakeUpdates | cpp/src/branch_and_bound/pseudo_costs.hpp:299-304 | all queued updates are handed over and none is kept |
| PseudoCosts.Synchronise | cpp/src/branch_and_bound/branch_and_bound.cpp:4404-4434 | both pools are merged sorted, one after the other, and every copy is the result |
| PseudoCostRuns.MergedExactlyOnce | cpp/src/branch_and_bound/branch_and_bound.cpp:4404-4434 | over any number of horizons every queued update is merged exactly once or still pending, and every private copy is the shared table after its own pending updates |
| PseudoCostRuns.CountedAfterSync | cpp/src/branch_and_bound/branch_and_bound.cpp:4404-4434 | right after a synchronisation sums and counters account for every update queued so far |
| PseudoCostRuns.RunsAgree | cpp/src/branch_and_bound/branch_and_bound.cpp:4404-4434 | runs that differ in the interleaving of the workers and in the ties of the sort agree on all tables |
| Replay.EventLessIsLexicographic | cpp/src/branch_and_bound/bb_event.hpp:69-73 | events compare by time, worker, node and sequence number |
| Replay.ReplayOrderUnique | cpp/src/branch_and_bound/deterministic_workers.hpp:378-386 | numbered events have one replay order, whatever order they were collected in |
| Replay.EventBatch.SortForReplay | cpp/src/branch_and_bound/bb_event.hpp:144-144 | the batch holds the same events in replay order |
| Replay.HeuristicLessIsLexicographic | cpp/src/branch_and_bound/branch_and_bound.cpp:4492-4500 | heuristic solutions compare by time, objective and the point |
| Replay.WorkerLessIsLexicographic | cpp/src/branch_and_bound/deterministic_workers.hpp:48-53 | solutions of workers compare by objective, worker and number |
| Replay.Synchroniser.QueueExternal | cpp/src/branch_and_bound/branch_and_bound.cpp:623-626 | the solution goes to the end of the queue with its time stamp |
| Replay.Synchroniser.TakeDue | cpp/src/branch_and_bound/branch_and_bound.cpp:4475-4490 | exactly the solutions stamped before the horizon leave the queue, the rest stays in order |
| Replay.DueMeans | cpp/src/branch_and_bound/branch_and_bound.cpp:4475-4490 | exactly the solutions stamped strictly before the horizon are due, each as often as it was queued |
| Replay.Synchroniser.ReplayTimeline | cpp/src/branch_and_bound/branch_and_bound.cpp:4475-4564 | events and due solutions form one timeline in time order, events first at equal times, and the incumbent is the fold of the sorted solutions |
| Replay.Synchroniser.ProcessWorkerSolutions | cpp/src/branch_and_bound/branch_and_bound.cpp:4348-4402 | the incumbent is the fold of the sorted solutions of the pool |
| Replay.HeuristicsIncumbent | cpp/src/branch_and_bound/branch_and_bound.cpp:4502-4564 | the incumbent after a timeline is its solution of least objective, then time, then point, when one improves, and the old one otherwise |
| Replay.HeuristicsWinner | cpp/src/branch_and_bound/branch_and_bound.cpp:4540-4560 | the incumbent stays when no solution is better; otherwise it becomes the best one, of equals the earliest, of those the one with the least point |
| Replay.HeuristicsUpper | cpp/src/branch_and_bound/branch_and_bound.cpp:4548-4552 | the upper bound falls to the least objective of the timeline |
| Replay.WorkersUpper | cpp/src/branch_and_bound/branch_and_bound.cpp:4369-4391 | the upper bound falls to the least objective of the pool |
| Replay.WorkersIncumbent | cpp/src/branch_and_bound/branch_and_bound.cpp:4348-4402 | only the first of the sorted solutions can become the incumbent, and does exactly when it is below the upper bound |
| Replay.ReplayIgnoresArrival | cpp/src/branch_and_bound/branch_and_bound.cpp:4475-4564 | incumbent and upper bound depend only on the multiset of due solutions |
| ReplayRuns.ConsumedExactlyOnce | cpp/src/branch_and_bound/branch_and_bound.cpp:4475-4490 | over every run each solution is consumed at most once, at the first synchronisation after its arrival whose horizon exceeds its time stamp; the queue holds the others |
| ReplayRuns.DueIsConsumed | cpp/src/branch_and_bound/branch_and_bound.cpp:4475-4490 | once a synchronisation that was due has passed, the solution has been consumed at it |
| ReplayRuns.HorizonIs | cpp/src/branch_and_bound/branch_and_bound.cpp:4159-4159 | the horizon of the j-th synchronisation, counted from zero, lies j + 1 steps after the start |
| ReplayRuns.ArrivalDoesNotMatter | cpp/src/branch_and_bound/branch_and_bound.cpp:4475-4564 | runs with the same solutions, each handed in before it is due, reach the same incumbent, upper bound and queue, in whatever order and at whatever moments they arrive |
| Deterministic.BfsPool.EnqueueChildren | cpp/src/branch_and_bound/deterministic_workers.hpp:159-184 | the stack becomes the preferred child, the other child and the old stack without its oldest node, which ends the backlog; the children are numbered down first from the next number of the worker, the preferred one is returned, and nothing else changes |
| Deterministic.PlungeDivesPreferred | cpp/src/branch_and_bound/deterministic_workers.hpp:159-200 | with no paused node the next two nodes taken are the preferred child and then the other |
| Deterministic.ChildrenConserve | cpp/src/branch_and_bound/deterministic_workers.hpp:159-184 | no node is lost or doubled, exactly the two children are added |
| Deterministic.BfsPool.DequeueNode | cpp/src/branch_and_bound/deterministic_workers.hpp:186-200 | the paused node, else the top of the stack, else a least node of the backlog, which leaves its place while all others keep theirs; none exactly when there is no work |
| Deterministic.LeastMeans | cpp/src/branch_and_bound/deterministic_workers.hpp:27-37 | a least node of the backlog has the lowest bound, among those the lowest origin, and among those the lowest number |
| Deterministic.TakeConserves | cpp/src/branch_and_bound/deterministic_workers.hpp:186-200 | exactly the node taken is missing afterwards |
| Deterministic.PoppedIsDetermined | cpp/src/branch_and_bound/deterministic_workers.hpp:27-37 | with distinct ids the node popped from a backlog does not depend on the layout of the heap |
| Deterministic.BfsPool.AnyHasWork | cpp/src/branch_and_bound/deterministic_workers.hpp:361-367 | some worker holds a node |
| Deterministic.BfsPool.BalanceLoads | cpp/src/branch_and_bound/branch_and_bound.cpp:4620-4674 | when the load is uneven, the backlogs are gathered, sorted by id and dealt out in turn; otherwise nothing changes |
| Deterministic.NeedsBalanceIff | cpp/src/branch_and_bound/branch_and_bound.cpp:4628-4649 | loads are uneven exactly when a worker without nodes stands beside one with two, or all have nodes and one more than four times those of another |
| Deterministic.IdLessIsLexicographic | cpp/src/branch_and_bound/branch_and_bound.cpp:4661-4666 | nodes are sorted by origin and then number |
| Deterministic.RebalanceConserves | cpp/src/branch_and_bound/branch_and_bound.cpp:4650-4673 | rebalancing loses and doubles no node |
| Deterministic.RebalanceIsDetermined | cpp/src/branch_and_bound/branch_and_bound.cpp:4659-4673 | the assignment depends only on the set of backlog nodes |
| Deterministic.RebalanceShares | cpp/src/branch_and_bound/branch_and_bound.cpp:4669-4673 | only the stacks change, and each worker gets its share to within one node |
| Deterministic.DealtInTurn | cpp/src/branch_and_bound/branch_and_bound.cpp:4669-4673 | the i-th node of the order is with worker i modulo their number, below exactly the nodes dealt to it later |
| Deterministic.BfsPool.ComputeLowerBound | cpp/src/branch_and_bound/branch_and_bound.cpp:4676-4706 | the loops return the minimum over the numerical bound and all nodes held, or the upper bound when that is infinite and an incumbent exists |
| Deterministic.ComputedBoundGreatest | cpp/src/branch_and_bound/branch_and_bound.cpp:4676-4706 | the result is the least of the numerical bound and the bounds of all held nodes and equals one of them, but is the upper bound when all are infinite and there is an incumbent |
| DeterministicSafety.StepKeeps | cpp/src/branch_and_bound/branch_and_bound.cpp:4053-4085 | every begin, completion and synchronisation keeps the invariant: workers hold the open nodes once with distinct ids, bounds are valid, no better point is forgotten |
| DeterministicSafety.RunKeeps | cpp/src/branch_and_bound/branch_and_bound.cpp:4053-4206 | the invariant holds after every run |
| DeterministicSafety.CompleteKeeps | cpp/src/branch_and_bound/branch_and_bound.cpp:1340-1448 | solving a node with an older cutoff, even across a synchronisation, loses no better point |
| DeterministicSafety.SyncKeeps | cpp/src/branch_and_bound/branch_and_bound.cpp:4086-4206 | after a synchronisation the shared bound is at least as good as everything that was pending, and the numerical bound covers every abandoned node |
| DeterministicSteps.BegunIff | cpp/src/branch_and_bound/branch_and_bound.cpp:4053-4066 | a taken node is dropped exactly when its bound is above the worker's upper bound, and otherwise solved against that |
| DeterministicSteps.BranchedIff | cpp/src/branch_and_bound/branch_and_bound.cpp:1397-1440 | children are made exactly when the snapped bound is not above the worker's upper bound by more than the tolerance; the preferred one is on top and the oldest node of the stack goes to the backlog |
| DeterministicSteps.RecordedIff | cpp/src/branch_and_bound/branch_and_bound.cpp:1157-1167 | an integral solution is recorded exactly when it is better than the worker's upper bound, and then becomes it |
| DeterministicSteps.SyncShares | cpp/src/branch_and_bound/branch_and_bound.cpp:4086-4163 | after a synchronisation every worker has the shared bound, the least of the old one and all consumed solutions, and no pending solution |
| DeterministicSteps.StartPlaces | cpp/src/branch_and_bound/branch_and_bound.cpp:3949-3950 | the down child starts with the first worker and the up child with the second, or on top of it when there is one worker |
| DeterministicSteps.NoVainSolve | cpp/src/branch_and_bound/branch_and_bound.cpp:4053-4085 | throughout every run the current node of a worker has a bound not above the one its LP is stopped at |
| DeterministicVerdict.StartInv | cpp/src/branch_and_bound/branch_and_bound.cpp:3944-3950 | the two root children with their ids make a state that satisfies the invariant |
| DeterministicVerdict.ReportedBoundSafe | cpp/src/branch_and_bound/branch_and_bound.cpp:4676-4706 | the bound reported after a synchronisation is at most that of every open or abandoned node, and no feasible point beats both it and the upper bound |
| DeterministicVerdict.ExhaustedIffNoneOpen | cpp/src/branch_and_bound/branch_and_bound.cpp:4193-4200 | no worker has work exactly when no node is open |
| DeterministicExactness.RunKeepsTree | cpp/src/branch_and_bound/branch_and_bound.cpp:1340-1448 | over every run the boxes of open and abandoned nodes have no point in common and lie in the start box, and the numerical bound is that of an abandoned node |
| DeterministicExactness.VerdictExactIff | cpp/src/branch_and_bound/branch_and_bound.cpp:4193-4200 | the verdict of an exhausted tree is right for every problem that agrees with the state if and only if no abandoned node has a point besides the incumbent and an objective value between its bound and the upper bound to give it |
| DeterministicExactness.GuardExactIff | cpp/src/branch_and_bound/branch_and_bound.cpp:4575-4577 | when the abandoned boxes have points besides the incumbent and the numerical bound is a possible objective value, the verdict is right for every such problem if and only if the numerical bound is not below the upper bound |
| DeterministicExactness.VerdictOfRun | cpp/src/branch_and_bound/branch_and_bound.cpp:4086-4206 | both equivalences hold at the end of every run whose last synchronisation finds no work |
| DeterministicExactness.StartTree | cpp/src/branch_and_bound/branch_and_bound.cpp:3944-3950 | two root children with disjoint boxes make a start from which this holds |
| DeterministicVerdict.VerdictRight | cpp/src/branch_and_bound/branch_and_bound.cpp:4193-4200 | every run that ends so with a numerical bound not below the upper bound: infeasible means no feasible point, optimal means that the incumbent attains the minimum |
| DeterministicVerdict.AbandonedHidesPoint | cpp/src/branch_and_bound/branch_and_bound.cpp:4193-4200 | a concrete run with a numerically abandoned node that ends infeasible although a feasible point exists |
| DeterministicRuns.RunsAgree | cpp/src/branch_and_bound/branch_and_bound.cpp:4053-4206 | runs in which each worker makes the same moves between the same synchronisations, which are handed the same solutions, reach the same workers, incumbent, bounds and open nodes, however the workers interleave and ties are broken |
| DeterministicRuns.SyncDetermined | cpp/src/branch_and_bound/branch_and_bound.cpp:4086-4163 | a synchronisation has one result for each state and input, whatever the sorts do with ties |
| Rational.ContinuedFraction | cpp/src/cuts/rational.hpp:29-52 | the loop computes the expansion; it overflows exactly for an integer part above 63 bits, and otherwise leaves a fraction in lowest terms within the limit, by a remainder below the tolerance or with a next denominator above the limit |
| Rational.ExpansionEnds | cpp/src/cuts/rational.hpp:29-52 | each way out of the expansion leaves what the loop promises for it |
| Rational.RationalApproximation | cpp/src/cuts/rational.hpp:23-60 | success is exactly closeness of the fraction; sign, lowest terms, limit, and best approximation or success; untouched outputs on overflow |
| Rational.ConvergentIsBest | cpp/src/cuts/rational.hpp:38-52 | leaving by the denominator test, no fraction within the limit has a smaller residue than the convergent |
| Rational.RemainderSucceeds | cpp/src/cuts/rational.hpp:49-59 | leaving by the remainder test always means success |
| Rational.PromiseIff | cpp/src/cuts/rational.hpp:18-22 | success and failure tell for every number whether a close enough fraction exists if and only if the limit is at most 7071068 or at least 99999999999999 |
| Rational.MissedIff | cpp/src/cuts/rational.hpp:18-22 | for each number and limit: a close enough fraction is missed if and only if the expansion stops before too large a denominator with a convergent that is not close enough while the largest semiconvergent within the limit is |
| Rational.MisleadingFails | cpp/src/cuts/rational.hpp:38-59 | between two neighbours within the limit of which the one with the smaller residue is not close enough and the other is, the approximation fails |
| Rational.PromiseFails | cpp/src/cuts/rational.hpp:18-22 | at the default limit 0.00000009999999 fails although 1/10000000 is close enough |
| Rational.SmallLimitKeepsPromise | cpp/src/cuts/rational.hpp:18-22 | up to 7071068, a number with a close enough fraction within the limit succeeds |
| Rational.HugeLimitSucceeds | cpp/src/cuts/rational.hpp:18-59 | from 99999999999999 on, every number without overflow succeeds |
| Rational.ReducedExact | cpp/src/cuts/rational.hpp:104-109 | reduction keeps the value and reaches lowest terms |
| Rational.MulExact | cpp/src/cuts/rational.hpp:111-117 | the cross-cancelled product is exact with a positive denominator |
| Rational.MulLowest | cpp/src/cuts/rational.hpp:111-117 | the product of fractions in lowest terms is in lowest terms |
| Rational.DivExact | cpp/src/cuts/rational.hpp:119-124 | the quotient is exact, and zero for a zero divisor |
| Rational.AddExact | cpp/src/cuts/rational.hpp:126-131 | the sum is exact, in lowest terms, with a positive denominator |
| Rational.SubExact | cpp/src/cuts/rational.hpp:133-133 | the difference is exact, in lowest terms, with a positive denominator |
| Rational.GcdRatDivides | cpp/src/cuts/rational.hpp:140-154 | both operands are integer multiples of the gcd, which is not negative |
| Rational.GcdRatGreatest | cpp/src/cuts/rational.hpp:140-154 | every number of which both operands are integer multiples has the gcd as an integer multiple |
| Rational.FromFloatingPoint | cpp/src/cuts/rational.hpp:71-84 | the best fraction found, zero on overflow, and when the limit is below one the nearest integer over one, of two the one further from zero |
| Rational.SafeFromFloatingPoint | cpp/src/cuts/rational.hpp:88-94 | the fraction found on success and zero on failure; for the limits of the promise a zero means that zero or nothing within the limit is close enough |
| Rational.RoundNearest | cpp/src/cuts/rational.hpp:80-82 | rounding is the nearest integer, of two the one further from zero, and symmetric in the sign |
| Rational.GcdOfIntegerValues | cpp/src/cuts/rational.hpp:174-186 | the greatest common divisor of the integers nearest to the absolute values, and of any integers closer than one half to them: it divides all, every common divisor divides it, and it is zero exactly when all are |
| Integers.GcdBezout | cpp/src/cuts/rational.hpp:107-107 | the gcd divides both numbers and is an integer combination of them |

## Left out

- SocTranslate.ConicProblem.Convert: tolerances of the coefficient tests are taken at zero; square roots and the LDLᵀ factorisation are functions with a contract, and L is stored densely.
- SocTranslate.ConicProblem.Convert: the row matrix is a list of rows, so the sorting of linking rows and repeated column indices inside one row are not modelled; names of rows and columns and the log are left out.
- SocTranslate.ConicProblem.Convert: `Represents` is stated for tail-less heads that are bounded, affine rows given as at-most rows, and no mixture of affine and general rows; `SocLimits` says what happens otherwise.
- SocTranslate.ConicProblem.InstallAffineHeads: in a mixed call the column vectors are cut to the reserved width at lines 810-814 and grow back, with the default values that the cut columns had, when the heads are lifted; this detour is not modelled.
- Rational.ContinuedFraction: 64-bit overflow is modelled at the integer part of the first quotient only, where the source tests for it; products are unbounded integers.
- Rational.RationalApproximation: the error is computed exactly instead of in floating point.
- NodeQueue.NodeQueue.Pop: a heap is a sequence from which any least entry may leave; the layout of the binary heap is not modelled.
- NodeQueue.NodeQueue.StealFrom: one steal is one atomic step, as the two locks make it; the cached bound is not read between the steps.
- ParallelSafety.GlobalBoundSafe: the global bound is read at one moment; reads that interleave with steps are not modelled.
- ParallelSafety.StepKeeps: a steal does not look at the victim's size again, so it may follow the size test at any distance; the test itself decides nothing else and is left out.
- ParallelSafety.StepKeeps: time, node and work limits appear as an answer of the LP that stops a plunge in the parallel search, and not at all in the deterministic mode, where the node would be dropped.
- DeterministicVerdict.VerdictRight: the gap-based and limit-based statuses of a synchronisation are left out.
- WorkerPool.DivingPool.Launch: whether the bounds survive strengthening and whether the search has been stopped are parameters.
- Replay.Synchroniser.ReplayTimeline: events change nothing but the order of the timeline, as in the source; callbacks and reports are left out.
- Deterministic.BfsPool: workers are values in an array, as the source stores them in a vector; the work clock, the event log of a node and the statistics of a worker are not part of this model.
- Deterministic.BfsPool.EnqueueChildren: 32-bit wrap-around of the sequence numbers is not modelled.
- Bounds strengthening, cuts, symmetry reductions, RINS and sub-MIPs, feasibility jump, diving scores and reliability branching: heuristics, or bodies that are not part of this model.
- Divers of the deterministic mode: their queues and dives; what they find enters a synchronisation as solutions with a feasible point.
- The repair queue of infeasible heuristic solutions: empty in the deterministic mode.
- `gcd_floating_point`: it chains the approximation and the gcd, with thresholds on floating-point values.
- Floating-point rounding everywhere except in pseudo-cost sums.
