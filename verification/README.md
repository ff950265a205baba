# Portfolio optimisation under distributional ambiguity, and the Xpress examples it ships with

This project models two parts of a Python repository in Dafny.

**The portfolio study.** This part comes from `src/models.py` and `src/experiments.py`.
- `SampleAverageApproximation` chooses portfolio weights that minimise the average loss over return scenarios.
- `DistributionallyRobustOptimization` minimises the worst-case loss plus a Wasserstein radius ε times the Lipschitz constant of the loss.
- The experiment driver has two parts:
  - It compares the out-of-sample mean-risk loss of both portfolios across radii, with the percentage gain of the robust one.
  - It averages the robust weights over repeated simulated samples, for several sample sizes.
- The solver is a parameter, an *oracle* from an optimisation program to an optional solution. Return simulation and data loading are parameters too.

**Eight FICO Xpress example scripts** from the repository's virtual environment:
- `miqcqp_solver.py`: product bounds, auxiliary variables, bound normalisation, McCormick envelopes and the solution check of the spatial branch-and-bound solver.
- `pwl_transp.py`: breakpoints and line pieces of piecewise-linear costs.
- `example_tsp_numpy.py`: successor extraction, tour following, subtour grouping and subtour-elimination cuts.
- `example_gencons_pbo.py`: the character-level OPB (pseudo-Boolean) file reader.
- `example_gencons_sat.py`: the DIMACS CNF reader and the OR/AND general-constraint encoding.
- `example_bbtree.py`: recording the branch-and-bound tree, subtree counting and the drawing layout.
- `feas_pump.py`: rounding and violation computation.
- `mostviolated.py`: the most-fractional branching rule.

**How the model is built.**
- Pure code becomes functions and lemmas.
- Loops that update variables become methods with loop invariants. Each is proved equal to a specification function.
- Objects whose fields change become classes:
  - `SampleAverageApproximation` and `DistributionallyRobustOptimization`;
  - the MIQCQP reformulation;
  - the OPB file handle;
  - the branch-and-bound tree and the drawing graph.
- Arrays the source changes in place stay `array`s.
- Floating-point numbers are exact reals.

Modules: `Wrappers` (Option and Result), `Numeric` (sums, maxima, means, `math.ceil`, Python's `round`) and `Text` (`str.split`, `str.strip`, `int`, `float`) are shared. `Orbits` holds the permutation facts the TSP proofs use. There is one module per source file: `PortfolioModels`, `Experiments`, `MiqcqpSolver`, `PwlTransp`, `TspNumpy`, `GenconsPbo`, `GenconsSat`, `BBTree`, `FeasPump`, `MostViolated`.


## Model

| member | source | states |
|---|---|---|
| Numeric.SumAppend | src/models.py:61 | the sum of a concatenation is the sum of the parts (used for every average) |
| Numeric.MaxOf | src/models.py:122-125 | the maximum is one of the values and bounds all of them |
| Numeric.MaxAtMostIff | src/models.py:124-125 | the maximum is at most b exactly when every value is |
| Numeric.MeanAtMostMax | src/models.py:61 | an average never exceeds the largest value averaged |
| Numeric.MeanAtMostBound | src/models.py:61 | an average of values bounded by b is bounded by b |
| Numeric.Ceil | venv/lib/python3.11/site-packages/xpress/examples/mostviolated.py:32 | `math.ceil` is the least integer at or above its argument |
| Numeric.CeilFromFloor | venv/lib/python3.11/site-packages/xpress/examples/mostviolated.py:32-33 | the ceiling equals the floor on integers and the floor plus one elsewhere |
| Numeric.RoundHalfEven | venv/lib/python3.11/site-packages/xpress/examples/feas_pump.py:12 | Python's `round` is within one half of its argument and breaks ties to the even integer |
| PortfolioModels.ConstraintsOrDefault | src/models.py:38-44 | without a constraint function the weights must be non-negative and sum to one; a given one is used unchanged |
| PortfolioModels.Losses | src/models.py:60 | one loss per scenario, each the loss function at that scenario |
| PortfolioModels.LeastEpigraph | src/models.py:122-127 | the epigraph constraints `L(x, ξ_i) <= t` hold exactly when t is at least the largest scenario loss, and hold at that loss |
| PortfolioModels.DroOptimumShift | src/models.py:127 | an optimum of the robust program with radius ε is an optimum with radius 0 whose value is ε·Lipschitz lower |
| PortfolioModels.DroObjectiveDominatesSaa | src/models.py:122-127 | for ε ≥ 0 every feasible robust objective value is at least the average loss of the same weights |
| PortfolioModels.DroValueDominatesSaa | src/models.py:116-132 | for ε ≥ 0 the robust optimal value is at least the sample-average optimal value |
| PortfolioModels.SoundOracleWeights | src/models.py:130-132 | weights a sound solver returns satisfy the program's constraints |
| PortfolioModels.SampleAverageApproximation.constructor | src/models.py:11-46 | stores the scenarios, N and d; the default loss is `-ξ·x` and the default constraints are the simplex; no solution yet |
| PortfolioModels.SampleAverageApproximation.Solve | src/models.py:48-74 | with no scenarios the average divides by zero and nothing is stored; otherwise the solver's answer is returned and its weights and value stored, or None for both |
| PortfolioModels.DistributionallyRobustOptimization.constructor | src/models.py:88-114 | stores scenarios, radius and loss; default constraints are the simplex; no solution yet |
| PortfolioModels.DistributionallyRobustOptimization.Solve | src/models.py:116-132 | returns what the solver reports on the epigraph program and stores its weights and value, or None for both |
| Experiments.ShortfallLoss | src/experiments.py:52-53 | the shortfall loss is non-negative and at least the mean-risk loss; it equals it exactly when that loss is non-negative and is zero exactly when that loss is not positive |
| Experiments.DefaultLossIsMeanRisk | src/experiments.py:49-50 | the mean-risk loss of the experiments is the models' default loss |
| Experiments.OosMean | src/experiments.py:63-64 | the out-of-sample mean exists exactly when there are test scenarios and weights of the right length; then it is the mean mean-risk loss over the test set |
| Experiments.PctGain | src/experiments.py:71 | the gain is undefined exactly when the SAA loss is zero; otherwise it is positive, zero or negative as the robust loss is below, equal to or above the SAA loss |
| Experiments.WithGains | src/experiments.py:71 | each record keeps its fields and gets the gain of its own two losses |
| Experiments.RunExperiment | src/experiments.py:56-72 | the loop over radii produces the experiment table, stopping at the first failure; an empty grid leaves the frame without the `OOS_SAA` column and is the `MissingColumn` error, as pandas raises KeyError |
| Experiments.RowsFailurePersists | src/experiments.py:58-69 | once one radius fails, the whole run fails with that error |
| Experiments.ExperimentRowsShape | src/experiments.py:58-69 | one record per radius in order, holding the radius and the two out-of-sample means of that radius's solutions |
| Experiments.ExperimentTableShape | src/experiments.py:56-72 | a successful table comes from a non-empty grid and has one record per radius; all records share the SAA loss, which is the mean test loss of the SAA weights, and each holds the mean test loss of its robust weights |
| Experiments.ExperimentRowsSucceed | src/experiments.py:56-69 | the run succeeds exactly when there are training and test scenarios and the SAA solve and every robust solve return weights of the test width |
| Experiments.RowsStep | src/experiments.py:58-69 | a run over one more radius succeeds exactly when the shorter run and the new radius succeed |
| Experiments.RowSucceeds | src/experiments.py:59-66 | one radius succeeds exactly when both solves return weights of the test width and both sets are non-empty |
| Experiments.ColumnMeans | src/experiments.py:85 | `np.mean(axis=0)`: each entry is the average of its column |
| Experiments.Column | src/experiments.py:85 | one entry per run |
| Experiments.AverageWeights | src/experiments.py:80-85 | the average exists exactly when there is at least one run and every run returned weights of width m |
| Experiments.RunWeights | src/experiments.py:80-84 | run r solves the robust program on simulated sample r |
| Experiments.WeightConvergence | src/experiments.py:75-87 | the nested loops build the table of average weights per sample size and radius |
| Experiments.WeightTableFor | src/experiments.py:77-86 | the loop over radii builds the averages for one sample size |
| Experiments.SampleWeights | src/experiments.py:80-84 | the loop over runs collects the weights of each run |
| Experiments.TableFailurePersists | src/experiments.py:77-86 | a failure at one radius is the result for the whole sample size |
| Experiments.ResultsFailurePersists | src/experiments.py:75-87 | a failure at one sample size is the result of the whole study |
| Experiments.WeightTableShape | src/experiments.py:77-86 | one average per radius, each the column means of that radius's runs |
| Experiments.WeightResultsKeys | src/experiments.py:75-87 | the result maps exactly the given sample sizes, each to its own table |
| Experiments.ColumnSums | src/experiments.py:85 | one sum per asset, each the sum of its column |
| Experiments.RowSums | src/experiments.py:85 | one sum per run, each the sum of that run's weights |
| Experiments.SumOfColumnSums | src/experiments.py:85 | summing the column sums gives the same total as summing the row sums |
| Experiments.AverageNonNegative | src/experiments.py:85 | averages of non-negative weights are non-negative |
| Experiments.ColumnSumsTotal | src/experiments.py:85 | when each run sums to one, the column sums total the number of runs |
| Experiments.AverageSumsToOne | src/experiments.py:85 | when each run sums to one, the averaged weights sum to one |
| Experiments.AverageOnSimplex | src/models.py:108-113 | the average of portfolios on the simplex is on the simplex |
| Experiments.WeightRowsOnSimplex | src/experiments.py:75-87 | with a sound solver every averaged portfolio in the table is a valid portfolio |
| Experiments.SplitIndex | src/experiments.py:116 | `int(0.8 * n)`: the largest k with 5k ≤ 4n, and below n when n ≥ 1 |
| Experiments.HistoricalSplit | src/experiments.py:116-117 | the training part followed by the test part is the data; the test part is non-empty when the data is |
| MiqcqpSolver.RawBdProd | venv/lib/python3.11/site-packages/xpress/examples/miqcqp_solver.py:35-59 | the sign-case analysis computes exactly the smallest and largest of the four corner products |
| MiqcqpSolver.BdProd | venv/lib/python3.11/site-packages/xpress/examples/miqcqp_solver.py:26-67 | the product bounds are the corner extremes clamped to ±infinity |
| MiqcqpSolver.ProductInCorners | venv/lib/python3.11/site-packages/xpress/examples/miqcqp_solver.py:61-62 | every product of values in the box lies between the extreme corner products |
| MiqcqpSolver.BdProdEncloses | venv/lib/python3.11/site-packages/xpress/examples/miqcqp_solver.py:26-67 | a finite product of values inside the bounds lies inside the computed product bounds |
| MiqcqpSolver.SquareBounds | venv/lib/python3.11/site-packages/xpress/examples/miqcqp_solver.py:78-82 | the square of a non-negative, non-positive or sign-changing interval gets the bounds of each case |
| MiqcqpSolver.SquareBoundsEnclose | venv/lib/python3.11/site-packages/xpress/examples/miqcqp_solver.py:78-82 | the square of a value in the interval lies inside its square bounds |
| MiqcqpSolver.SquareBoundsTight | venv/lib/python3.11/site-packages/xpress/examples/miqcqp_solver.py:78-82 | both square bounds are reached by values of the interval |
| MiqcqpSolver.AuxType | venv/lib/python3.11/site-packages/xpress/examples/miqcqp_solver.py:93-99 | the product of two binaries is binary, of two integer-valued factors otherwise integer, and continuous otherwise |
| MiqcqpSolver.AuxBounds | venv/lib/python3.11/site-packages/xpress/examples/miqcqp_solver.py:78-104 | bounds that cross infinity are an inconsistency error; otherwise the bounds are clamped to ±bigU |
| MiqcqpSolver.AuxBoundsEnclose | venv/lib/python3.11/site-packages/xpress/examples/miqcqp_solver.py:78-104 | a product within ±bigU of values inside the bounds lies inside the auxiliary bounds |
| MiqcqpSolver.ProductBoundsEnclose | venv/lib/python3.11/site-packages/xpress/examples/miqcqp_solver.py:78-86 | square and cross products of values inside the bounds lie inside the product bounds |
| MiqcqpSolver.Reformulation.constructor | venv/lib/python3.11/site-packages/xpress/examples/miqcqp_solver.py:72-112 | the reformulation starts with the original columns and no auxiliaries |
| MiqcqpSolver.Reformulation.AddAux | venv/lib/python3.11/site-packages/xpress/examples/miqcqp_solver.py:72-112 | fails, changing nothing, exactly when the bounds are inconsistent; otherwise appends one column with the clamped bounds and inferred type and records it under (i, j), keeping distinct auxiliaries per product |
| MiqcqpSolver.LowIndices | venv/lib/python3.11/site-packages/xpress/examples/miqcqp_solver.py:202-207 | the indices listed are those whose lower bound is at or below −infinity/2 |
| MiqcqpSolver.LowIndicesComplete | venv/lib/python3.11/site-packages/xpress/examples/miqcqp_solver.py:202-207 | every such index is listed, in increasing order |
| MiqcqpSolver.HighIndices | venv/lib/python3.11/site-packages/xpress/examples/miqcqp_solver.py:209-214 | the indices listed are those whose upper bound is at or above infinity/2 |
| MiqcqpSolver.HighIndicesComplete | venv/lib/python3.11/site-packages/xpress/examples/miqcqp_solver.py:209-214 | every such index is listed, in increasing order |
| MiqcqpSolver.NormalLower | venv/lib/python3.11/site-packages/xpress/examples/miqcqp_solver.py:202-207 | near-infinite lower bounds become −1e5 and all others are kept |
| MiqcqpSolver.NormalUpper | venv/lib/python3.11/site-packages/xpress/examples/miqcqp_solver.py:209-214 | near-infinite upper bounds become 1e5 and all others are kept |
| MiqcqpSolver.NormaliseLower | venv/lib/python3.11/site-packages/xpress/examples/miqcqp_solver.py:202-207 | the loop rewrites the lower-bound array in place and reports one 'L' change to −1e5 per listed index |
| MiqcqpSolver.NormaliseUpper | venv/lib/python3.11/site-packages/xpress/examples/miqcqp_solver.py:209-214 | the loop rewrites the upper-bound array in place and reports one 'U' change to 1e5 per listed index |
| MiqcqpSolver.NormaliseBounds | venv/lib/python3.11/site-packages/xpress/examples/miqcqp_solver.py:200-214 | both arrays are normalised and the bound changes list the lower ones, then the upper ones |
| MiqcqpSolver.NormalisedBoundsFinite | venv/lib/python3.11/site-packages/xpress/examples/miqcqp_solver.py:200-214 | after normalisation no bound is treated as infinite |
| MiqcqpSolver.Envelope | venv/lib/python3.11/site-packages/xpress/examples/miqcqp_solver.py:271-279 | each McCormick inequality concerns the product's two factors |
| MiqcqpSolver.FamilyRows | venv/lib/python3.11/site-packages/xpress/examples/miqcqp_solver.py:271-279 | one family has at most one inequality per product, and exactly one when all bounds are finite |
| MiqcqpSolver.McCormickRows | venv/lib/python3.11/site-packages/xpress/examples/miqcqp_solver.py:271-279 | at most four inequalities per product |
| MiqcqpSolver.EnvelopeValid | venv/lib/python3.11/site-packages/xpress/examples/miqcqp_solver.py:271-279 | each McCormick inequality holds at the true product of values inside the bounds |
| MiqcqpSolver.FamilyValid | venv/lib/python3.11/site-packages/xpress/examples/miqcqp_solver.py:271-279 | a whole family holds at any point inside the bounds |
| MiqcqpSolver.McCormickValid | venv/lib/python3.11/site-packages/xpress/examples/miqcqp_solver.py:271-279 | the relaxation never cuts off a point inside the bounds at its true products |
| MiqcqpSolver.NormalisedEnvelopeComplete | venv/lib/python3.11/site-packages/xpress/examples/miqcqp_solver.py:200-214 | after normalisation every product gets all four inequalities |
| MiqcqpSolver.Gaps | venv/lib/python3.11/site-packages/xpress/examples/miqcqp_solver.py:588 | one gap per auxiliary, between its value and the product of its factors |
| MiqcqpSolver.CheckSol | venv/lib/python3.11/site-packages/xpress/examples/miqcqp_solver.py:564-592 | the check fails exactly when it indexes the solution with the empty auxiliary arrays, which raises; otherwise it keeps the cutoff and accepts exactly when the problem is presolved, a solution exists and every gap is within tolerance |
| PwlTransp.XValues | venv/lib/python3.11/site-packages/xpress/examples/pwl_transp.py:56-78 | the x-breakpoints are 0, the limits, then the maximum |
| PwlTransp.YValues | venv/lib/python3.11/site-packages/xpress/examples/pwl_transp.py:56-78 | each y-breakpoint is its x-breakpoint times its rate, and the last one uses the last rate |
| PwlTransp.GetBreakpoints | venv/lib/python3.11/site-packages/xpress/examples/pwl_transp.py:56-78 | the loop produces exactly those breakpoints |
| PwlTransp.DocumentedExample | venv/lib/python3.11/site-packages/xpress/examples/pwl_transp.py:59-60 | limits [500, 1000], rates [1, 2, 3] and maximum 2000 give the breakpoints the code computes, [0, 500, 1000, 2000], and the docstring's values; the docstring's last breakpoint `200` is a typo for 2000 |
| PwlTransp.GetLine | venv/lib/python3.11/site-packages/xpress/examples/pwl_transp.py:84-95 | the line passes through both points |
| PwlTransp.LineUnique | venv/lib/python3.11/site-packages/xpress/examples/pwl_transp.py:84-95 | any line through both points is the one computed |
| PwlTransp.AdjacentPiecesMeet | venv/lib/python3.11/site-packages/xpress/examples/pwl_transp.py:98-113 | consecutive pieces share their endpoint and agree there, so the function is continuous |
| PwlTransp.GetPwlFunctions | venv/lib/python3.11/site-packages/xpress/examples/pwl_transp.py:98-113 | one interval per pair of breakpoints, each with the line through both |
| PwlTransp.FitPieces | venv/lib/python3.11/site-packages/xpress/examples/pwl_transp.py:109-112 | the loop fits every interval with its line |
| FeasPump.RoundedSol | venv/lib/python3.11/site-packages/xpress/examples/feas_pump.py:9-13 | integer entries are rounded and all others are copied |
| FeasPump.GetRoundedSol | venv/lib/python3.11/site-packages/xpress/examples/feas_pump.py:9-13 | a fresh array holding the rounded solution |
| FeasPump.RoundIntegral | venv/lib/python3.11/site-packages/xpress/examples/feas_pump.py:12 | rounding leaves integers alone |
| FeasPump.RoundedSolIdempotent | venv/lib/python3.11/site-packages/xpress/examples/feas_pump.py:9-13 | rounding twice is rounding once |
| FeasPump.RoundedSolClose | venv/lib/python3.11/site-packages/xpress/examples/feas_pump.py:9-13 | each entry moves by at most one half |
| FeasPump.Violation | venv/lib/python3.11/site-packages/xpress/examples/feas_pump.py:18-21 | '≤' rows negate the residual, '=' rows take its absolute value, other rows keep it |
| FeasPump.Violations | venv/lib/python3.11/site-packages/xpress/examples/feas_pump.py:17-21 | the first m rows are converted and the rest are untouched |
| FeasPump.ComputeViol | venv/lib/python3.11/site-packages/xpress/examples/feas_pump.py:16-22 | the array is converted in place and the largest of the first m violations is returned |
| FeasPump.WorstWithinTolerance | venv/lib/python3.11/site-packages/xpress/examples/feas_pump.py:16-22 | the worst violation is within tolerance exactly when every row's is |
| FeasPump.WorstNonNegativeWithEquality | venv/lib/python3.11/site-packages/xpress/examples/feas_pump.py:20-22 | with an equality row the worst violation is non-negative |
| MostViolated.Fractionality | venv/lib/python3.11/site-packages/xpress/examples/mostviolated.py:32-35 | the distance to the nearer integer is between 0 and 1/2, and zero exactly on integers |
| MostViolated.SelectBranch | venv/lib/python3.11/site-packages/xpress/examples/mostviolated.py:23-55 | no branch exactly when no column is fractional beyond tolerance; otherwise the first most fractional column, branched down to its floor and up to its ceiling |
| MostViolated.BestAtUnique | venv/lib/python3.11/site-packages/xpress/examples/mostviolated.py:31-39 | the selected position is determined uniquely |
| Orbits.OntoCities | venv/lib/python3.11/site-packages/xpress/examples/example_tsp_numpy.py:72 | n distinct cities below n are all the cities |
| Orbits.Pigeonhole | venv/lib/python3.11/site-packages/xpress/examples/example_tsp_numpy.py:18-25 | a walk longer than n repeats a city |
| Orbits.ReturnTime | venv/lib/python3.11/site-packages/xpress/examples/example_tsp_numpy.py:18-25 | following a permutation from a city returns to it within n steps |
| Orbits.FirstReturnDistinct | venv/lib/python3.11/site-packages/xpress/examples/example_tsp_numpy.py:18-25 | before the first return, the cities visited are distinct |
| Orbits.CoversAllIffDistinct | venv/lib/python3.11/site-packages/xpress/examples/example_tsp_numpy.py:27-38 | the walk visits every city exactly when its first n steps are distinct |
| Orbits.SingleCycle | venv/lib/python3.11/site-packages/xpress/examples/example_tsp_numpy.py:27-38 | if the walk from one city covers all, so does the walk from every city |
| Orbits.ReturnOrbit | venv/lib/python3.11/site-packages/xpress/examples/example_tsp_numpy.py:42-70 | the cities reachable from a city are exactly those visited before it returns |
| TspNumpy.Reshape | venv/lib/python3.11/site-packages/xpress/examples/example_tsp_numpy.py:13 | the flat solution becomes an n × n matrix |
| TspNumpy.ReshapeAt | venv/lib/python3.11/site-packages/xpress/examples/example_tsp_numpy.py:13 | entry (i, j) is flat entry i·n + j |
| TspNumpy.ArgMax | venv/lib/python3.11/site-packages/xpress/examples/example_tsp_numpy.py:16 | `argmax`: the first position of the largest entry |
| TspNumpy.Successors | venv/lib/python3.11/site-packages/xpress/examples/example_tsp_numpy.py:13-16 | each city's successor is the argmax of its row |
| TspNumpy.SuccessorIsOne | venv/lib/python3.11/site-packages/xpress/examples/example_tsp_numpy.py:16 | on an assignment the successor is the one column holding 1 |
| TspNumpy.AssignmentSuccessors | venv/lib/python3.11/site-packages/xpress/examples/example_tsp_numpy.py:13-16 | an assignment's successors form a permutation |
| TspNumpy.TourLength | venv/lib/python3.11/site-packages/xpress/examples/example_tsp_numpy.py:18-25 | the walk from city 0 counts the cities until it returns to 0, at most n |
| TspNumpy.TourCompleteIff | venv/lib/python3.11/site-packages/xpress/examples/example_tsp_numpy.py:27-38 | the count reaches n exactly when the walk from 0 covers every city |
| TspNumpy.PrintSol | venv/lib/python3.11/site-packages/xpress/examples/example_tsp_numpy.py:122-136 | the printed tour is the walk from 0 until it closes: distinct cities, the last leading back to 0, and all n exactly when the tour is complete |
| TspNumpy.TourArcs | venv/lib/python3.11/site-packages/xpress/examples/example_tsp_numpy.py:139-146 | the arcs join each city of the order to the next, and the last to the first |
| TspNumpy.TourMatrix | venv/lib/python3.11/site-packages/xpress/examples/example_tsp_numpy.py:139-146 | the initial solution is an n × n matrix |
| TspNumpy.CreateInitialTour | venv/lib/python3.11/site-packages/xpress/examples/example_tsp_numpy.py:139-146 | a fresh n × n array holding that matrix |
| TspNumpy.TourMatrixIsAssignment | venv/lib/python3.11/site-packages/xpress/examples/example_tsp_numpy.py:139-146 | the initial solution has exactly one 1 in each row and each column |
| TspNumpy.TourMatrixSuccessors | venv/lib/python3.11/site-packages/xpress/examples/example_tsp_numpy.py:139-146 | its successors follow the given order cyclically |
| TspNumpy.InitialTourIsTour | venv/lib/python3.11/site-packages/xpress/examples/example_tsp_numpy.py:139-146 | the initial solution is one tour through every city |
| TspNumpy.WalkFollowsOrder | venv/lib/python3.11/site-packages/xpress/examples/example_tsp_numpy.py:139-146 | walking the initial solution from the first city visits the cities in the given order |
| TspNumpy.Select | venv/lib/python3.11/site-packages/xpress/examples/example_tsp_numpy.py:79-80 | `np.where`: exactly the marked positions, in increasing order |
| TspNumpy.Members | venv/lib/python3.11/site-packages/xpress/examples/example_tsp_numpy.py:79 | a city is marked exactly when it has the group's label |
| TspNumpy.Complement | venv/lib/python3.11/site-packages/xpress/examples/example_tsp_numpy.py:80 | a city is marked exactly when it is not marked in the input |
| TspNumpy.RowIndices | venv/lib/python3.11/site-packages/xpress/examples/example_tsp_numpy.py:82 | one flat index per target city, all below n² |
| TspNumpy.RowIndicesAt | venv/lib/python3.11/site-packages/xpress/examples/example_tsp_numpy.py:82 | the index for target t in row i is i·n + t |
| TspNumpy.CutIndices | venv/lib/python3.11/site-packages/xpress/examples/example_tsp_numpy.py:82 | one flat index per pair of a group city and an outside city |
| TspNumpy.SubtourIndices | venv/lib/python3.11/site-packages/xpress/examples/example_tsp_numpy.py:79-82 | the arcs leaving group g, as flat indices below n² |
| TspNumpy.SplitCities | venv/lib/python3.11/site-packages/xpress/examples/example_tsp_numpy.py:79-80 | S holds the cities labelled g and compS holds every other city |
| TspNumpy.CutIndicesIncreasing | venv/lib/python3.11/site-packages/xpress/examples/example_tsp_numpy.py:82 | the cut's column indices are strictly increasing |
| TspNumpy.SubtourIndicesIncreasing | venv/lib/python3.11/site-packages/xpress/examples/example_tsp_numpy.py:79-82 | a subtour cut never lists a column twice |
| TspNumpy.ValueAppend | venv/lib/python3.11/site-packages/xpress/examples/example_tsp_numpy.py:86 | the left-hand side over joined index lists is the sum of the parts |
| TspNumpy.RowValue | venv/lib/python3.11/site-packages/xpress/examples/example_tsp_numpy.py:86 | the flat sum over one row's indices is that row's sum over the targets |
| TspNumpy.CutValueMatrix | venv/lib/python3.11/site-packages/xpress/examples/example_tsp_numpy.py:86 | the flat left-hand side equals the sum of x[i][j] over group i and outside j |
| TspNumpy.SubtourCutViolated | venv/lib/python3.11/site-packages/xpress/examples/example_tsp_numpy.py:84-90 | a group closed under the successors has no arc leaving it, so its cut is violated |
| TspNumpy.SubtourCutValid | venv/lib/python3.11/site-packages/xpress/examples/example_tsp_numpy.py:82-90 | every complete tour has at least one arc leaving any proper group, so the cut cuts off no tour |
| TspNumpy.LeavingCity | venv/lib/python3.11/site-packages/xpress/examples/example_tsp_numpy.py:82-90 | a complete tour leaves every proper group somewhere |
| TspNumpy.ArgMin | venv/lib/python3.11/site-packages/xpress/examples/example_tsp_numpy.py:59 | `argmin`: the first position of the smallest label |
| TspNumpy.LabelCycle | venv/lib/python3.11/site-packages/xpress/examples/example_tsp_numpy.py:61-70 | the inner loop labels exactly the cycle through the first unlabelled city and returns its length |
| TspNumpy.CycleShorter | venv/lib/python3.11/site-packages/xpress/examples/example_tsp_numpy.py:72 | when the tour is incomplete every cycle is shorter than n |
| TspNumpy.GroupStep | venv/lib/python3.11/site-packages/xpress/examples/example_tsp_numpy.py:42-70 | labelling one more cycle keeps the labelling a grouping by cycles |
| TspNumpy.FirstsLabelled | venv/lib/python3.11/site-packages/xpress/examples/example_tsp_numpy.py:42-70 | each group's first city has the group's label, and the first cities are distinct |
| TspNumpy.FewGroups | venv/lib/python3.11/site-packages/xpress/examples/example_tsp_numpy.py:42-70 | there are at most n groups, and fewer while a city is unlabelled, so the loop ends |
| TspNumpy.GroupedPartition | venv/lib/python3.11/site-packages/xpress/examples/example_tsp_numpy.py:42-72 | once every city is labelled the labels partition the cities into at least two cycles |
| TspNumpy.GroupsClosed | venv/lib/python3.11/site-packages/xpress/examples/example_tsp_numpy.py:42-70 | a city and its successor have the same label |
| TspNumpy.OneGroupCovers | venv/lib/python3.11/site-packages/xpress/examples/example_tsp_numpy.py:72 | a single group would be a complete tour, which is why the assert holds |
| TspNumpy.PackWellFormed | venv/lib/python3.11/site-packages/xpress/examples/example_tsp_numpy.py:94-106 | the cut buffers are consistent: increasing starts that delimit the indices and coefficients |
| TspNumpy.UnpackPack | venv/lib/python3.11/site-packages/xpress/examples/example_tsp_numpy.py:94-106 | reading the buffers back gives exactly the presolved rows appended |
| TspNumpy.SubtourRowsMatch | venv/lib/python3.11/site-packages/xpress/examples/example_tsp_numpy.py:92-93 | every presolved subtour row has one coefficient per column |
| TspNumpy.GroupCutAt | venv/lib/python3.11/site-packages/xpress/examples/example_tsp_numpy.py:79-82 | the g-th cut is the subtour cut of group g + 1 |
| TspNumpy.GroupCutsStep | venv/lib/python3.11/site-packages/xpress/examples/example_tsp_numpy.py:42-82 | relabelling one new group leaves the earlier groups' cuts unchanged |
| TspNumpy.CutRowsAppend | venv/lib/python3.11/site-packages/xpress/examples/example_tsp_numpy.py:86-107 | checking one more cut appends its presolved row exactly when it is violated by more than 0.001 |
| TspNumpy.SeparateSubtours | venv/lib/python3.11/site-packages/xpress/examples/example_tsp_numpy.py:42-118 | as written: the labels partition the cities into at least two cycles, the buffers hold the violated cuts, and the buffers are submitted after every group |
| TspNumpy.GroupAll | venv/lib/python3.11/site-packages/xpress/examples/example_tsp_numpy.py:42-118 | the while loop labels every city, builds the violated cuts in order and records each submission |
| TspNumpy.GroupRound | venv/lib/python3.11/site-packages/xpress/examples/example_tsp_numpy.py:44-118 | one round labels a new cycle, checks its cut and submits the buffers |
| TspNumpy.SeekTour | venv/lib/python3.11/site-packages/xpress/examples/example_tsp_numpy.py:54-72 | one round finds an unlabelled city and labels its whole cycle with the next label |
| TspNumpy.AddSubtourCut | venv/lib/python3.11/site-packages/xpress/examples/example_tsp_numpy.py:79-107 | the group's cut is appended to the buffers exactly when it is violated |
| TspNumpy.FinishGrouping | venv/lib/python3.11/site-packages/xpress/examples/example_tsp_numpy.py:42-72 | when the loop stops the labels partition the cities into between two and n cycles |
| TspNumpy.AllCutsViolated | venv/lib/python3.11/site-packages/xpress/examples/example_tsp_numpy.py:86-107 | when every cut is violated each one contributes its presolved row |
| TspNumpy.GroupCutsViolated | venv/lib/python3.11/site-packages/xpress/examples/example_tsp_numpy.py:79-90 | on an integer solution every group's cut has left-hand side zero |
| TspNumpy.PreIntSol | venv/lib/python3.11/site-packages/xpress/examples/example_tsp_numpy.py:8-120 | corrected: a heuristic solution (soltype ≠ 0) is rejected exactly when it is not a single tour; a solution from an integral node (soltype 0) gets one batch holding every group's cut |
| TspNumpy.AllGroupsCut | venv/lib/python3.11/site-packages/xpress/examples/example_tsp_numpy.py:79-107 | when all groups' cuts are violated the buffers hold every group's cut in label order |
| TspNumpy.SubtourCutsSeparate | venv/lib/python3.11/site-packages/xpress/examples/example_tsp_numpy.py:79-107 | each cut is violated by the current solution and satisfied by every complete tour |
| TspNumpy.TimesSubmitted | venv/lib/python3.11/site-packages/xpress/examples/example_tsp_numpy.py:109-118 | a row is submitted at most once per call |
| TspNumpy.CountingSubmits | venv/lib/python3.11/site-packages/xpress/examples/example_tsp_numpy.py:109-118 | with cumulative buffers row r goes out k − r times in k calls |
| TspNumpy.ResubmittedCuts | venv/lib/python3.11/site-packages/xpress/examples/example_tsp_numpy.py:109-118 | as written: with g groups the buffers are submitted g times and row r goes out g − r times, so the first cut goes out at least twice |
| GenconsSat.ParseHeaderLine | venv/lib/python3.11/site-packages/xpress/examples/example_gencons_sat.py:36-44 | a header line succeeds exactly when it reads `p cnf` and two integers, giving those counts and the lines after it; another format is the not-cnf error |
| GenconsSat.ReadSatInstance | venv/lib/python3.11/site-packages/xpress/examples/example_gencons_sat.py:21-45 | the loop's result is the header scan of the lines |
| GenconsSat.HeaderAfterComments | venv/lib/python3.11/site-packages/xpress/examples/example_gencons_sat.py:30-45 | after comments, a `p cnf` line gives its counts and the lines after it |
| GenconsSat.NotCnfRejected | venv/lib/python3.11/site-packages/xpress/examples/example_gencons_sat.py:36-40 | a `p` line of another format is rejected |
| GenconsSat.NoHeader | venv/lib/python3.11/site-packages/xpress/examples/example_gencons_sat.py:21-45 | without a header the counts stay 0 and the lines after the comments are returned |
| GenconsSat.CommentsStep | venv/lib/python3.11/site-packages/xpress/examples/example_gencons_sat.py:33-35 | the comment count grows by one exactly on comment lines |
| GenconsSat.ValueOf | venv/lib/python3.11/site-packages/xpress/examples/example_gencons_sat.py:58-61 | a literal has a non-zero DIMACS value |
| GenconsSat.LiteralRoundTrip | venv/lib/python3.11/site-packages/xpress/examples/example_gencons_sat.py:58-61 | a value maps to a variable or its negation exactly when it is within the variable count, and back |
| GenconsSat.GetDisjunctions | venv/lib/python3.11/site-packages/xpress/examples/example_gencons_sat.py:48-64 | the loop's result is the clause reading of the lines |
| GenconsSat.ClauseFromValues | venv/lib/python3.11/site-packages/xpress/examples/example_gencons_sat.py:55-63 | the clause of a line is its non-zero values as literals |
| GenconsSat.LiteralsValues | venv/lib/python3.11/site-packages/xpress/examples/example_gencons_sat.py:56-61 | converting values to literals and back keeps the non-zero ones in order |
| GenconsSat.ClauseValues | venv/lib/python3.11/site-packages/xpress/examples/example_gencons_sat.py:55-63 | a line of in-range integers reads as the clause of its non-zero values |
| GenconsSat.DisjunctionsFromStep | venv/lib/python3.11/site-packages/xpress/examples/example_gencons_sat.py:53-63 | a bad line stops the reading with its error; a good one appends its clause |
| GenconsSat.AllLinesRead | venv/lib/python3.11/site-packages/xpress/examples/example_gencons_sat.py:48-64 | reading succeeds exactly when every line is a valid clause |
| GenconsSat.OnePerLine | venv/lib/python3.11/site-packages/xpress/examples/example_gencons_sat.py:48-64 | one clause per line, in order, each the clause of its line |
| GenconsSat.LineAt | venv/lib/python3.11/site-packages/xpress/examples/example_gencons_sat.py:53-63 | the clause at a line's position is that line's clause |
| GenconsSat.KeepsPrefix | venv/lib/python3.11/site-packages/xpress/examples/example_gencons_sat.py:53-63 | clauses already read are kept |
| GenconsSat.Starts | venv/lib/python3.11/site-packages/xpress/examples/example_gencons_sat.py:109-114 | one start per clause plus the total, starting at 0 |
| GenconsSat.ColStart | venv/lib/python3.11/site-packages/xpress/examples/example_gencons_sat.py:109-114 | the loop builds those starts |
| GenconsSat.StartsDelimit | venv/lib/python3.11/site-packages/xpress/examples/example_gencons_sat.py:109-115 | consecutive starts delimit exactly each clause in the flattened columns |
| GenconsSat.Columns | venv/lib/python3.11/site-packages/xpress/examples/example_gencons_sat.py:115-117 | the columns are the flattened literals followed by one y per clause |
| GenconsSat.ColumnAt | venv/lib/python3.11/site-packages/xpress/examples/example_gencons_sat.py:115 | the k-th literal of clause i sits at its start plus k |
| GenconsSat.OrIsClause | venv/lib/python3.11/site-packages/xpress/examples/example_gencons_sat.py:105-118 | each OR constraint is true exactly when its clause is satisfied |
| GenconsSat.AndIsAllClauses | venv/lib/python3.11/site-packages/xpress/examples/example_gencons_sat.py:106-118 | the AND constraint is true exactly when every y is |
| GenconsSat.GenconsStateCnf | venv/lib/python3.11/site-packages/xpress/examples/example_gencons_sat.py:103-119 | with each y equal to its OR, is_satisfiable is true exactly when the assignment satisfies the formula |
| GenconsPbo.SkipSpaces | venv/lib/python3.11/site-packages/xpress/examples/example_gencons_pbo.py:39-51 | stops at the first non-space, or at the end |
| GenconsPbo.ConstantEnd | venv/lib/python3.11/site-packages/xpress/examples/example_gencons_pbo.py:54-68 | stops at the first character that ends a constant |
| GenconsPbo.SpaceFrom | venv/lib/python3.11/site-packages/xpress/examples/example_gencons_pbo.py:92-97 | stops at the first space |
| GenconsPbo.LineEnd | venv/lib/python3.11/site-packages/xpress/examples/example_gencons_pbo.py:150-155 | `readline`: stops just after the first newline, or at the end |
| GenconsPbo.IgnoreWsFrom | venv/lib/python3.11/site-packages/xpress/examples/example_gencons_pbo.py:39-51 | fails only on an empty file; otherwise moves back onto the first non-space, or onto the last character at the end |
| GenconsPbo.ReadConstantFrom | venv/lib/python3.11/site-packages/xpress/examples/example_gencons_pbo.py:54-68 | the constant runs up to its terminator, an empty one reads 1, and with no terminator before the end the loop never stops |
| GenconsPbo.ConstantRoundTrip | venv/lib/python3.11/site-packages/xpress/examples/example_gencons_pbo.py:54-68 | a written number followed by a terminator reads back as that number; a bare terminator reads 1 |
| GenconsPbo.LoneXAccepted | venv/lib/python3.11/site-packages/xpress/examples/example_gencons_pbo.py:98-100 | `x ` is accepted as written and rejected when corrected |
| GenconsPbo.ReadVariableFrom | venv/lib/python3.11/site-packages/xpress/examples/example_gencons_pbo.py:80-101 | corrected: a variable is `x` followed by a non-empty index without spaces, ending at a space |
| GenconsPbo.VariableRoundTrip | venv/lib/python3.11/site-packages/xpress/examples/example_gencons_pbo.py:80-101 | `x` plus any non-empty index plus a space reads back as that variable |
| GenconsPbo.ReadVariableCorrection | venv/lib/python3.11/site-packages/xpress/examples/example_gencons_pbo.py:98-100 | the two readings differ exactly on a lone `x` followed by a space |
| GenconsPbo.ConjItemFrom | venv/lib/python3.11/site-packages/xpress/examples/example_gencons_pbo.py:104-122 | with the corrected variable reader: one item is a variable, possibly negated with `~`, or the end of the conjunction |
| GenconsPbo.ReadConjFrom | venv/lib/python3.11/site-packages/xpress/examples/example_gencons_pbo.py:104-122 | the conjunction extends what was read with literal names and stops at its terminator |
| GenconsPbo.ConstantTermAccepted | venv/lib/python3.11/site-packages/xpress/examples/example_gencons_pbo.py:134-136 | `3 ;` is a term without variables as written and an error when corrected |
| GenconsPbo.ReadTermFrom | venv/lib/python3.11/site-packages/xpress/examples/example_gencons_pbo.py:125-137 | corrected: a term is a coefficient and a non-empty conjunction of literal names |
| GenconsPbo.ReadTermCorrection | venv/lib/python3.11/site-packages/xpress/examples/example_gencons_pbo.py:134-136 | the two readings differ exactly on terms with an empty conjunction |
| GenconsPbo.CommentsEnd | venv/lib/python3.11/site-packages/xpress/examples/example_gencons_pbo.py:150-155 | stops at the first line that does not start with `*` |
| GenconsPbo.ObjectiveItemFrom | venv/lib/python3.11/site-packages/xpress/examples/example_gencons_pbo.py:161-170 | with the corrected term reader: reading one objective term moves forward |
| GenconsPbo.ObjectiveTermsFrom | venv/lib/python3.11/site-packages/xpress/examples/example_gencons_pbo.py:161-170 | with the corrected term reader: the objective terms extend what was read |
| GenconsPbo.GetObjectiveFrom | venv/lib/python3.11/site-packages/xpress/examples/example_gencons_pbo.py:140-172 | with the corrected readers: after the comments, a sense word starting with `m` of at most three letters, then the terms |
| GenconsPbo.ObjectiveWellFormed | venv/lib/python3.11/site-packages/xpress/examples/example_gencons_pbo.py:161-170 | every objective term has a non-empty conjunction |
| GenconsPbo.RhsFrom | venv/lib/python3.11/site-packages/xpress/examples/example_gencons_pbo.py:201-214 | the right-hand side runs up to its terminator |
| GenconsPbo.ConstraintRound | venv/lib/python3.11/site-packages/xpress/examples/example_gencons_pbo.py:185-218 | one round of the constraint loop either ends it or moves forward |
| GenconsPbo.RoundAt | venv/lib/python3.11/site-packages/xpress/examples/example_gencons_pbo.py:189-218 | the round dispatches on the next non-space character |
| GenconsPbo.SenseRound | venv/lib/python3.11/site-packages/xpress/examples/example_gencons_pbo.py:201-214 | a sense sets the pending constraint's sense and right-hand side and moves forward |
| GenconsPbo.TermRound | venv/lib/python3.11/site-packages/xpress/examples/example_gencons_pbo.py:215-218 | with the corrected term reader: a term is added to the pending constraint and the reader moves forward |
| GenconsPbo.ConstraintsFrom | venv/lib/python3.11/site-packages/xpress/examples/example_gencons_pbo.py:175-220 | with the corrected readers: the constraints read extend those already read |
| GenconsPbo.RoundKeepsShape | venv/lib/python3.11/site-packages/xpress/examples/example_gencons_pbo.py:185-218 | a round keeps every stored constraint well formed |
| GenconsPbo.ConstraintsWellFormed | venv/lib/python3.11/site-packages/xpress/examples/example_gencons_pbo.py:175-220 | every constraint read has a sense among `''`, `>=`, `<=` and `=`, empty exactly when it has no right-hand side, and well-formed terms |
| GenconsPbo.RoundAtEndRepeats | venv/lib/python3.11/site-packages/xpress/examples/example_gencons_pbo.py:189-198 | at the end of the file the reader moves back onto the last `;` or `*` and meets it again, so the loop cannot end there |
| GenconsPbo.OpbFile.constructor | venv/lib/python3.11/site-packages/xpress/examples/example_gencons_pbo.py:267 | a file handle at the start of the text |
| GenconsPbo.OpbFile.Read | venv/lib/python3.11/site-packages/xpress/examples/example_gencons_pbo.py:46 | `read(n)` returns the next n characters, fewer at the end, and moves past them |
| GenconsPbo.OpbFile.MoveBack | venv/lib/python3.11/site-packages/xpress/examples/example_gencons_pbo.py:71-77 | moves back one character, which fails only at the start |
| GenconsPbo.OpbFile.ReadLine | venv/lib/python3.11/site-packages/xpress/examples/example_gencons_pbo.py:153 | moves past the current line |
| GenconsPbo.IgnoreWs | venv/lib/python3.11/site-packages/xpress/examples/example_gencons_pbo.py:39-51 | the loop ends where `IgnoreWsFrom` says: on the first non-space, or on the last character at the end; it fails on an empty file |
| GenconsPbo.ConstantText | venv/lib/python3.11/site-packages/xpress/examples/example_gencons_pbo.py:58-66 | the loop collects the constant's characters up to its terminator, or reports divergence |
| GenconsPbo.ReadConstant | venv/lib/python3.11/site-packages/xpress/examples/example_gencons_pbo.py:54-68 | the file moves and the result is what `ReadConstantFrom` gives |
| GenconsPbo.ReadVariable | venv/lib/python3.11/site-packages/xpress/examples/example_gencons_pbo.py:80-101 | the file moves and the result is the corrected variable reading |
| GenconsPbo.ConjItem | venv/lib/python3.11/site-packages/xpress/examples/example_gencons_pbo.py:108-120 | one step of the conjunction loop, equal to the corrected reading `ConjItemFrom` |
| GenconsPbo.ReadConj | venv/lib/python3.11/site-packages/xpress/examples/example_gencons_pbo.py:104-122 | the loop reads the conjunction as `ReadConjFrom` does, with the corrected variable reader |
| GenconsPbo.ReadTerm | venv/lib/python3.11/site-packages/xpress/examples/example_gencons_pbo.py:125-137 | the file moves and the result is the corrected term reading |
| GenconsPbo.SkipComments | venv/lib/python3.11/site-packages/xpress/examples/example_gencons_pbo.py:150-155 | skips the comment lines and reads the character after them |
| GenconsPbo.ObjectiveItem | venv/lib/python3.11/site-packages/xpress/examples/example_gencons_pbo.py:161-170 | one step of the objective loop, equal to `ObjectiveItemFrom` with the corrected term reader |
| GenconsPbo.ObjectiveTerms | venv/lib/python3.11/site-packages/xpress/examples/example_gencons_pbo.py:161-170 | the loop reads the objective terms as `ObjectiveTermsFrom` does, with the corrected term reader |
| GenconsPbo.GetObjective | venv/lib/python3.11/site-packages/xpress/examples/example_gencons_pbo.py:140-172 | the objective is read as `GetObjectiveFrom` gives it, with the corrected variable and term readers |
| GenconsPbo.ReadRhs | venv/lib/python3.11/site-packages/xpress/examples/example_gencons_pbo.py:201-214 | the right-hand side is read as `RhsFrom` gives it |
| GenconsPbo.SenseStep | venv/lib/python3.11/site-packages/xpress/examples/example_gencons_pbo.py:201-214 | a sense step, equal to `SenseRound` |
| GenconsPbo.TermStep | venv/lib/python3.11/site-packages/xpress/examples/example_gencons_pbo.py:215-218 | a term step, equal to `TermRound` with the corrected term reader |
| GenconsPbo.RoundStep | venv/lib/python3.11/site-packages/xpress/examples/example_gencons_pbo.py:189-218 | one dispatch on the next character, equal to `RoundAt` |
| GenconsPbo.ConstraintStep | venv/lib/python3.11/site-packages/xpress/examples/example_gencons_pbo.py:185-218 | one round of the constraint loop, equal to `ConstraintRound` |
| GenconsPbo.GetConstraint | venv/lib/python3.11/site-packages/xpress/examples/example_gencons_pbo.py:175-220 | the loop reads all constraints as `ConstraintsFrom` gives them, with the corrected variable and term readers |
| GenconsPbo.ReadOpbFile | venv/lib/python3.11/site-packages/xpress/examples/example_gencons_pbo.py:267-270 | the file is read as the objective, then the constraints, both with the corrected variable and term readers |
| BBTree.Subtree | venv/lib/python3.11/site-packages/xpress/examples/example_bbtree.py:22-36 | the subtree of a node contains the node |
| BBTree.Card | venv/lib/python3.11/site-packages/xpress/examples/example_bbtree.py:22-36 | a subtree counts at least one node, and exactly one when the node is a leaf |
| BBTree.CardCountsVisits | venv/lib/python3.11/site-packages/xpress/examples/example_bbtree.py:22-36 | the count is the number of nodes the postorder pass visits, and the node comes last |
| BBTree.VisitsSubtree | venv/lib/python3.11/site-packages/xpress/examples/example_bbtree.py:22-36 | the postorder pass visits exactly the subtree |
| BBTree.ChildrenFirst | venv/lib/python3.11/site-packages/xpress/examples/example_bbtree.py:28-36 | children are counted before their parent |
| BBTree.CountsInto | venv/lib/python3.11/site-packages/xpress/examples/example_bbtree.py:22-36 | the table after counting a subtree holds an entry for its root |
| BBTree.CountsTable | venv/lib/python3.11/site-packages/xpress/examples/example_bbtree.py:22-36 | counting fills every node of the subtree with its cardinality and leaves other entries unchanged |
| BBTree.ChildInside | venv/lib/python3.11/site-packages/xpress/examples/example_bbtree.py:51-73 | a child's band is narrower and touches the parent's left or right edge; the left child is strictly left of the parent and the right child strictly right |
| BBTree.LayoutBand | venv/lib/python3.11/site-packages/xpress/examples/example_bbtree.py:39-77 | every node below a node is placed inside its band and at or below its depth |
| BBTree.LayoutNodes | venv/lib/python3.11/site-packages/xpress/examples/example_bbtree.py:39-77 | the layout places exactly the nodes of the subtree |
| BBTree.RootAtTop | venv/lib/python3.11/site-packages/xpress/examples/example_bbtree.py:46-47 | the root keeps position (0.5, 1) |
| BBTree.PlaceIntoLayout | venv/lib/python3.11/site-packages/xpress/examples/example_bbtree.py:39-77 | writing positions into a table is writing the subtree's layout over it |
| BBTree.PlaceIntoPlaced | venv/lib/python3.11/site-packages/xpress/examples/example_bbtree.py:64-66 | a child's step writes the child's position, then its subtree's layout |
| BBTree.DrawnTable | venv/lib/python3.11/site-packages/xpress/examples/example_bbtree.py:110 | laying out from the root places every node, the root at (0.5, 1) and every other node strictly inside (0, 1) at height 0 or below |
| BBTree.Tree.constructor | venv/lib/python3.11/site-packages/xpress/examples/example_bbtree.py:91-93 | empty child maps and count table |
| BBTree.Tree.StoreNode | venv/lib/python3.11/site-packages/xpress/examples/example_bbtree.py:80-86 | branch 0 records the left child and any other branch the right child; the other map is unchanged |
| BBTree.Tree.PostorderCount | venv/lib/python3.11/site-packages/xpress/examples/example_bbtree.py:22-36 | the count table becomes the specified table, and nodes finish in postorder |
| BBTree.Graph.constructor | venv/lib/python3.11/site-packages/xpress/examples/example_bbtree.py:89 | an empty graph |
| BBTree.SetPos | venv/lib/python3.11/site-packages/xpress/examples/example_bbtree.py:39-77 | positions become the specified placement, and one edge is added per parent–child pair in the subtree |
| BBTree.SetLeft | venv/lib/python3.11/site-packages/xpress/examples/example_bbtree.py:53-66 | the left branch writes the left child and its subtree |
| BBTree.SetRight | venv/lib/python3.11/site-packages/xpress/examples/example_bbtree.py:68-77 | the right branch writes the right child and its subtree |
| BBTree.DrawTree | venv/lib/python3.11/site-packages/xpress/examples/example_bbtree.py:106-110 | after counting from the root and placing from the root, every node of the tree holds its cardinality and a position; the root is at (0.5, 1) and every other node is inside the unit band below it |

## Left out

- Every solver call (cvxpy with its solvers, and Xpress `optimize`) is a parameter: an oracle from a program to an optional solution. Solver statuses, timing and numerical tolerances are not modelled.
- Scenario simulation and the Fama–French file loader are parameters. The sampler takes an explicit run index where the source draws fresh random numbers.
- Plotting, CSV and pickle output, message callbacks and all printing are left out.
- Floating-point numbers are exact reals, so rounding error, overflow, `inf` and `nan` are not modelled. numpy's NaN mean over an empty set is the `EmptyMean` error.
- `xp.infinity` is taken as 1e20, the Xpress library's value; the library is not part of this model.
- Problem construction in the Xpress examples is left out: `create_prob`, `build_expr`, `addVariable`, `addConstraint` and `addgencons`. Only the data passed to those calls is modelled.
- In miqcqp_solver.py the branching, node and presolve callbacks are left out, apart from `cbchecksol`: `cbbranch`, `cbfindsol` and the bound-tightening loops.
- In example_tsp_numpy.py, `presolverow` is a function parameter and its status assert is left out.
- The OPB reader works on an in-memory text with a position; opening the file and the metadata comment regex on its first line are left out. A loop that would never end at end of file is the `Diverges` error. `sys.exit` and errors that Python raises are error results.
- Numbers in OPB files and DIMACS files are plain decimals; exponents, `inf` and `nan` are not read.
- In example_bbtree.py the networkx drawing and `plt` are left out. The graph's edges are ordered pairs, although networkx stores them undirected.
- GenconsPbo.GetObjective: reads terms with the corrected `read_variable` and `read_term` (see Findings), so an objective holding a variable written `x ` or a coefficient-only term such as `+2 ;` is an error here, where the source accepts both.
- GenconsPbo.GetConstraint: the same; a constraint holding `x ` or the coefficient-only term `+2 ;` is an error here, where the source accepts it.
- GenconsPbo.ReadOpbFile: the same two inputs make the whole file an error here, where the source reads them. The as-written readings are modelled only for single variables and terms.
- GenconsPbo.OpbFile.MoveBack: steps back one character. The source seeks to `tell() - 1` on a text-mode file, which is a byte offset, so after a multi-byte character or a `\r\n` line ending it does not land one character back; the model treats the text as one character per position.
- BBTree.PostorderCount: always finishes. The source's recursive `postorder_count` raises RecursionError on a tree deeper than Python's recursion limit (about 1000), which a tree of up to 40000 nodes can be.
- BBTree.SetPos: always finishes, where the source's recursive `setpos` raises RecursionError on a tree that deep.
- BBTree.PostorderCount: requires every child number to exceed its parent's. The solver numbers nodes in creation order; without that, the recursion's termination cannot be shown.
- BBTree.SetPos: requires the same node-order property and the counts written by the postorder pass.
- TspNumpy.PreIntSol: requires the solution to be an exact 0/1 assignment, so the argmax successors form a permutation. On fractional solutions the source's grouping is not modelled.
- TspNumpy.SeparateSubtours: takes the successor permutation rather than the raw solution, for the same reason.
- FeasPump.ComputeViol: requires m ≥ 1, since `max` of an empty slice raises in Python.
- FeasPump.GetRoundedSol: requires the integer indices to be in range; Python's negative indices are not modelled.
- MostViolated.SelectBranch: requires the candidate columns to index the solution.
- The other example functions (`main` of each script apart from the steps listed, the transport model in pwl_transp.py, and the feasibility pump loop in feas_pump.py) only build and solve problems and are left out.

## Findings

| source | as written | input that shows it | evidently intended | confidence | as-written member | corrected member |
|---|---|---|---|---|---|---|
| venv/lib/python3.11/site-packages/xpress/examples/example_tsp_numpy.py:109-118 | `if ncuts > 0: addcuts(...)` is indented inside the grouping loop, so the cumulative buffers are submitted after every group | an integral solution made of two subtours: the first group's cut is submitted twice | submit the collected cuts once, after the loop | not executed | TspNumpy.ResubmittedCuts | TspNumpy.PreIntSol |
| venv/lib/python3.11/site-packages/xpress/examples/example_gencons_pbo.py:98 | the empty-index check compares the collected index with `' '`, which it can never equal | the text `x ` is read as a variable named `x` | reject a variable with an empty index | not executed | GenconsPbo.LoneXAccepted | GenconsPbo.ReadVariableCorrection |
| venv/lib/python3.11/site-packages/xpress/examples/example_gencons_pbo.py:134 | `conj is []` tests identity with a fresh list and is never true | the term `3 ;` is read as a term without variables | reject a term with an empty conjunction | not executed | GenconsPbo.ConstantTermAccepted | GenconsPbo.ReadTermCorrection |
