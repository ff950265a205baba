/** The two portfolio programs of `src/models.py`: Sample Average
    Approximation (SAA) and the Wasserstein distributionally robust
    program (DRO) in its epigraph form. The programs are built as data
    and handed to a solver oracle; the oracle stands for the convex
    solver and may fail, which the model writes as `None`. */
module PortfolioModels {
  import opened Wrappers
  import opened Numeric

  /** A numpy array of shape (N, d): N scenario rows of d returns each. */
  datatype Matrix = Matrix(rows: seq<Vec>, cols: nat)

  predicate WellShaped(m: Matrix)
  {
    forall i :: 0 <= i < |m.rows| ==> |m.rows[i]| == m.cols
  }

  /** Scenario returns ξ_1..ξ_N; a numpy array always has equal-length rows. */
  type Returns = m: Matrix | WellShaped(m) witness Matrix([], 0)

  /** A loss h(x, ξ): the decision vector first, then the scenario. */
  type LossFn = (Vec, Vec) -> real

  /** A constraint generator, read as the set of decision vectors that
      satisfy every constraint it returns. */
  type ConstraintFn = Vec -> bool

  /** The Lipschitz constant L of the DRO objective, fixed at 1.0. */
  const Lipschitz: real := 1.0

  /** The SAA default loss: minus the portfolio return, −ξᵀx. */
  function DefaultLoss(x: Vec, xi: Vec): real
  {
    -Dot(xi, x)
  }

  /** The default constraint list [x >= 0, sum(x) == 1]. */
  predicate SimplexConstraints(x: Vec)
  {
    (forall k :: 0 <= k < |x| ==> x[k] >= 0.0) && Sum(x) == 1.0
  }

  /** Both classes fall back to the simplex when no generator is given. */
  function ConstraintsOrDefault(constraintFn: Option<ConstraintFn>): (c: ConstraintFn)
    ensures constraintFn.None? ==> forall x :: c(x) == SimplexConstraints(x)
    ensures constraintFn.Some? ==> c == constraintFn.value
  {
    if constraintFn.None? then SimplexConstraints else constraintFn.value
  }

  /** The convex programs the two classes hand to the solver. */
  datatype Program =
    | SaaProgram(scenarios: Returns, loss: LossFn, constraints: ConstraintFn)
    | DroProgram(scenarios: Returns, epsilon: real, loss: LossFn, constraints: ConstraintFn)

  /** What the solver reports: `x.value` and `problem.value`. */
  datatype Solution = Solution(x: Vec, value: real)

  /** The convex solver, seen from outside: it may answer or fail. */
  type Oracle = Program -> Option<Solution>

  datatype SolveError = ZeroScenarios

  /** The per-scenario losses h(x, ξ_i), i < N, each scenario once. */
  function Losses(scenarios: Returns, loss: LossFn, x: Vec): (ls: seq<real>)
    ensures |ls| == |scenarios.rows|
    ensures forall i :: 0 <= i < |ls| ==> ls[i] == loss(x, scenarios.rows[i])
  {
    seq(|scenarios.rows|, i requires 0 <= i < |scenarios.rows| => loss(x, scenarios.rows[i]))
  }

  /** The SAA objective (1/N)·Σ_i h(x, ξ_i). */
  function SaaObjective(scenarios: Returns, loss: LossFn, x: Vec): real
    requires |scenarios.rows| > 0
  {
    Mean(Losses(scenarios, loss, x))
  }

  /** The DRO objective t + ε·L; it does not depend on x or on the loss. */
  function DroObjective(epsilon: real, t: real): real
  {
    t + epsilon * Lipschitz
  }

  /** x is a d-vector that meets the generated constraints. */
  predicate Admissible(constraints: ConstraintFn, d: nat, x: Vec)
  {
    |x| == d && constraints(x)
  }

  /** (x, t) is feasible for the DRO program: x admissible and
      t >= h(x, ξ_i) for every scenario. */
  predicate DroFeasible(scenarios: Returns, loss: LossFn, constraints: ConstraintFn, x: Vec, t: real)
  {
    Admissible(constraints, scenarios.cols, x) &&
    forall i :: 0 <= i < |scenarios.rows| ==> t >= loss(x, scenarios.rows[i])
  }

  /** `s` is an exact optimum of the SAA program. */
  ghost predicate IsSaaOptimum(scenarios: Returns, loss: LossFn, constraints: ConstraintFn, s: Solution)
  {
    |scenarios.rows| > 0 &&
    Admissible(constraints, scenarios.cols, s.x) &&
    s.value == SaaObjective(scenarios, loss, s.x) &&
    forall x :: Admissible(constraints, scenarios.cols, x) ==> s.value <= SaaObjective(scenarios, loss, x)
  }

  /** `s` is an exact optimum of the DRO program: its x with
      t = value − ε·L is feasible, and no feasible pair does better. */
  ghost predicate IsDroOptimum(scenarios: Returns, epsilon: real, loss: LossFn, constraints: ConstraintFn, s: Solution)
  {
    DroFeasible(scenarios, loss, constraints, s.x, s.value - epsilon * Lipschitz) &&
    forall x, t :: DroFeasible(scenarios, loss, constraints, x, t) ==> s.value <= DroObjective(epsilon, t)
  }

  ghost predicate Solves(p: Program, s: Solution)
  {
    match p
    case SaaProgram(r, h, c) => IsSaaOptimum(r, h, c, s)
    case DroProgram(r, e, h, c) => IsDroOptimum(r, e, h, c, s)
  }

  /** An oracle that, whenever it answers, answers with an exact optimum. */
  ghost predicate SoundOracle(oracle: Oracle)
  {
    forall p :: oracle(p).Some? ==> Solves(p, oracle(p).value)
  }

  /** The largest scenario loss max_i h(x, ξ_i). */
  function MaxLoss(scenarios: Returns, loss: LossFn, x: Vec): real
    requires |scenarios.rows| > 0
  {
    MaxOf(Losses(scenarios, loss, x))
  }

  /** For an admissible x, t is feasible exactly when t >= max_i h(x, ξ_i),
      so the least feasible epigraph value is that maximum. */
  lemma LeastEpigraph(scenarios: Returns, loss: LossFn, constraints: ConstraintFn, x: Vec, t: real)
    requires |scenarios.rows| > 0
    requires Admissible(constraints, scenarios.cols, x)
    ensures DroFeasible(scenarios, loss, constraints, x, MaxLoss(scenarios, loss, x))
    ensures DroFeasible(scenarios, loss, constraints, x, t) <==> t >= MaxLoss(scenarios, loss, x)
  {
    var ls := Losses(scenarios, loss, x);
    var m := MaxLoss(scenarios, loss, x);
    if DroFeasible(scenarios, loss, constraints, x, t) {
      var i :| 0 <= i < |ls| && ls[i] == m;
      assert t >= loss(x, scenarios.rows[i]);
    }
  }

  /** Changing ε shifts the DRO objective by a constant: (x, v) is optimal at ε
      exactly when (x, v − ε·L) is optimal at ε = 0. Hence the optimal value
      grows by exactly ε and the optimal portfolios do not depend on ε. */
  lemma DroOptimumShift(scenarios: Returns, epsilon: real, loss: LossFn, constraints: ConstraintFn, x: Vec, v: real)
    ensures IsDroOptimum(scenarios, epsilon, loss, constraints, Solution(x, v))
        <==> IsDroOptimum(scenarios, 0.0, loss, constraints, Solution(x, v - epsilon))
  {
  }

  /** For the same feasible x and ε >= 0 the DRO objective is at least the SAA
      objective, because the maximum scenario loss is at least the mean. */
  lemma DroObjectiveDominatesSaa(scenarios: Returns, epsilon: real, loss: LossFn, constraints: ConstraintFn, x: Vec, t: real)
    requires |scenarios.rows| > 0 && epsilon >= 0.0
    requires DroFeasible(scenarios, loss, constraints, x, t)
    ensures DroObjective(epsilon, t) >= SaaObjective(scenarios, loss, x)
  {
    LeastEpigraph(scenarios, loss, constraints, x, t);
    MeanAtMostMax(Losses(scenarios, loss, x));
  }

  /** Consequently the optimal DRO value is at least the optimal SAA value. */
  lemma DroValueDominatesSaa(scenarios: Returns, epsilon: real, loss: LossFn, constraints: ConstraintFn, saa: Solution, dro: Solution)
    requires epsilon >= 0.0
    requires IsSaaOptimum(scenarios, loss, constraints, saa)
    requires IsDroOptimum(scenarios, epsilon, loss, constraints, dro)
    ensures dro.value >= saa.value
  {
    var t := dro.value - epsilon * Lipschitz;
    DroObjectiveDominatesSaa(scenarios, epsilon, loss, constraints, dro.x, t);
  }

  /** The weights a sound oracle returns have exactly d entries and meet the constraints. */
  lemma SoundOracleWeights(oracle: Oracle, p: Program)
    requires SoundOracle(oracle) && oracle(p).Some?
    ensures Admissible(p.constraints, p.scenarios.cols, oracle(p).value.x)
  {
    assert Solves(p, oracle(p).value);
  }

  /** `SampleAverageApproximation`: min_x (1/N)·Σ_i h(x, ξ_i) subject to the constraints. */
  class SampleAverageApproximation {
    var scenarios: Returns
    var N: nat
    var d: nat
    var lossFn: LossFn
    var constraintFn: ConstraintFn
    var solver: string
    /** `x_opt` and `opt_val`; `None` before the first solve and after a failed one. */
    var xOpt: Option<Vec>
    var optVal: Option<real>

    /** The program `solve` builds from the stored fields. */
    function Program(): Program
      reads this
    {
      SaaProgram(scenarios, lossFn, constraintFn)
    }

    constructor (scenarios: Returns, lossFn: Option<LossFn>, constraintFn: Option<ConstraintFn>, solver: string)
      ensures this.scenarios == scenarios && N == |scenarios.rows| && d == scenarios.cols
      ensures lossFn.None? ==> forall x, xi :: this.lossFn(x, xi) == -Dot(xi, x)
      ensures lossFn.Some? ==> this.lossFn == lossFn.value
      ensures this.constraintFn == ConstraintsOrDefault(constraintFn)
      ensures this.solver == solver && xOpt.None? && optVal.None?
    {
      this.scenarios := scenarios;
      N, d := |scenarios.rows|, scenarios.cols;
      if lossFn.None? {
        this.lossFn := DefaultLoss;
      } else {
        this.lossFn := lossFn.value;
      }
      this.constraintFn := ConstraintsOrDefault(constraintFn);
      this.solver := solver;
      xOpt, optVal := None, None;
    }

    /** Builds the program and calls the solver. With no scenarios the
        averaging divides by zero and raises before the solver is called;
        otherwise whatever the solver reports is stored and returned, a
        failure included, since no status is checked. */
    method Solve(oracle: Oracle) returns (r: Result<Option<Solution>, SolveError>)
      requires N == |scenarios.rows| && d == scenarios.cols
      modifies this`xOpt, this`optVal
      ensures N == 0 ==> r == Failure(ZeroScenarios) && xOpt == old(xOpt) && optVal == old(optVal)
      ensures N > 0 ==> r == Success(oracle(Program()))
      ensures N > 0 ==> xOpt == (if r.value.Some? then Some(r.value.value.x) else None)
      ensures N > 0 ==> optVal == (if r.value.Some? then Some(r.value.value.value) else None)
    {
      if N == 0 {
        return Failure(ZeroScenarios);
      }
      var answer := oracle(SaaProgram(scenarios, lossFn, constraintFn));
      if answer.Some? {
        xOpt, optVal := Some(answer.value.x), Some(answer.value.value);
      } else {
        xOpt, optVal := None, None;
      }
      r := Success(answer);
    }
  }

  /** `DistributionallyRobustOptimization`: min_{x, t} t + ε·L subject to the
      constraints on x and t >= h(x, ξ_i) for every scenario i. */
  class DistributionallyRobustOptimization {
    var scenarios: Returns
    var N: nat
    var d: nat
    var epsilon: real
    var lossFn: LossFn
    var constraintFn: ConstraintFn
    var solver: string
    var xOpt: Option<Vec>
    var optVal: Option<real>

    function Program(): Program
      reads this
    {
      DroProgram(scenarios, epsilon, lossFn, constraintFn)
    }

    constructor (scenarios: Returns, epsilon: real, lossFn: LossFn, constraintFn: Option<ConstraintFn>, solver: string)
      ensures this.scenarios == scenarios && N == |scenarios.rows| && d == scenarios.cols
      ensures this.epsilon == epsilon && this.lossFn == lossFn
      ensures this.constraintFn == ConstraintsOrDefault(constraintFn)
      ensures this.solver == solver && xOpt.None? && optVal.None?
    {
      this.scenarios := scenarios;
      N, d := |scenarios.rows|, scenarios.cols;
      this.epsilon := epsilon;
      this.lossFn := lossFn;
      this.constraintFn := ConstraintsOrDefault(constraintFn);
      this.solver := solver;
      xOpt, optVal := None, None;
    }

    /** Builds the epigraph program and stores and returns the solver's answer. */
    method Solve(oracle: Oracle) returns (r: Option<Solution>)
      modifies this`xOpt, this`optVal
      ensures r == oracle(Program())
      ensures xOpt == (if r.Some? then Some(r.value.x) else None)
      ensures optVal == (if r.Some? then Some(r.value.value) else None)
    {
      r := oracle(DroProgram(scenarios, epsilon, lossFn, constraintFn));
      if r.Some? {
        xOpt, optVal := Some(r.value.x), Some(r.value.value);
      } else {
        xOpt, optVal := None, None;
      }
    }
  }
}
