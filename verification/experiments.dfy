/** The experiment driver of `src/experiments.py`: the two pluggable
    losses, the performance-gap sweep `run_experiment`, the weight
    averaging of `weight_convergence` and the chronological 80/20 split
    of the historical data. Data sources are parameters: `Sampler`
    stands for `simulate_returns(m, N, seed)`. */
module Experiments {
  import opened Wrappers
  import opened Numeric
  import opened PortfolioModels

  /** mean_risk_loss: h(x, ξ) = −ξ·x. */
  function MeanRiskLoss(x: Vec, xi: Vec): real
  {
    -Dot(xi, x)
  }

  /** shortfall_loss: h(x, ξ) = max(0, −ξ·x); only losses are penalised. */
  function ShortfallLoss(x: Vec, xi: Vec): (l: real)
    ensures l >= 0.0
    ensures l >= MeanRiskLoss(x, xi)
    ensures l == MeanRiskLoss(x, xi) <==> MeanRiskLoss(x, xi) >= 0.0
    ensures l == 0.0 <==> MeanRiskLoss(x, xi) <= 0.0
  {
    Max(0.0, -Dot(xi, x))
  }

  /** The SAA class's default loss is the mean-risk loss. */
  lemma DefaultLossIsMeanRisk(x: Vec, xi: Vec)
    ensures DefaultLoss(x, xi) == MeanRiskLoss(x, xi)
  {
  }

  /** `simulate_returns(m, N, seed)`: a random-number source, outside the model. */
  type Sampler = (nat, nat, nat) -> Returns

  datatype ExperimentError =
    | ZeroTrainingScenarios  // the SAA average divides by N = 0
    | SolverFailed           // the solver left x.value as None and the driver used it
    | DimensionMismatch      // a weight vector of the wrong length met `dot` or `mean`
    | EmptyMean              // numpy's mean over nothing (the source gets NaN)
    | MissingColumn          // an empty grid gives a frame without the 'OOS_SAA' column

  /** One row of the output table; `pctGain` is None where the division by
      |OOS_SAA| has no finite value. */
  datatype Record = Record(epsilon: real, oosSaa: real, oosDro: real, pctGain: Option<real>)

  function WeightsOf(s: Option<Solution>): Option<Vec>
  {
    if s.Some? then Some(s.value.x) else None
  }

  /** The out-of-sample loss of the weights: the plain mean of −r·x over every
      test row r, whichever loss the weights were optimised for. */
  function OosMean(test: Returns, x: Option<Vec>): (r: Result<real, ExperimentError>)
    ensures |test.rows| == 0 ==> r == Failure(EmptyMean)
    ensures r.Success? <==> |test.rows| > 0 && x.Some? && |x.value| == test.cols
    ensures r.Success? ==> r.value == Mean(Losses(test, MeanRiskLoss, x.value))
  {
    if |test.rows| == 0 then Failure(EmptyMean)
    else if x.None? then Failure(SolverFailed)
    else if |x.value| != test.cols then Failure(DimensionMismatch)
    else Success(Mean(Losses(test, MeanRiskLoss, x.value)))
  }

  /** pct_gain = 100·(OOS_SAA − OOS_DRO)/|OOS_SAA|, undefined when OOS_SAA = 0. */
  function PctGain(oosSaa: real, oosDro: real): (g: Option<real>)
    ensures g.Some? <==> oosSaa != 0.0
    ensures g.Some? ==> (g.value > 0.0 <==> oosDro < oosSaa)
    ensures g.Some? ==> (g.value == 0.0 <==> oosDro == oosSaa)
    ensures g.Some? ==> (g.value < 0.0 <==> oosDro > oosSaa)
  {
    if oosSaa == 0.0 then None
    else
      var diff := oosSaa - oosDro;
      var g := 100.0 * diff / Abs(oosSaa);
      assert g * Abs(oosSaa) == 100.0 * diff;
      Some(g)
  }

  function SaaOf(train: Returns, loss: LossFn): Program
  {
    SaaProgram(train, loss, ConstraintsOrDefault(None))
  }

  function DroOf(train: Returns, epsilon: real, loss: LossFn): Program
  {
    DroProgram(train, epsilon, loss, ConstraintsOrDefault(None))
  }

  /** One iteration of the sweep, before the gain column is added. */
  function ExperimentRow(train: Returns, test: Returns, epsilon: real, loss: LossFn, oracle: Oracle): Result<Record, ExperimentError>
  {
    if |train.rows| == 0 then Failure(ZeroTrainingScenarios)
    else
      var oosSaa :- OosMean(test, WeightsOf(oracle(SaaOf(train, loss))));
      var oosDro :- OosMean(test, WeightsOf(oracle(DroOf(train, epsilon, loss))));
      Success(Record(epsilon, oosSaa, oosDro, None))
  }

  /** The rows of the sweep over a prefix of the grid; the first failure aborts. */
  function ExperimentRows(train: Returns, test: Returns, epsilons: seq<real>, loss: LossFn, oracle: Oracle): Result<seq<Record>, ExperimentError>
  {
    if epsilons == [] then Success([])
    else
      var init :- ExperimentRows(train, test, epsilons[..|epsilons| - 1], loss, oracle);
      var last :- ExperimentRow(train, test, epsilons[|epsilons| - 1], loss, oracle);
      Success(init + [last])
  }

  /** The pct_gain column, computed on the finished table. */
  function WithGains(rows: seq<Record>): (out: seq<Record>)
    ensures |out| == |rows|
    ensures forall k :: 0 <= k < |out| ==>
      out[k] == rows[k].(pctGain := PctGain(rows[k].oosSaa, rows[k].oosDro))
  {
    seq(|rows|, k requires 0 <= k < |rows| => rows[k].(pctGain := PctGain(rows[k].oosSaa, rows[k].oosDro)))
  }

  /** The table `run_experiment` returns, or the error it raises. */
  function ExperimentTable(train: Returns, test: Returns, epsilons: seq<real>, loss: LossFn, oracle: Oracle): (r: Result<seq<Record>, ExperimentError>)
    ensures epsilons == [] ==> r == Failure(MissingColumn)
    ensures r.Success? <==> |epsilons| > 0 && ExperimentRows(train, test, epsilons, loss, oracle).Success?
  {
    var rows :- ExperimentRows(train, test, epsilons, loss, oracle);
    ExperimentRowsShape(train, test, epsilons, loss, oracle);
    if |rows| == 0 then Failure(MissingColumn) else Success(WithGains(rows))
  }

  /** run_experiment: for each ε in the grid, rebuild and solve SAA and DRO on
      the training data and record both out-of-sample losses. */
  method RunExperiment(train: Returns, test: Returns, epsilons: seq<real>, loss: LossFn, oracle: Oracle)
    returns (r: Result<seq<Record>, ExperimentError>)
    ensures r == ExperimentTable(train, test, epsilons, loss, oracle)
  {
    var records: seq<Record> := [];
    var i := 0;
    while i < |epsilons|
      invariant 0 <= i <= |epsilons|
      invariant ExperimentRows(train, test, epsilons[..i], loss, oracle) == Success(records)
    {
      var eps := epsilons[i];
      assert epsilons[..i + 1][..i] == epsilons[..i];
      var saa := new SampleAverageApproximation(train, Some(loss), None, "ECOS");
      var saaResult := saa.Solve(oracle);
      if saaResult.Failure? {
        RowsFailurePersists(train, test, epsilons, i + 1, loss, oracle);
        return Failure(ZeroTrainingScenarios);
      }
      var dro := new DistributionallyRobustOptimization(train, eps, loss, None, "MOSEK");
      var droResult := dro.Solve(oracle);
      var oosSaa := OosMean(test, WeightsOf(saaResult.value));
      if oosSaa.Failure? {
        RowsFailurePersists(train, test, epsilons, i + 1, loss, oracle);
        return Failure(oosSaa.error);
      }
      var oosDro := OosMean(test, WeightsOf(droResult));
      if oosDro.Failure? {
        RowsFailurePersists(train, test, epsilons, i + 1, loss, oracle);
        return Failure(oosDro.error);
      }
      records := records + [Record(eps, oosSaa.value, oosDro.value, None)];
      i := i + 1;
    }
    assert epsilons[..i] == epsilons;
    if |records| == 0 {
      return Failure(MissingColumn);
    }
    r := Success(WithGains(records));
  }

  /** Once a prefix of the grid fails, the whole sweep fails the same way. */
  lemma {:induction false} RowsFailurePersists(train: Returns, test: Returns, epsilons: seq<real>, j: nat, loss: LossFn, oracle: Oracle)
    requires j <= |epsilons|
    requires ExperimentRows(train, test, epsilons[..j], loss, oracle).Failure?
    ensures ExperimentRows(train, test, epsilons, loss, oracle) == ExperimentRows(train, test, epsilons[..j], loss, oracle)
    decreases |epsilons| - j
  {
    if j == |epsilons| {
      assert epsilons[..j] == epsilons;
    } else {
      var init := epsilons[..|epsilons| - 1];
      assert init[..j] == epsilons[..j];
      RowsFailurePersists(train, test, init, j, loss, oracle);
    }
  }

  /** One record per ε, in grid order, each carrying its own ε and its gain;
      the SAA side is the same in every record, since its inputs are. */
  lemma {:induction false} ExperimentRowsShape(train: Returns, test: Returns, epsilons: seq<real>, loss: LossFn, oracle: Oracle)
    requires ExperimentRows(train, test, epsilons, loss, oracle).Success?
    ensures var rows := ExperimentRows(train, test, epsilons, loss, oracle).value;
      && |rows| == |epsilons|
      && (|epsilons| > 0 ==> |train.rows| > 0)
      && forall k :: 0 <= k < |rows| ==>
           && rows[k].epsilon == epsilons[k]
           && OosMean(test, WeightsOf(oracle(SaaOf(train, loss)))) == Success(rows[k].oosSaa)
           && OosMean(test, WeightsOf(oracle(DroOf(train, epsilons[k], loss)))) == Success(rows[k].oosDro)
  {
    if epsilons != [] {
      var init := epsilons[..|epsilons| - 1];
      ExperimentRowsShape(train, test, init, loss, oracle);
    }
  }

  /** The finished table: one record per ε in grid order, every OOS value the
      mean of −r·x over the test rows, the SAA value equal across records,
      and the gain column given by the formula. */
  lemma ExperimentTableShape(train: Returns, test: Returns, epsilons: seq<real>, loss: LossFn, oracle: Oracle)
    requires ExperimentTable(train, test, epsilons, loss, oracle).Success?
    ensures var table := ExperimentTable(train, test, epsilons, loss, oracle).value;
      && |table| == |epsilons| > 0
      && forall k :: 0 <= k < |table| ==>
           && table[k].epsilon == epsilons[k]
           && table[k].oosSaa == table[0].oosSaa
           && WeightsOf(oracle(SaaOf(train, loss))).Some?
           && table[k].oosSaa == Mean(Losses(test, MeanRiskLoss, WeightsOf(oracle(SaaOf(train, loss))).value))
           && WeightsOf(oracle(DroOf(train, epsilons[k], loss))).Some?
           && table[k].oosDro == Mean(Losses(test, MeanRiskLoss, WeightsOf(oracle(DroOf(train, epsilons[k], loss))).value))
           && table[k].pctGain == PctGain(table[k].oosSaa, table[k].oosDro)
  {
    ExperimentRowsShape(train, test, epsilons, loss, oracle);
  }

  /** The sweep succeeds exactly when there is training data, test data, and
      every solve answers with a vector as long as a test row. */
  lemma {:induction false} ExperimentRowsSucceed(train: Returns, test: Returns, epsilons: seq<real>, loss: LossFn, oracle: Oracle)
    requires |epsilons| > 0
    ensures ExperimentRows(train, test, epsilons, loss, oracle).Success? <==>
      && |train.rows| > 0 && |test.rows| > 0
      && WeightsOf(oracle(SaaOf(train, loss))).Some?
      && |WeightsOf(oracle(SaaOf(train, loss))).value| == test.cols
      && forall k :: 0 <= k < |epsilons| ==>
           && WeightsOf(oracle(DroOf(train, epsilons[k], loss))).Some?
           && |WeightsOf(oracle(DroOf(train, epsilons[k], loss))).value| == test.cols
  {
    var init := epsilons[..|epsilons| - 1];
    var last := epsilons[|epsilons| - 1];
    RowsStep(train, test, epsilons, loss, oracle);
    RowSucceeds(train, test, last, loss, oracle);
    if |init| > 0 {
      ExperimentRowsSucceed(train, test, init, loss, oracle);
    }
    assert forall k :: 0 <= k < |init| ==> init[k] == epsilons[k];
  }

  /** The sweep over a nonempty grid succeeds when the sweep over all but
      the last ε and the row for the last ε both do. */
  lemma RowsStep(train: Returns, test: Returns, epsilons: seq<real>, loss: LossFn, oracle: Oracle)
    requires |epsilons| > 0
    ensures ExperimentRows(train, test, epsilons, loss, oracle).Success? <==>
      ExperimentRows(train, test, epsilons[..|epsilons| - 1], loss, oracle).Success?
      && ExperimentRow(train, test, epsilons[|epsilons| - 1], loss, oracle).Success?
  {
  }

  /** One row succeeds when there are training and test data and both
      solves answer with a vector as long as a test row. */
  lemma RowSucceeds(train: Returns, test: Returns, epsilon: real, loss: LossFn, oracle: Oracle)
    ensures ExperimentRow(train, test, epsilon, loss, oracle).Success? <==>
      && |train.rows| > 0 && |test.rows| > 0
      && WeightsOf(oracle(SaaOf(train, loss))).Some?
      && |WeightsOf(oracle(SaaOf(train, loss))).value| == test.cols
      && WeightsOf(oracle(DroOf(train, epsilon, loss))).Some?
      && |WeightsOf(oracle(DroOf(train, epsilon, loss))).value| == test.cols
  {
  }

  /** The column-wise mean of equal-length vectors (numpy's mean over axis 0). */
  function ColumnMeans(ws: seq<Vec>, m: nat): (avg: Vec)
    requires |ws| > 0
    requires forall r :: 0 <= r < |ws| ==> |ws[r]| == m
    ensures |avg| == m
    ensures forall j :: 0 <= j < m ==> avg[j] == Sum(Column(ws, j)) / (|ws| as real)
  {
    seq(m, j requires 0 <= j < m => Sum(Column(ws, j)) / (|ws| as real))
  }

  /** The j-th entries of all vectors that have one. */
  function Column(ws: seq<Vec>, j: nat): (col: seq<real>)
    ensures |col| == |ws|
  {
    seq(|ws|, r requires 0 <= r < |ws| => if j < |ws[r]| then ws[r][j] else 0.0)
  }

  /** The averaging step `np.mean(ws, axis=0)` applied to the solver answers. */
  function AverageWeights(ws: seq<Option<Vec>>, m: nat): (r: Result<Vec, ExperimentError>)
    ensures r.Success? <==> |ws| > 0 && forall k :: 0 <= k < |ws| ==> ws[k].Some? && |ws[k].value| == m
  {
    if |ws| == 0 then Failure(EmptyMean)
    else if exists k :: 0 <= k < |ws| && ws[k].None? then Failure(SolverFailed)
    else
      var vs := seq(|ws|, k requires 0 <= k < |ws| => ws[k].value);
      assert forall k :: 0 <= k < |ws| ==> vs[k] == ws[k].value;
      if exists k :: 0 <= k < |vs| && |vs[k]| != m then Failure(DimensionMismatch)
      else Success(ColumnMeans(vs, m))
  }

  /** The DRO weights of the `runs` independent samples for one (N, ε). */
  function RunWeights(n: nat, epsilon: real, runs: nat, m: nat, simulate: Sampler, oracle: Oracle): (ws: seq<Option<Vec>>)
    ensures |ws| == runs
    ensures forall r :: 0 <= r < runs ==>
      ws[r] == WeightsOf(oracle(DroOf(simulate(m, n, r), epsilon, MeanRiskLoss)))
  {
    seq(runs, r requires 0 <= r < runs => WeightsOf(oracle(DroOf(simulate(m, n, r), epsilon, MeanRiskLoss))))
  }

  /** The table avg for one N: row i averages the weights for ε_i. */
  function WeightTable(n: nat, epsilons: seq<real>, runs: nat, m: nat, simulate: Sampler, oracle: Oracle): Result<seq<Vec>, ExperimentError>
  {
    if epsilons == [] then Success([])
    else
      var init :- WeightTable(n, epsilons[..|epsilons| - 1], runs, m, simulate, oracle);
      var row :- AverageWeights(RunWeights(n, epsilons[|epsilons| - 1], runs, m, simulate, oracle), m);
      Success(init + [row])
  }

  /** The dictionary `weight_convergence` returns, keyed by sample size. */
  function WeightResults(ns: seq<nat>, epsilons: seq<real>, runs: nat, m: nat, simulate: Sampler, oracle: Oracle): Result<map<nat, seq<Vec>>, ExperimentError>
  {
    if ns == [] then Success(map[])
    else
      var init :- WeightResults(ns[..|ns| - 1], epsilons, runs, m, simulate, oracle);
      var table :- WeightTable(ns[|ns| - 1], epsilons, runs, m, simulate, oracle);
      Success(init[ns[|ns| - 1] := table])
  }

  /** weight_convergence: for every N and ε, average the DRO weights of `runs`
      fresh samples; avg is a len(epsilons)×m table filled row by row. */
  method WeightConvergence(ns: seq<nat>, epsilons: seq<real>, runs: nat, m: nat, simulate: Sampler, oracle: Oracle)
    returns (r: Result<map<nat, seq<Vec>>, ExperimentError>)
    ensures r == WeightResults(ns, epsilons, runs, m, simulate, oracle)
  {
    var results: map<nat, seq<Vec>> := map[];
    var a := 0;
    while a < |ns|
      invariant 0 <= a <= |ns|
      invariant WeightResults(ns[..a], epsilons, runs, m, simulate, oracle) == Success(results)
    {
      assert ns[..a + 1][..a] == ns[..a];
      var n := ns[a];
      var table := WeightTableFor(n, epsilons, runs, m, simulate, oracle);
      if table.Failure? {
        assert WeightResults(ns[..a + 1], epsilons, runs, m, simulate, oracle) == Failure(table.error);
        ResultsFailurePersists(ns, a + 1, epsilons, runs, m, simulate, oracle);
        return Failure(table.error);
      }
      results := results[n := table.value];
      a := a + 1;
    }
    assert ns[..a] == ns;
    r := Success(results);
  }

  /** The loop over ε for one N: fill avg row by row; a failed average
      aborts the experiment. */
  method WeightTableFor(n: nat, epsilons: seq<real>, runs: nat, m: nat, simulate: Sampler, oracle: Oracle)
    returns (r: Result<seq<Vec>, ExperimentError>)
    ensures r == WeightTable(n, epsilons, runs, m, simulate, oracle)
  {
    var avg: seq<Vec> := seq(|epsilons|, _ => seq(m, _ => 0.0));
    var i := 0;
    while i < |epsilons|
      invariant 0 <= i <= |epsilons| && |avg| == |epsilons|
      invariant WeightTable(n, epsilons[..i], runs, m, simulate, oracle) == Success(avg[..i])
    {
      assert epsilons[..i + 1][..i] == epsilons[..i];
      var ws := SampleWeights(n, epsilons[i], runs, m, simulate, oracle);
      var row := AverageWeights(ws, m);
      if row.Failure? {
        TableFailurePersists(n, epsilons, i + 1, runs, m, simulate, oracle);
        return Failure(row.error);
      }
      avg := avg[i := row.value];
      assert avg[..i + 1] == avg[..i] + [row.value];
      i := i + 1;
    }
    assert epsilons[..i] == epsilons && avg[..i] == avg;
    r := Success(avg);
  }

  /** The loop over the `runs` samples for one (N, ε): simulate, build
      and solve the DRO problem, keep its weights. */
  method SampleWeights(n: nat, eps: real, runs: nat, m: nat, simulate: Sampler, oracle: Oracle)
    returns (ws: seq<Option<Vec>>)
    ensures ws == RunWeights(n, eps, runs, m, simulate, oracle)
  {
    ws := [];
    var k := 0;
    while k < runs
      invariant 0 <= k <= runs
      invariant ws == RunWeights(n, eps, runs, m, simulate, oracle)[..k]
    {
      var data := simulate(m, n, k);
      var dro := new DistributionallyRobustOptimization(data, eps, MeanRiskLoss, None, "MOSEK");
      var sol := dro.Solve(oracle);
      ws := ws + [WeightsOf(sol)];
      k := k + 1;
    }
  }

  lemma {:induction false} TableFailurePersists(n: nat, epsilons: seq<real>, j: nat, runs: nat, m: nat, simulate: Sampler, oracle: Oracle)
    requires j <= |epsilons|
    requires WeightTable(n, epsilons[..j], runs, m, simulate, oracle).Failure?
    ensures WeightTable(n, epsilons, runs, m, simulate, oracle) == WeightTable(n, epsilons[..j], runs, m, simulate, oracle)
    decreases |epsilons| - j
  {
    if j == |epsilons| {
      assert epsilons[..j] == epsilons;
    } else {
      var init := epsilons[..|epsilons| - 1];
      assert init[..j] == epsilons[..j];
      TableFailurePersists(n, init, j, runs, m, simulate, oracle);
    }
  }

  lemma {:induction false} ResultsFailurePersists(ns: seq<nat>, j: nat, epsilons: seq<real>, runs: nat, m: nat, simulate: Sampler, oracle: Oracle)
    requires j <= |ns|
    requires WeightResults(ns[..j], epsilons, runs, m, simulate, oracle).Failure?
    ensures WeightResults(ns, epsilons, runs, m, simulate, oracle) == WeightResults(ns[..j], epsilons, runs, m, simulate, oracle)
    decreases |ns| - j
  {
    if j == |ns| {
      assert ns[..j] == ns;
    } else {
      var init := ns[..|ns| - 1];
      assert init[..j] == ns[..j];
      ResultsFailurePersists(init, j, epsilons, runs, m, simulate, oracle);
    }
  }

  /** One entry per sample size; each entry has one row of m weights per ε,
      and row i is the column-wise mean of the `runs` DRO weights for ε_i. */
  lemma {:induction false} WeightTableShape(n: nat, epsilons: seq<real>, runs: nat, m: nat, simulate: Sampler, oracle: Oracle)
    requires WeightTable(n, epsilons, runs, m, simulate, oracle).Success?
    ensures var avg := WeightTable(n, epsilons, runs, m, simulate, oracle).value;
      && |avg| == |epsilons|
      && forall i :: 0 <= i < |avg| ==>
           AverageWeights(RunWeights(n, epsilons[i], runs, m, simulate, oracle), m) == Success(avg[i])
  {
    if epsilons != [] {
      WeightTableShape(n, epsilons[..|epsilons| - 1], runs, m, simulate, oracle);
    }
  }

  lemma {:induction false} WeightResultsKeys(ns: seq<nat>, epsilons: seq<real>, runs: nat, m: nat, simulate: Sampler, oracle: Oracle)
    requires WeightResults(ns, epsilons, runs, m, simulate, oracle).Success?
    ensures var res := WeightResults(ns, epsilons, runs, m, simulate, oracle).value;
      && res.Keys == (set k | 0 <= k < |ns| :: ns[k])
      && forall n :: n in res ==> WeightTable(n, epsilons, runs, m, simulate, oracle) == Success(res[n])
  {
    if ns != [] {
      var init := ns[..|ns| - 1];
      WeightResultsKeys(init, epsilons, runs, m, simulate, oracle);
      var res := WeightResults(ns, epsilons, runs, m, simulate, oracle).value;
      assert res.Keys == (set k | 0 <= k < |init| :: init[k]) + {ns[|ns| - 1]};
    }
  }

  /** The sum of each of the first m columns. */
  function ColumnSums(ws: seq<Vec>, m: nat): (c: seq<real>)
    ensures |c| == m && forall j :: 0 <= j < m ==> c[j] == Sum(Column(ws, j))
  {
    seq(m, j requires 0 <= j < m => Sum(Column(ws, j)))
  }

  /** The sum of each row. */
  function RowSums(ws: seq<Vec>): (c: seq<real>)
    ensures |c| == |ws| && forall r :: 0 <= r < |ws| ==> c[r] == Sum(ws[r])
  {
    seq(|ws|, r requires 0 <= r < |ws| => Sum(ws[r]))
  }

  /** Σ_j Column(ws, j) summed over j < m equals Σ_r Sum(ws[r]). */
  lemma {:induction false} SumOfColumnSums(ws: seq<Vec>, m: nat)
    requires forall r :: 0 <= r < |ws| ==> |ws[r]| == m
    ensures Sum(ColumnSums(ws, m)) == Sum(RowSums(ws))
    decreases |ws|
  {
    var lhs := ColumnSums(ws, m);
    if ws == [] {
      forall j | 0 <= j < m ensures lhs[j] == 0.0 {
        assert Column(ws, j) == [];
      }
      ZeroSum(lhs);
    } else {
      var init := ws[..|ws| - 1];
      var last := ws[|ws| - 1];
      SumOfColumnSums(init, m);
      var initLhs := ColumnSums(init, m);
      forall j | 0 <= j < m ensures lhs[j] == initLhs[j] + last[j] {
        var col := Column(ws, j);
        assert col[..|ws| - 1] == Column(init, j);
      }
      SumPointwiseAdd(lhs, initLhs, last);
      var rows := RowSums(ws);
      assert rows[..|ws| - 1] == RowSums(init);
      assert Sum(rows) == Sum(RowSums(init)) + Sum(last);
    }
  }

  lemma {:induction false} ZeroSum(s: seq<real>)
    requires forall k :: 0 <= k < |s| ==> s[k] == 0.0
    ensures Sum(s) == 0.0
  {
    if s != [] {
      ZeroSum(s[..|s| - 1]);
    }
  }

  lemma {:induction false} SumPointwiseAdd(s: seq<real>, a: seq<real>, b: seq<real>)
    requires |s| == |a| == |b|
    requires forall k :: 0 <= k < |s| ==> s[k] == a[k] + b[k]
    ensures Sum(s) == Sum(a) + Sum(b)
  {
    if s != [] {
      var n := |s| - 1;
      SumPointwiseAdd(s[..n], a[..n], b[..n]);
    }
  }

  lemma {:induction false} SumScale(s: seq<real>, a: seq<real>, c: real)
    requires |s| == |a| && c != 0.0
    requires forall k :: 0 <= k < |s| ==> s[k] == a[k] / c
    ensures Sum(s) == Sum(a) / c
  {
    if s != [] {
      var n := |s| - 1;
      SumScale(s[..n], a[..n], c);
      assert Sum(s) == Sum(a[..n]) / c + a[n] / c;
    }
  }

  lemma {:induction false} SumOfOnes(s: seq<real>)
    requires forall k :: 0 <= k < |s| ==> s[k] == 1.0
    ensures Sum(s) == |s| as real
  {
    if s != [] {
      SumOfOnes(s[..|s| - 1]);
    }
  }

  lemma {:induction false} SumNonNegative(s: seq<real>)
    requires forall k :: 0 <= k < |s| ==> s[k] >= 0.0
    ensures Sum(s) >= 0.0
  {
    if s != [] {
      SumNonNegative(s[..|s| - 1]);
    }
  }

  /** Means of non-negative columns are non-negative. */
  lemma AverageNonNegative(ws: seq<Vec>, m: nat)
    requires |ws| > 0
    requires forall r :: 0 <= r < |ws| ==> |ws[r]| == m && forall j :: 0 <= j < m ==> ws[r][j] >= 0.0
    ensures forall j :: 0 <= j < m ==> ColumnMeans(ws, m)[j] >= 0.0
  {
    var avg := ColumnMeans(ws, m);
    forall j | 0 <= j < m ensures avg[j] >= 0.0 {
      var col := Column(ws, j);
      forall r | 0 <= r < |col| ensures col[r] >= 0.0 {
        assert col[r] == ws[r][j];
      }
      SumNonNegative(col);
    }
  }

  /** When every row sums to one, the column sums add up to the number of rows. */
  lemma ColumnSumsTotal(ws: seq<Vec>, m: nat)
    requires forall r :: 0 <= r < |ws| ==> |ws[r]| == m && Sum(ws[r]) == 1.0
    ensures Sum(ColumnSums(ws, m)) == |ws| as real
  {
    var rowSums := RowSums(ws);
    SumOfColumnSums(ws, m);
    SumOfOnes(rowSums);
  }

  /** When every row sums to one, the column means sum to one. */
  lemma AverageSumsToOne(ws: seq<Vec>, m: nat)
    requires |ws| > 0
    requires forall r :: 0 <= r < |ws| ==> |ws[r]| == m && Sum(ws[r]) == 1.0
    ensures Sum(ColumnMeans(ws, m)) == 1.0
  {
    var avg := ColumnMeans(ws, m);
    var n := |ws| as real;
    var colSums := ColumnSums(ws, m);
    SumScale(avg, colSums, n);
    ColumnSumsTotal(ws, m);
    DivideBySelf(Sum(colSums), n);
  }

  lemma DivideBySelf(a: real, n: real)
    requires a == n && n != 0.0
    ensures a / n == 1.0
  {
  }

  /** If every averaged vector lies on the simplex, so does their mean. */
  lemma AverageOnSimplex(ws: seq<Vec>, m: nat)
    requires |ws| > 0
    requires forall r :: 0 <= r < |ws| ==> |ws[r]| == m && SimplexConstraints(ws[r])
    ensures SimplexConstraints(ColumnMeans(ws, m))
  {
    AverageNonNegative(ws, m);
    AverageSumsToOne(ws, m);
  }

  /** With a sound solver every averaged row of every table lies on the simplex. */
  lemma WeightRowsOnSimplex(n: nat, epsilons: seq<real>, runs: nat, m: nat, simulate: Sampler, oracle: Oracle)
    requires SoundOracle(oracle)
    requires WeightTable(n, epsilons, runs, m, simulate, oracle).Success?
    ensures |WeightTable(n, epsilons, runs, m, simulate, oracle).value| == |epsilons|
    ensures forall i :: 0 <= i < |epsilons| ==>
      SimplexConstraints(WeightTable(n, epsilons, runs, m, simulate, oracle).value[i])
  {
    var avg := WeightTable(n, epsilons, runs, m, simulate, oracle).value;
    WeightTableShape(n, epsilons, runs, m, simulate, oracle);
    forall i | 0 <= i < |epsilons| ensures SimplexConstraints(avg[i]) {
      var ws := RunWeights(n, epsilons[i], runs, m, simulate, oracle);
      var vs := seq(|ws|, k requires 0 <= k < |ws| => ws[k].value);
      forall k | 0 <= k < |vs| ensures SimplexConstraints(vs[k]) {
        SoundOracleWeights(oracle, DroOf(simulate(m, n, k), epsilons[i], MeanRiskLoss));
      }
      AverageOnSimplex(vs, m);
    }
  }

  /** int(0.8·n): the number of leading rows used for training. */
  function SplitIndex(n: nat): (k: nat)
    ensures k <= n
    ensures 5 * k <= 4 * n < 5 * k + 5
    ensures n >= 1 ==> k < n
  {
    (4 * n) / 5
  }

  /** The chronological split data[:split], data[split:]. */
  function HistoricalSplit(data: Returns): (split: (Returns, Returns))
    ensures split.0.rows + split.1.rows == data.rows
    ensures |split.0.rows| == SplitIndex(|data.rows|)
    ensures split.0.cols == data.cols && split.1.cols == data.cols
    ensures |data.rows| >= 1 ==> |split.1.rows| >= 1
  {
    var k := SplitIndex(|data.rows|);
    assert data.rows[..k] + data.rows[k..] == data.rows;
    (Matrix(data.rows[..k], data.cols), Matrix(data.rows[k..], data.cols))
  }
}
