/** The two helpers of the feasibility-pump prototype
    (`xpress/examples/feas_pump.py`): rounding the discrete coordinates
    of an LP solution and turning row slacks into signed violations. */
module FeasPump {
  import opened Numeric

  /** The rounded copy of `sol`: coordinates listed in `discrete` are
      rounded half-to-even, every other coordinate is kept. */
  function RoundedSol(sol: seq<real>, discrete: seq<int>): (rsol: seq<real>)
    ensures |rsol| == |sol|
    ensures forall k :: 0 <= k < |sol| && k in discrete ==> rsol[k] == RoundHalfEven(sol[k]) as real
    ensures forall k :: 0 <= k < |sol| && k !in discrete ==> rsol[k] == sol[k]
  {
    seq(|sol|, k requires 0 <= k < |sol| => if k in discrete then RoundHalfEven(sol[k]) as real else sol[k])
  }

  /** `getRoundedSol`: copies the list, then rounds the listed
      coordinates of the copy; the argument is left as it was. */
  method GetRoundedSol(sol: array<real>, discrete: seq<int>) returns (rsol: array<real>)
    requires forall t :: 0 <= t < |discrete| ==> 0 <= discrete[t] < sol.Length
    ensures fresh(rsol)
    ensures rsol[..] == RoundedSol(sol[..], discrete)
  {
    rsol := new real[sol.Length](k requires 0 <= k < sol.Length reads sol => sol[k]);
    var t := 0;
    while t < |discrete|
      invariant 0 <= t <= |discrete|
      invariant rsol.Length == sol.Length
      invariant forall k :: 0 <= k < sol.Length ==>
        rsol[k] == if k in discrete[..t] then RoundHalfEven(sol[k]) as real else sol[k]
    {
      var i := discrete[t];
      rsol[i] := RoundHalfEven(sol[i]) as real;
      assert discrete[..t + 1] == discrete[..t] + [i];
      t := t + 1;
    }
    assert discrete[..t] == discrete;
  }

  /** Rounding an integer gives that integer back. */
  lemma RoundIntegral(n: int)
    ensures RoundHalfEven(n as real) == n
  {
  }

  /** Rounding twice rounds once: the rounded coordinates are integral. */
  lemma RoundedSolIdempotent(sol: seq<real>, discrete: seq<int>)
    ensures RoundedSol(RoundedSol(sol, discrete), discrete) == RoundedSol(sol, discrete)
  {
    var once := RoundedSol(sol, discrete);
    var twice := RoundedSol(once, discrete);
    forall k | 0 <= k < |sol| && k in discrete ensures twice[k] == once[k] {
      RoundIntegral(RoundHalfEven(sol[k]));
    }
    assert twice == once;
  }

  /** Each rounded coordinate moves by at most one half. */
  lemma RoundedSolClose(sol: seq<real>, discrete: seq<int>)
    ensures forall k :: 0 <= k < |sol| ==> Abs(RoundedSol(sol, discrete)[k] - sol[k]) <= 0.5
  {
  }

  /** The signed violation of one row: 'L' rows are negated, 'E' rows
      take the absolute value, every other row type keeps its value. */
  function Violation(v: real, rowType: char): (w: real)
    ensures rowType == 'L' ==> w == -v
    ensures rowType == 'E' ==> w == Abs(v) && w >= 0.0
    ensures rowType != 'L' && rowType != 'E' ==> w == v
  {
    if rowType == 'L' then -v
    else if rowType == 'E' then Abs(v)
    else v
  }

  /** The list after `computeViol`: the first m entries replaced by
      their violations, the rest untouched. */
  function Violations(viol: seq<real>, rowType: seq<char>, m: nat): (w: seq<real>)
    requires m <= |viol| && m <= |rowType|
    ensures |w| == |viol|
    ensures forall i :: 0 <= i < m ==> w[i] == Violation(viol[i], rowType[i])
    ensures w[m..] == viol[m..]
  {
    seq(|viol|, i requires 0 <= i < |viol| => if i < m then Violation(viol[i], rowType[i]) else viol[i])
  }

  /** `computeViol`: rewrites the first m entries in place and returns
      their maximum. */
  method ComputeViol(viol: array<real>, rowType: seq<char>, m: nat) returns (worst: real)
    requires 1 <= m <= viol.Length && m <= |rowType|
    modifies viol
    ensures viol[..] == Violations(old(viol[..]), rowType, m)
    ensures worst == MaxOf(viol[..m])
  {
    for i := 0 to m
      invariant forall k :: 0 <= k < i ==> viol[k] == Violation(old(viol[k]), rowType[k])
      invariant forall k :: i <= k < viol.Length ==> viol[k] == old(viol[k])
    {
      if rowType[i] == 'L' {
        viol[i] := -viol[i];
      } else if rowType[i] == 'E' {
        viol[i] := Abs(viol[i]);
      }
    }
    worst := MaxOf(viol[..m]);
  }

  /** The returned maximum is within a tolerance exactly when every one
      of the first m violations is. */
  lemma WorstWithinTolerance(viol: seq<real>, rowType: seq<char>, m: nat, tol: real)
    requires 1 <= m <= |viol| && m <= |rowType|
    ensures MaxOf(Violations(viol, rowType, m)[..m]) <= tol
      <==> forall i :: 0 <= i < m ==> Violation(viol[i], rowType[i]) <= tol
  {
    var w := Violations(viol, rowType, m)[..m];
    MaxAtMostIff(w, tol);
    assert forall i :: 0 <= i < m ==> w[i] == Violation(viol[i], rowType[i]);
  }

  /** An equality row never reports a negative violation, so the worst
      violation is non-negative as soon as one of the rows is 'E'. */
  lemma WorstNonNegativeWithEquality(viol: seq<real>, rowType: seq<char>, m: nat, e: nat)
    requires 1 <= m <= |viol| && m <= |rowType|
    requires e < m && rowType[e] == 'E'
    ensures MaxOf(Violations(viol, rowType, m)[..m]) >= 0.0
  {
    var w := Violations(viol, rowType, m)[..m];
    assert w[e] >= 0.0;
  }
}
