/** The piecewise-linear cost helpers of `xpress/examples/pwl_transp.py`:
    breakpoints from rate limits, the line through two points, and one
    linear piece per interval between breakpoints. */
module PwlTransp {
  import opened Numeric

  /** Minimum horizontal gap `get_line` accepts. */
  const Eps: real := 0.000001

  /** Breakpoints: 0, every limit in order, then the upper bound. */
  function XValues(limits: seq<real>, maxVal: real): (xs: seq<real>)
    ensures |xs| == |limits| + 2
    ensures xs[0] == 0.0 && xs[|xs| - 1] == maxVal
    ensures forall k :: 0 <= k < |limits| ==> xs[k + 1] == limits[k]
  {
    [0.0] + limits + [maxVal]
  }

  /** Values: 0, then each limit at its own rate, then the upper bound
      at the last rate. */
  function YValues(limits: seq<real>, rates: seq<real>, maxVal: real): (ys: seq<real>)
    requires |limits| + 1 == |rates|
    ensures |ys| == |limits| + 2
    ensures ys[0] == 0.0 && ys[|ys| - 1] == maxVal * rates[|limits|]
    ensures forall k :: 0 <= k < |limits| ==> ys[k + 1] == limits[k] * rates[k]
  {
    [0.0] + seq(|limits|, k requires 0 <= k < |limits| => limits[k] * rates[k]) + [maxVal * rates[|limits|]]
  }

  /** `get_breakpoints`: appends one breakpoint and one value per limit. */
  method GetBreakpoints(limits: seq<real>, rates: seq<real>, maxVal: real) returns (xvals: seq<real>, yvals: seq<real>)
    requires |limits| + 1 == |rates|
    ensures xvals == XValues(limits, maxVal)
    ensures yvals == YValues(limits, rates, maxVal)
  {
    xvals := [0.0];
    yvals := [0.0];
    var n := |limits|;
    for i := 0 to n
      invariant xvals == [0.0] + limits[..i]
      invariant |yvals| == i + 1 && yvals[0] == 0.0
      invariant forall k :: 0 <= k < i ==> yvals[k + 1] == limits[k] * rates[k]
    {
      xvals := xvals + [limits[i]];
      yvals := yvals + [limits[i] * rates[i]];
    }
    assert limits[..n] == limits;
    xvals := xvals + [maxVal];
    yvals := yvals + [maxVal * rates[n]];
    var ys := YValues(limits, rates, maxVal);
    forall k | 0 <= k < |ys| ensures yvals[k] == ys[k] {
      if 0 < k <= n {
        assert yvals[k] == limits[k - 1] * rates[k - 1];
      }
    }
  }

  /** The documented example: limits (500, 1000), rates (1, 2, 3) and
      upper bound 2000 give breakpoints (0, 500, 1000, 2000) and values
      (0, 500, 2000, 6000). The docstring prints the last breakpoint as
      200, a typo for the 2000 the code computes. */
  lemma DocumentedExample()
    ensures XValues([500.0, 1000.0], 2000.0) == [0.0, 500.0, 1000.0, 2000.0]
    ensures YValues([500.0, 1000.0], [1.0, 2.0, 3.0], 2000.0) == [0.0, 500.0, 2000.0, 6000.0]
  {
    var ys := YValues([500.0, 1000.0], [1.0, 2.0, 3.0], 2000.0);
    assert ys[1] == 500.0 && ys[2] == 2000.0 && ys[3] == 6000.0;
  }

  /** A line as (slope, intercept). */
  type Line = (real, real)

  function Eval(line: Line, x: real): real
  {
    line.0 * x + line.1
  }

  /** `get_line`: the line through (x1, y1) and (x2, y2). */
  function GetLine(x1: real, y1: real, x2: real, y2: real): (line: Line)
    requires Abs(x1 - x2) > Eps
    ensures Eval(line, x1) == y1
    ensures Eval(line, x2) == y2
  {
    var slope := (y2 - y1) / (x2 - x1);
    assert slope * (x2 - x1) == y2 - y1;
    assert slope * x2 + (-slope * x1 + y1) == slope * (x2 - x1) + y1;
    (slope, -slope * x1 + y1)
  }

  /** Two points with distinct abscissae lie on exactly one line. */
  lemma LineUnique(x1: real, y1: real, x2: real, y2: real, other: Line)
    requires Abs(x1 - x2) > Eps
    requires Eval(other, x1) == y1 && Eval(other, x2) == y2
    ensures other == GetLine(x1, y1, x2, y2)
  {
    var d := x2 - x1;
    assert d != 0.0;
    assert other.0 * d == y2 - y1;
    assert other.0 == (y2 - y1) / d;
    assert other.1 == y1 - other.0 * x1;
    var line := GetLine(x1, y1, x2, y2);
    assert line.0 == (y2 - y1) / d;
    assert line.1 == -line.0 * x1 + y1;
    assert other.0 == line.0;
    assert -line.0 * x1 == -(other.0 * x1);
    assert other.1 == line.1;
  }

  /** Consecutive breakpoints are more than `Eps` apart, which every
      `get_line` call of `get_pwl_functions` asserts. */
  predicate Separated(xs: seq<real>)
  {
    forall i :: 0 <= i < |xs| - 1 ==> Abs(xs[i] - xs[i + 1]) > Eps
  }

  /** Interval i runs from breakpoint i to breakpoint i + 1, and line i
      takes the given values at both of its ends. */
  predicate PiecesFit(xs: seq<real>, ys: seq<real>, intervals: seq<(real, real)>, functions: seq<Line>)
    requires |xs| == |ys| >= 1
  {
    && |intervals| == |functions| == |xs| - 1
    && (forall i :: 0 <= i < |intervals| ==> intervals[i] == (xs[i], xs[i + 1]))
    && (forall i :: 0 <= i < |functions| ==>
          Eval(functions[i], xs[i]) == ys[i] && Eval(functions[i], xs[i + 1]) == ys[i + 1])
  }

  /** Fitted pieces form a continuous function: each interval starts
      where the previous one ends, and both lines agree there. */
  lemma AdjacentPiecesMeet(xs: seq<real>, ys: seq<real>, intervals: seq<(real, real)>, functions: seq<Line>, i: nat)
    requires |xs| == |ys| >= 1
    requires PiecesFit(xs, ys, intervals, functions)
    requires i + 1 < |functions|
    ensures intervals[i].1 == intervals[i + 1].0
    ensures Eval(functions[i], intervals[i].1) == Eval(functions[i + 1], intervals[i + 1].0)
  {
    assert intervals[i] == (xs[i], xs[i + 1]);
    assert intervals[i + 1] == (xs[i + 1], xs[i + 2]);
  }

  /** `get_pwl_functions`: one interval and one line per pair of
      consecutive breakpoints; each line meets the values at both ends
      of its interval, so neighbouring pieces join. */
  method GetPwlFunctions(limits: seq<real>, rates: seq<real>, maxVal: real)
    returns (intervals: seq<(real, real)>, functions: seq<Line>)
    requires |limits| + 1 == |rates|
    requires Separated(XValues(limits, maxVal))
    ensures PiecesFit(XValues(limits, maxVal), YValues(limits, rates, maxVal), intervals, functions)
  {
    var xvals, yvals := GetBreakpoints(limits, rates, maxVal);
    intervals, functions := FitPieces(xvals, yvals);
  }

  /** The loop of `get_pwl_functions` over consecutive breakpoints. */
  method FitPieces(xvals: seq<real>, yvals: seq<real>) returns (intervals: seq<(real, real)>, functions: seq<Line>)
    requires |xvals| == |yvals| >= 1 && Separated(xvals)
    ensures PiecesFit(xvals, yvals, intervals, functions)
  {
    var n := |xvals| - 1;
    intervals := [];
    functions := [];
    for i := 0 to n
      invariant |intervals| == |functions| == i
      invariant forall k :: 0 <= k < i ==> intervals[k] == (xvals[k], xvals[k + 1])
      invariant forall k :: 0 <= k < i ==>
        Eval(functions[k], xvals[k]) == yvals[k] && Eval(functions[k], xvals[k + 1]) == yvals[k + 1]
    {
      var line := GetLine(xvals[i], yvals[i], xvals[i + 1], yvals[i + 1]);
      intervals := intervals + [(xvals[i], xvals[i + 1])];
      functions := functions + [line];
    }
  }
}
