/** Exact arithmetic over `real` standing in for the floating-point
    helpers the sources use: sums, dot products, maxima, means and the
    integer rounding functions of Python's `math` module and `round`. */
module Numeric {

  type Vec = seq<real>

  /** The sum of all entries, accumulated from the front like Python's `sum`. */
  function Sum(s: seq<real>): real
  {
    if s == [] then 0.0 else Sum(s[..|s| - 1]) + s[|s| - 1]
  }

  lemma {:induction false} SumAppend(a: seq<real>, b: seq<real>)
    ensures Sum(a + b) == Sum(a) + Sum(b)
    decreases |b|
  {
    if b == [] {
      assert a + b == a;
    } else {
      assert (a + b)[..|a + b| - 1] == a + b[..|b| - 1];
      SumAppend(a, b[..|b| - 1]);
    }
  }

  /** The inner product of two vectors (numpy's `dot`), over their common prefix. */
  function Dot(a: Vec, b: Vec): real
  {
    if |a| == 0 || |b| == 0 then 0.0 else a[0] * b[0] + Dot(a[1..], b[1..])
  }

  /** The largest entry of a non-empty sequence (Python's `max`). */
  function MaxOf(s: seq<real>): (m: real)
    requires |s| > 0
    ensures m in s
    ensures forall k :: 0 <= k < |s| ==> s[k] <= m
  {
    if |s| == 1 then s[0]
    else
      var rest := MaxOf(s[..|s| - 1]);
      if s[|s| - 1] > rest then s[|s| - 1] else rest
  }

  /** The maximum is at most b exactly when every entry is. */
  lemma MaxAtMostIff(s: seq<real>, b: real)
    requires |s| > 0
    ensures MaxOf(s) <= b <==> forall k :: 0 <= k < |s| ==> s[k] <= b
  {
    var m := MaxOf(s);
    if forall k :: 0 <= k < |s| ==> s[k] <= b {
      var k :| 0 <= k < |s| && s[k] == m;
    }
  }

  /** The arithmetic mean of a non-empty sequence (numpy's `mean`). */
  function Mean(s: seq<real>): real
    requires |s| > 0
  {
    Sum(s) / (|s| as real)
  }

  lemma {:induction false} SumAtMostCountTimesBound(s: seq<real>, b: real)
    requires forall k :: 0 <= k < |s| ==> s[k] <= b
    ensures Sum(s) <= (|s| as real) * b
  {
    if s != [] {
      SumAtMostCountTimesBound(s[..|s| - 1], b);
    }
  }

  /** A mean never exceeds the maximum. */
  lemma MeanAtMostMax(s: seq<real>)
    requires |s| > 0
    ensures Mean(s) <= MaxOf(s)
  {
    MeanAtMostBound(s, MaxOf(s));
  }

  /** A mean is at most any bound on the entries. */
  lemma MeanAtMostBound(s: seq<real>, b: real)
    requires |s| > 0
    requires forall k :: 0 <= k < |s| ==> s[k] <= b
    ensures Mean(s) <= b
  {
    SumAtMostCountTimesBound(s, b);
    DivAtMost(Sum(s), |s| as real, b);
  }

  lemma DivAtMost(a: real, n: real, b: real)
    requires n > 0.0 && a <= n * b
    ensures a / n <= b
  {
    var q := a / n;
    assert q * n == a;
    if q > b {
      MulStrict(q, b, n);
    }
  }

  lemma MulStrict(q: real, b: real, n: real)
    requires q > b && n > 0.0
    ensures q * n > b * n
  {
    assert q * n - b * n == (q - b) * n;
  }

  function Floor(r: real): int { r.Floor }

  /** Python's `math.ceil`. */
  function Ceil(r: real): (c: int)
    ensures c as real >= r && (c as real) - 1.0 < r
  {
    -((-r).Floor)
  }

  /** ceil is floor on integers and floor + 1 elsewhere. */
  lemma CeilFromFloor(r: real)
    ensures Ceil(r) == if r == Floor(r) as real then Floor(r) else Floor(r) + 1
  {
    var f := Floor(r);
    assert f as real <= r < f as real + 1.0;
    var c := Ceil(r);
    if r == f as real {
      assert c as real >= r && c as real - 1.0 < r;
    } else {
      assert c as real >= r && c as real - 1.0 < r;
    }
  }

  function Abs(r: real): real { if r < 0.0 then -r else r }

  function Min(a: real, b: real): real { if a <= b then a else b }

  function Max(a: real, b: real): real { if a >= b then a else b }

  /** Python's built-in `round` for one argument: to the nearest integer,
      and on a tie to the even one. */
  function RoundHalfEven(r: real): (n: int)
    ensures Abs(n as real - r) <= 0.5
    ensures Abs(n as real - r) == 0.5 ==> n % 2 == 0
  {
    var f := r.Floor;
    var frac := r - f as real;
    if frac < 0.5 then f
    else if frac > 0.5 then f + 1
    else if f % 2 == 0 then f
    else f + 1
  }
}
