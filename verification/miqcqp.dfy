/** The bound and type bookkeeping of the nonconvex MIQCQP solver in
    `xpress/examples/miqcqp_solver.py`. Every product x_i·x_j of the
    quadratic part is replaced by an auxiliary column y_ij whose bounds
    come from interval arithmetic and whose type follows its factors;
    McCormick inequalities tie y_ij to its factors, and the solution
    check refuses a solution where some y_ij drifts from x_i·x_j. */
module MiqcqpSolver {
  import opened Wrappers
  import opened Numeric

  /** `xp.infinity`, the Xpress value for an infinite bound. */
  const Infinity: real := 100000000000000000000.0
  /** The cap `bigU` put on auxiliary bounds. */
  const BigU: real := 100000000.0
  /** The artificial bound `art_bound` replacing infinite bounds. */
  const ArtBound: real := 100000.0
  /** The tolerance `eps` of the solution check. */
  const Tol: real := 0.00001

  // ---------------------------------------------------------------
  // Interval products
  // ---------------------------------------------------------------

  function Min4(a: real, b: real, c: real, d: real): real { Min(Min(a, b), Min(c, d)) }

  function Max4(a: real, b: real, c: real, d: real): real { Max(Max(a, b), Max(c, d)) }

  /** Smallest and largest of the four corner products of the box. */
  function CornerMin(lb1: real, ub1: real, lb2: real, ub2: real): real
  {
    Min4(lb1 * lb2, lb1 * ub2, ub1 * lb2, ub1 * ub2)
  }

  function CornerMax(lb1: real, ub1: real, lb2: real, ub2: real): real
  {
    Max4(lb1 * lb2, lb1 * ub2, ub1 * lb2, ub1 * ub2)
  }

  /** Multiplying by a fixed factor keeps the order of a non-negative
      factor and reverses it for a non-positive one. */
  lemma MulMono(c: real, a: real, b: real)
    requires a <= b
    ensures c >= 0.0 ==> c * a <= c * b
    ensures c <= 0.0 ==> c * a >= c * b
  {
    assert c * b - c * a == c * (b - a);
    if c >= 0.0 {
      SameSignProduct(c, b - a);
    } else {
      OppositeSignProduct(b - a, c);
    }
  }

  lemma SameSignProduct(p: real, q: real)
    requires (p >= 0.0 && q >= 0.0) || (p <= 0.0 && q <= 0.0)
    ensures p * q >= 0.0
  {
    if p <= 0.0 && q <= 0.0 {
      assert p * q == (-p) * (-q);
    }
  }

  lemma OppositeSignProduct(p: real, q: real)
    requires p >= 0.0 && q <= 0.0
    ensures p * q <= 0.0
  {
    assert p * q == -(p * (-q));
  }

  /** (x - a)(y - b) multiplied out. */
  lemma Expand(x: real, y: real, a: real, b: real)
    ensures (x - a) * (y - b) == x * y - b * x - a * y + a * b
  {
  }

  /** Squares grow with the distance from zero. */
  lemma SquareMono(a: real, b: real)
    requires 0.0 <= a <= b
    ensures a * a <= b * b
  {
    MulMono(a, a, b);
    MulMono(b, a, b);
    assert a * b == b * a;
  }

  /** How corner products p11 = lb1·lb2, p12 = lb1·ub2, p21 = ub1·lb2 and
      p22 = ub1·ub2 compare when they share a factor: the order of the
      other factor's bounds, kept or reversed by the shared factor's sign. */
  predicate Ordered(lb1: real, ub1: real, lb2: real, ub2: real, p11: real, p12: real, p21: real, p22: real)
  {
    && (lb1 >= 0.0 ==> p11 <= p12) && (lb1 <= 0.0 ==> p11 >= p12)
    && (ub1 >= 0.0 ==> p21 <= p22) && (ub1 <= 0.0 ==> p21 >= p22)
    && (lb2 >= 0.0 ==> p11 <= p21) && (lb2 <= 0.0 ==> p11 >= p21)
    && (ub2 >= 0.0 ==> p12 <= p22) && (ub2 <= 0.0 ==> p12 >= p22)
  }

  lemma CornerOrder(lb1: real, ub1: real, lb2: real, ub2: real)
    requires lb1 <= ub1 && lb2 <= ub2
    ensures Ordered(lb1, ub1, lb2, ub2, lb1 * lb2, lb1 * ub2, ub1 * lb2, ub1 * ub2)
  {
    MulMono(lb1, lb2, ub2);
    MulMono(ub1, lb2, ub2);
    MulMono(lb2, lb1, ub1);
    MulMono(ub2, lb1, ub1);
    assert lb2 * lb1 == lb1 * lb2 && lb2 * ub1 == ub1 * lb2;
    assert ub2 * lb1 == lb1 * ub2 && ub2 * ub1 == ub1 * ub2;
  }

  /** l and u are the smallest and the largest of the four corners. */
  predicate Extremes(p11: real, p12: real, p21: real, p22: real, l: real, u: real)
  {
    l == Min4(p11, p12, p21, p22) && u == Max4(p11, p12, p21, p22)
  }

  lemma CaseFirstNonNegative(lb1: real, ub1: real, lb2: real, ub2: real, p11: real, p12: real, p21: real, p22: real)
    requires lb1 <= ub1 && lb2 <= ub2 && lb1 >= 0.0
    requires Ordered(lb1, ub1, lb2, ub2, p11, p12, p21, p22)
    ensures lb2 >= 0.0 ==> Extremes(p11, p12, p21, p22, p11, p22)
    ensures lb2 < 0.0 && ub2 >= 0.0 ==> Extremes(p11, p12, p21, p22, p21, p22)
    ensures ub2 < 0.0 ==> Extremes(p11, p12, p21, p22, p21, p12)
  {
  }

  lemma CaseSecondNonNegative(lb1: real, ub1: real, lb2: real, ub2: real, p11: real, p12: real, p21: real, p22: real)
    requires lb1 <= ub1 && lb2 <= ub2 && lb1 < 0.0 && lb2 >= 0.0
    requires Ordered(lb1, ub1, lb2, ub2, p11, p12, p21, p22)
    ensures ub1 >= 0.0 ==> Extremes(p11, p12, p21, p22, p12, p22)
    ensures ub1 < 0.0 ==> Extremes(p11, p12, p21, p22, p12, p21)
  {
  }

  lemma CaseBothNegativeLower(lb1: real, ub1: real, lb2: real, ub2: real, p11: real, p12: real, p21: real, p22: real)
    requires lb1 <= ub1 && lb2 <= ub2 && lb1 < 0.0 && lb2 < 0.0
    requires Ordered(lb1, ub1, lb2, ub2, p11, p12, p21, p22)
    ensures ub1 <= 0.0 && ub2 <= 0.0 ==> Extremes(p11, p12, p21, p22, p22, p11)
    ensures ub1 <= 0.0 && ub2 > 0.0 ==> Extremes(p11, p12, p21, p22, p12, p11)
    ensures ub1 > 0.0 && ub2 <= 0.0 ==> Extremes(p11, p12, p21, p22, p21, p11)
  {
  }

  lemma CaseStraddling(lb1: real, ub1: real, lb2: real, ub2: real, p11: real, p12: real, p21: real, p22: real)
    requires lb1 < 0.0 < ub1 && lb2 < 0.0 < ub2
    requires Ordered(lb1, ub1, lb2, ub2, p11, p12, p21, p22)
    ensures Extremes(p11, p12, p21, p22, Min(p12, p21), Max(p11, p22))
  {
  }

  /** The sign case analysis of `bdprod` before clamping; in every case
      it finds the smallest and the largest corner product. */
  function RawBdProd(lb1: real, ub1: real, lb2: real, ub2: real): (b: (real, real))
    requires lb1 <= ub1 && lb2 <= ub2
    ensures b.0 == CornerMin(lb1, ub1, lb2, ub2) && b.1 == CornerMax(lb1, ub1, lb2, ub2)
  {
    var p11, p12, p21, p22 := lb1 * lb2, lb1 * ub2, ub1 * lb2, ub1 * ub2;
    CornerOrder(lb1, ub1, lb2, ub2);
    if lb1 >= 0.0 then
      CaseFirstNonNegative(lb1, ub1, lb2, ub2, p11, p12, p21, p22);
      if lb2 >= 0.0 then (p11, p22)
      else if ub2 >= 0.0 then (p21, p22)
      else (p21, p12)
    else if lb2 >= 0.0 then
      CaseSecondNonNegative(lb1, ub1, lb2, ub2, p11, p12, p21, p22);
      if ub1 >= 0.0 then (p12, p22) else (p12, p21)
    else if ub1 <= 0.0 || ub2 <= 0.0 then
      CaseBothNegativeLower(lb1, ub1, lb2, ub2, p11, p12, p21, p22);
      if ub1 <= 0.0 && ub2 <= 0.0 then (p22, p11)
      else if ub1 <= 0.0 then (p12, p11)
      else (p21, p11)
    else
      CaseStraddling(lb1, ub1, lb2, ub2, p11, p12, p21, p22);
      (Min(p12, p21), Max(p11, p22))
  }

  /** `bdprod`: the corner bounds clamped to [-infinity, infinity]. */
  function BdProd(lb1: real, ub1: real, lb2: real, ub2: real): (b: (real, real))
    requires lb1 <= ub1 && lb2 <= ub2
    ensures b.0 == Max(-Infinity, CornerMin(lb1, ub1, lb2, ub2))
    ensures b.1 == Min(Infinity, CornerMax(lb1, ub1, lb2, ub2))
  {
    var raw := RawBdProd(lb1, ub1, lb2, ub2);
    (Max(-Infinity, raw.0), Min(Infinity, raw.1))
  }

  /** x·c lies between the products of c with the ends of x's interval. */
  lemma ScaleBetween(lo: real, x: real, hi: real, c: real)
    requires lo <= x <= hi
    ensures Min(lo * c, hi * c) <= x * c <= Max(lo * c, hi * c)
  {
    MulMono(c, lo, x);
    MulMono(c, x, hi);
    assert c * lo == lo * c && c * x == x * c && c * hi == hi * c;
  }

  /** v lies in the closed interval b. */
  predicate Within(b: (real, real), v: real)
  {
    b.0 <= v <= b.1
  }

  /** Every product of a point of the box lies between the extreme
      corner products. */
  lemma ProductInCorners(lb1: real, ub1: real, lb2: real, ub2: real, a: real, b: real)
    requires lb1 <= a <= ub1 && lb2 <= b <= ub2
    ensures CornerMin(lb1, ub1, lb2, ub2) <= a * b <= CornerMax(lb1, ub1, lb2, ub2)
  {
    ScaleBetween(lb2, b, ub2, a);
    assert b * a == a * b && lb2 * a == a * lb2 && ub2 * a == a * ub2;
    ScaleBetween(lb1, a, ub1, lb2);
    ScaleBetween(lb1, a, ub1, ub2);
  }

  /** `bdprod` encloses every finite product of the box, and each of its
      unclamped bounds is attained at a corner. */
  lemma BdProdEncloses(lb1: real, ub1: real, lb2: real, ub2: real, a: real, b: real)
    requires lb1 <= a <= ub1 && lb2 <= b <= ub2
    requires -Infinity <= a * b <= Infinity
    ensures Within(BdProd(lb1, ub1, lb2, ub2), a * b)
  {
    ProductInCorners(lb1, ub1, lb2, ub2, a, b);
  }

  // ---------------------------------------------------------------
  // Square terms
  // ---------------------------------------------------------------

  /** Bounds of x^2 over [lb, ub] as `addaux` computes them for i == j. */
  function SquareBounds(lb: real, ub: real): (b: (real, real))
    ensures lb >= 0.0 ==> b == (lb * lb, ub * ub)
    ensures lb < 0.0 && ub <= 0.0 ==> b == (ub * ub, lb * lb)
    ensures lb < 0.0 && ub > 0.0 ==> b == (0.0, Max(lb * lb, ub * ub))
  {
    if lb >= 0.0 then (lb * lb, ub * ub)
    else if ub <= 0.0 then (ub * ub, lb * lb)
    else (0.0, Max(lb * lb, ub * ub))
  }

  /** The square bounds enclose x^2 for every x in [lb, ub]. */
  lemma SquareBoundsEnclose(lb: real, ub: real, x: real)
    requires lb <= x <= ub
    ensures Within(SquareBounds(lb, ub), x * x)
  {
    if lb >= 0.0 {
      SquareMono(lb, x);
      SquareMono(x, ub);
    } else if ub <= 0.0 {
      SquareMono(-ub, -x);
      SquareMono(-x, -lb);
      assert (-ub) * (-ub) == ub * ub && (-x) * (-x) == x * x && (-lb) * (-lb) == lb * lb;
    } else if x >= 0.0 {
      SquareMono(0.0, x);
      SquareMono(x, ub);
    } else {
      SquareMono(0.0, -x);
      SquareMono(-x, -lb);
      assert (-x) * (-x) == x * x && (-lb) * (-lb) == lb * lb;
    }
  }

  /** The square bounds are tight: on a non-empty interval both are
      attained. */
  lemma SquareBoundsTight(lb: real, ub: real) returns (lo: real, hi: real)
    requires lb <= ub
    ensures lb <= lo <= ub && lo * lo == SquareBounds(lb, ub).0
    ensures lb <= hi <= ub && hi * hi == SquareBounds(lb, ub).1
  {
    if lb >= 0.0 {
      lo, hi := lb, ub;
    } else if ub <= 0.0 {
      lo, hi := ub, lb;
    } else {
      lo := 0.0;
      hi := if lb * lb >= ub * ub then lb else ub;
    }
  }

  // ---------------------------------------------------------------
  // Auxiliary columns
  // ---------------------------------------------------------------

  datatype AuxError = InconsistentBounds(i: nat, j: nat)

  /** The column types an auxiliary can take. */
  datatype VarType = Binary | Integer | Continuous

  predicate Discrete(t: char) { t == 'B' || t == 'I' }

  /** The type of y_ij inferred from the factors' type letters. */
  function AuxType(ti: char, tj: char): (t: VarType)
    ensures t == Binary <==> ti == 'B' && tj == 'B'
    ensures t == Integer <==> Discrete(ti) && Discrete(tj) && !(ti == 'B' && tj == 'B')
    ensures t == Continuous <==> !(Discrete(ti) && Discrete(tj))
  {
    if ti == 'B' && tj == 'B' then Binary
    else if Discrete(ti) && Discrete(tj) then Integer
    else Continuous
  }

  /** The bounds of x_i·x_j before the `bigU` cap. */
  function ProductBounds(i: nat, j: nat, lb: seq<real>, ub: seq<real>): (b: (real, real))
    requires i < |lb| && j < |lb| && |lb| == |ub|
    requires i != j ==> lb[i] <= ub[i] && lb[j] <= ub[j]
  {
    if i != j then BdProd(lb[i], ub[i], lb[j], ub[j]) else SquareBounds(lb[i], ub[i])
  }

  /** Bounds of the auxiliary y_ij: an error when the product bounds are
      inconsistent, otherwise the product bounds capped at ±`bigU`. */
  function AuxBounds(i: nat, j: nat, lb: seq<real>, ub: seq<real>): (r: Result<(real, real), AuxError>)
    requires i < |lb| && j < |lb| && |lb| == |ub|
    requires i != j ==> lb[i] <= ub[i] && lb[j] <= ub[j]
    ensures r.Failure? <==> ProductBounds(i, j, lb, ub).0 >= Infinity || ProductBounds(i, j, lb, ub).1 <= -Infinity
    ensures r.Success? ==> -BigU <= r.value.0 && r.value.1 <= BigU
  {
    var b := ProductBounds(i, j, lb, ub);
    if b.0 >= Infinity || b.1 <= -Infinity then Failure(InconsistentBounds(i, j))
    else Success((Max(b.0, -BigU), Min(b.1, BigU)))
  }

  /** Every point within the factor bounds whose product stays within
      ±`bigU` satisfies the auxiliary's bounds. */
  lemma AuxBoundsEnclose(i: nat, j: nat, lb: seq<real>, ub: seq<real>, xi: real, xj: real)
    requires i < |lb| && j < |lb| && |lb| == |ub|
    requires i != j ==> lb[i] <= ub[i] && lb[j] <= ub[j]
    requires i == j ==> xi == xj
    requires lb[i] <= xi <= ub[i] && lb[j] <= xj <= ub[j]
    requires -BigU <= xi * xj <= BigU
    requires AuxBounds(i, j, lb, ub).Success?
    ensures Within(AuxBounds(i, j, lb, ub).value, xi * xj)
  {
    ProductBoundsEnclose(i, j, lb, ub, xi, xj);
  }

  /** The product bounds of (i, j) enclose x_i·x_j for every x_i, x_j
      within the bounds of columns i and j. */
  lemma ProductBoundsEnclose(i: nat, j: nat, lb: seq<real>, ub: seq<real>, xi: real, xj: real)
    requires i < |lb| && j < |lb| && |lb| == |ub|
    requires i != j ==> lb[i] <= ub[i] && lb[j] <= ub[j]
    requires i == j ==> xi == xj
    requires lb[i] <= xi <= ub[i] && lb[j] <= xj <= ub[j]
    requires -Infinity <= xi * xj <= Infinity
    ensures Within(ProductBounds(i, j, lb, ub), xi * xj)
  {
    if i != j {
      BdProdEncloses(lb[i], ub[i], lb[j], ub[j], xi, xj);
    } else {
      SquareBoundsEnclose(lb[i], ub[i], xi);
    }
  }

  /** A column of the reformulated problem. */
  datatype Column = Column(lower: real, upper: real, kind: VarType)

  /** The problem being reformulated, reduced to what `addaux` touches:
      its columns and the dictionary from factor pairs to auxiliary
      columns. */
  class Reformulation {
    var cols: seq<Column>
    var aux: map<(nat, nat), nat>

    /** Each product has its own auxiliary column, and that column exists. */
    predicate Valid()
      reads this
    {
      && (forall key :: key in aux ==> aux[key] < |cols|)
      && (forall k1, k2 :: k1 in aux && k2 in aux && aux[k1] == aux[k2] ==> k1 == k2)
    }

    /** A problem holding the original columns and no auxiliary yet. */
    constructor(original: seq<Column>)
      ensures cols == original && aux == map[]
      ensures Valid()
    {
      cols := original;
      aux := map[];
    }

    /** `addaux`: compute the bounds and type of y_ij, add it as a new
        column and record it under (i, j). Inconsistent bounds stop the
        program; the model returns the error and changes nothing. */
    method AddAux(i: nat, j: nat, lb: seq<real>, ub: seq<real>, vtype: seq<char>) returns (r: Result<nat, AuxError>)
      requires Valid()
      requires i < |lb| && j < |lb| && |lb| == |ub| == |vtype|
      requires i != j ==> lb[i] <= ub[i] && lb[j] <= ub[j]
      modifies this
      ensures Valid()
      ensures r.Failure? <==> AuxBounds(i, j, lb, ub).Failure?
      ensures r.Failure? ==> cols == old(cols) && aux == old(aux)
      ensures r.Success? ==>
        var b := AuxBounds(i, j, lb, ub).value;
        && r.value == |old(cols)|
        && cols == old(cols) + [Column(b.0, b.1, AuxType(vtype[i], vtype[j]))]
        && aux == old(aux)[(i, j) := r.value]
    {
      var bounds := AuxBounds(i, j, lb, ub);
      if bounds.Failure? {
        return Failure(bounds.error);
      }
      var t := AuxType(vtype[i], vtype[j]);
      var y := |cols|;
      cols := cols + [Column(bounds.value.0, bounds.value.1, t)];
      aux := aux[(i, j) := y];
      r := Success(y);
    }
  }

  // ---------------------------------------------------------------
  // Bound normalisation
  // ---------------------------------------------------------------

  /** A lower bound `create_prob` treats as minus infinity. */
  predicate NearMinusInfinity(v: real) { v <= -Infinity / 2.0 }

  /** An upper bound `create_prob` treats as infinity. */
  predicate NearInfinity(v: real) { v >= Infinity / 2.0 }

  /** Indices, in increasing order, of the lower bounds at or below
      -infinity/2. */
  function LowIndices(lb: seq<real>): (ix: seq<nat>)
    ensures forall t :: 0 <= t < |ix| ==> ix[t] < |lb| && NearMinusInfinity(lb[ix[t]])
  {
    if lb == [] then []
    else
      var n := |lb| - 1;
      LowIndices(lb[..n]) + (if NearMinusInfinity(lb[n]) then [n] else [])
  }

  /** `LowIndices` lists every such index, each once, in increasing order. */
  lemma {:induction false} LowIndicesComplete(lb: seq<real>)
    ensures forall i :: 0 <= i < |lb| && NearMinusInfinity(lb[i]) ==> i in LowIndices(lb)
    ensures forall s, t :: 0 <= s < t < |LowIndices(lb)| ==> LowIndices(lb)[s] < LowIndices(lb)[t]
  {
    if lb != [] {
      var n := |lb| - 1;
      LowIndicesComplete(lb[..n]);
      var init := LowIndices(lb[..n]);
      assert LowIndices(lb) == init + (if NearMinusInfinity(lb[n]) then [n] else []);
      assert forall i :: 0 <= i < n ==> lb[..n][i] == lb[i];
    }
  }

  /** Indices, in increasing order, of the upper bounds at or above
      infinity/2. */
  function HighIndices(ub: seq<real>): (ix: seq<nat>)
    ensures forall t :: 0 <= t < |ix| ==> ix[t] < |ub| && NearInfinity(ub[ix[t]])
  {
    if ub == [] then []
    else
      var n := |ub| - 1;
      HighIndices(ub[..n]) + (if NearInfinity(ub[n]) then [n] else [])
  }

  /** `HighIndices` lists every such index, each once, in increasing order. */
  lemma {:induction false} HighIndicesComplete(ub: seq<real>)
    ensures forall i :: 0 <= i < |ub| && NearInfinity(ub[i]) ==> i in HighIndices(ub)
    ensures forall s, t :: 0 <= s < t < |HighIndices(ub)| ==> HighIndices(ub)[s] < HighIndices(ub)[t]
  {
    if ub != [] {
      var n := |ub| - 1;
      HighIndicesComplete(ub[..n]);
      var init := HighIndices(ub[..n]);
      assert HighIndices(ub) == init + (if NearInfinity(ub[n]) then [n] else []);
      assert forall i :: 0 <= i < n ==> ub[..n][i] == ub[i];
    }
  }

  /** A bound list after normalisation: near-infinite lower bounds become
      -`art_bound`, the others stay. */
  function NormalLower(lb: seq<real>): (lb': seq<real>)
    ensures |lb'| == |lb|
    ensures forall i :: 0 <= i < |lb| ==> lb'[i] == if NearMinusInfinity(lb[i]) then -ArtBound else lb[i]
  {
    seq(|lb|, i requires 0 <= i < |lb| => if NearMinusInfinity(lb[i]) then -ArtBound else lb[i])
  }

  function NormalUpper(ub: seq<real>): (ub': seq<real>)
    ensures |ub'| == |ub|
    ensures forall i :: 0 <= i < |ub| ==> ub'[i] == if NearInfinity(ub[i]) then ArtBound else ub[i]
  {
    seq(|ub|, i requires 0 <= i < |ub| => if NearInfinity(ub[i]) then ArtBound else ub[i])
  }

  /** The first loop of the normalisation: near-infinite lower bounds
      are replaced in place and each change is recorded. */
  method NormaliseLower(lb: array<real>) returns (btype: seq<char>, bind: seq<nat>, bnd: seq<real>)
    modifies lb
    ensures lb[..] == NormalLower(old(lb[..]))
    ensures bind == LowIndices(old(lb[..]))
    ensures |btype| == |bnd| == |bind|
    ensures forall t :: 0 <= t < |bind| ==> btype[t] == 'L' && bnd[t] == -ArtBound
  {
    ghost var lb0 := lb[..];
    ghost var target := NormalLower(lb0);
    btype, bind, bnd := [], [], [];
    for i := 0 to lb.Length
      invariant forall k :: 0 <= k < i ==> lb[k] == target[k]
      invariant forall k :: i <= k < lb.Length ==> lb[k] == lb0[k]
      invariant bind == LowIndices(lb0[..i])
      invariant |btype| == |bnd| == |bind|
      invariant forall t :: 0 <= t < |bind| ==> btype[t] == 'L' && bnd[t] == -ArtBound
    {
      assert lb0[..i + 1][..i] == lb0[..i];
      assert lb[i] == lb0[i] == lb0[..i + 1][i];
      assert LowIndices(lb0[..i + 1]) == LowIndices(lb0[..i]) + (if NearMinusInfinity(lb0[i]) then [i] else []);
      if NearMinusInfinity(lb[i]) {
        btype, bind, bnd := btype + ['L'], bind + [i], bnd + [-ArtBound];
        lb[i] := -ArtBound;
      }
    }
    assert lb0[..lb.Length] == lb0;
  }

  /** The second loop: the same for near-infinite upper bounds. */
  method NormaliseUpper(ub: array<real>) returns (btype: seq<char>, bind: seq<nat>, bnd: seq<real>)
    modifies ub
    ensures ub[..] == NormalUpper(old(ub[..]))
    ensures bind == HighIndices(old(ub[..]))
    ensures |btype| == |bnd| == |bind|
    ensures forall t :: 0 <= t < |bind| ==> btype[t] == 'U' && bnd[t] == ArtBound
  {
    ghost var ub0 := ub[..];
    ghost var target := NormalUpper(ub0);
    btype, bind, bnd := [], [], [];
    for i := 0 to ub.Length
      invariant forall k :: 0 <= k < i ==> ub[k] == target[k]
      invariant forall k :: i <= k < ub.Length ==> ub[k] == ub0[k]
      invariant bind == HighIndices(ub0[..i])
      invariant |btype| == |bnd| == |bind|
      invariant forall t :: 0 <= t < |bind| ==> btype[t] == 'U' && bnd[t] == ArtBound
    {
      assert ub0[..i + 1][..i] == ub0[..i];
      assert ub[i] == ub0[i] == ub0[..i + 1][i];
      assert HighIndices(ub0[..i + 1]) == HighIndices(ub0[..i]) + (if NearInfinity(ub0[i]) then [i] else []);
      if NearInfinity(ub[i]) {
        btype, bind, bnd := btype + ['U'], bind + [i], bnd + [ArtBound];
        ub[i] := ArtBound;
      }
    }
    assert ub0[..ub.Length] == ub0;
  }

  /** The bound normalisation of `create_prob`: rewrites both bound lists
      in place and returns the change list (types, indices, new values)
      handed to `chgbounds`, lower-bound changes first. */
  method NormaliseBounds(lb: array<real>, ub: array<real>) returns (btype: seq<char>, bind: seq<nat>, bnd: seq<real>)
    requires lb != ub
    modifies lb, ub
    ensures lb[..] == NormalLower(old(lb[..]))
    ensures ub[..] == NormalUpper(old(ub[..]))
    ensures bind == LowIndices(old(lb[..])) + HighIndices(old(ub[..]))
    ensures |btype| == |bnd| == |bind|
    ensures forall t :: 0 <= t < |LowIndices(old(lb[..]))| ==> btype[t] == 'L' && bnd[t] == -ArtBound
    ensures forall t :: |LowIndices(old(lb[..]))| <= t < |bind| ==> btype[t] == 'U' && bnd[t] == ArtBound
  {
    var lowType, lowInd, lowBnd := NormaliseLower(lb);
    var highType, highInd, highBnd := NormaliseUpper(ub);
    btype, bind, bnd := lowType + highType, lowInd + highInd, lowBnd + highBnd;
  }

  /** After normalisation no bound is near-infinite: lower bounds are
      above -infinity/2 and upper bounds below infinity/2. */
  lemma NormalisedBoundsFinite(lb: seq<real>, ub: seq<real>)
    ensures forall i :: 0 <= i < |lb| ==> NormalLower(lb)[i] > -Infinity / 2.0
    ensures forall i :: 0 <= i < |ub| ==> NormalUpper(ub)[i] < Infinity / 2.0
  {
  }

  // ---------------------------------------------------------------
  // McCormick inequalities
  // ---------------------------------------------------------------

  datatype Sense = AtLeast | AtMost

  /** The row  y_ij (sense) coefI·x_i + coefJ·x_j + constant. */
  datatype McCormickRow = McCormickRow(i: nat, j: nat, coefI: real, coefJ: real, constant: real, sense: Sense)

  /** The row holds at factor values xi, xj and auxiliary value y. */
  predicate HoldsAt(row: McCormickRow, xi: real, xj: real, y: real)
  {
    var rhs := row.coefI * xi + row.coefJ * xj + row.constant;
    if row.sense == AtLeast then y >= rhs else y <= rhs
  }

  predicate RowHolds(row: McCormickRow, x: seq<real>, y: real)
    requires row.i < |x| && row.j < |x|
  {
    HoldsAt(row, x[row.i], x[row.j], y)
  }

  /** The four McCormick families, numbered as they are passed to
      `addConstraint`: two under-estimators, then two over-estimators. */
  function Envelope(family: nat, i: nat, j: nat, lb: seq<real>, ub: seq<real>): (row: McCormickRow)
    requires 1 <= family <= 4 && i < |lb| && j < |lb| && |lb| == |ub|
    ensures row.i == i && row.j == j
  {
    match family
    case 1 => McCormickRow(i, j, lb[j], lb[i], -(lb[i] * lb[j]), AtLeast)
    case 2 => McCormickRow(i, j, ub[j], ub[i], -(ub[i] * ub[j]), AtLeast)
    case 3 => McCormickRow(i, j, ub[j], lb[i], -(lb[i] * ub[j]), AtMost)
    case _ => McCormickRow(i, j, lb[j], ub[i], -(ub[i] * lb[j]), AtMost)
  }

  /** The guard under which a family's row is added for (i, j). */
  predicate Guard(family: nat, i: nat, j: nat, lb: seq<real>, ub: seq<real>)
    requires 1 <= family <= 4 && i < |lb| && j < |lb| && |lb| == |ub|
  {
    match family
    case 1 => Max(-lb[i], -lb[j]) < Infinity
    case 2 => Max(ub[i], ub[j]) < Infinity
    case 3 => Max(-lb[i], ub[j]) < Infinity
    case _ => Max(ub[i], -lb[j]) < Infinity
  }

  predicate KeysInRange(keys: seq<(nat, nat)>, n: nat)
  {
    forall k :: 0 <= k < |keys| ==> keys[k].0 < n && keys[k].1 < n
  }

  /** One family's rows, in key order, for the keys whose guard holds. */
  function FamilyRows(family: nat, keys: seq<(nat, nat)>, lb: seq<real>, ub: seq<real>): (rows: seq<McCormickRow>)
    requires 1 <= family <= 4 && |lb| == |ub| && KeysInRange(keys, |lb|)
    ensures |rows| <= |keys|
    ensures (forall k :: 0 <= k < |keys| ==> Guard(family, keys[k].0, keys[k].1, lb, ub)) ==> |rows| == |keys|
  {
    if keys == [] then []
    else
      var n := |keys| - 1;
      var (i, j) := keys[n];
      var init := FamilyRows(family, keys[..n], lb, ub);
      var rows := init + (if Guard(family, i, j, lb, ub) then [Envelope(family, i, j, lb, ub)] else []);
      assert forall r :: 0 <= r < |init| ==> rows[r] == init[r];
      rows
  }

  /** All McCormick rows of `create_prob`. */
  function McCormickRows(keys: seq<(nat, nat)>, lb: seq<real>, ub: seq<real>): (rows: seq<McCormickRow>)
    requires |lb| == |ub| && KeysInRange(keys, |lb|)
    ensures |rows| <= 4 * |keys|
  {
    FamilyRows(1, keys, lb, ub) + FamilyRows(2, keys, lb, ub) + FamilyRows(3, keys, lb, ub) + FamilyRows(4, keys, lb, ub)
  }

  /** Each envelope row is valid: y = x_i·x_j satisfies it whenever both
      factors are within their bounds. */
  lemma EnvelopeValid(family: nat, i: nat, j: nat, lb: seq<real>, ub: seq<real>, xi: real, xj: real)
    requires 1 <= family <= 4 && i < |lb| && j < |lb| && |lb| == |ub|
    requires lb[i] <= xi <= ub[i] && lb[j] <= xj <= ub[j]
    ensures HoldsAt(Envelope(family, i, j, lb, ub), xi, xj, xi * xj)
  {
    var li, ui, lj, uj := lb[i], ub[i], lb[j], ub[j];
    if family == 1 {
      Expand(xi, xj, li, lj);
      SameSignProduct(xi - li, xj - lj);
    } else if family == 2 {
      Expand(xi, xj, ui, uj);
      SameSignProduct(xi - ui, xj - uj);
    } else if family == 3 {
      Expand(xi, xj, li, uj);
      OppositeSignProduct(xi - li, xj - uj);
    } else {
      Expand(xi, xj, ui, lj);
      OppositeSignProduct(xj - lj, xi - ui);
      assert (xj - lj) * (xi - ui) == (xi - ui) * (xj - lj);
    }
  }

  /** Every row of one family holds at y_ij = x_i·x_j for every point
      within the bounds. */
  lemma {:induction false} FamilyValid(family: nat, keys: seq<(nat, nat)>, lb: seq<real>, ub: seq<real>, x: seq<real>)
    requires 1 <= family <= 4 && |lb| == |ub| == |x| && KeysInRange(keys, |lb|)
    requires forall i :: 0 <= i < |x| ==> lb[i] <= x[i] <= ub[i]
    ensures AllHold(FamilyRows(family, keys, lb, ub), x)
    decreases |keys|
  {
    if keys != [] {
      var n := |keys| - 1;
      var (i, j) := keys[n];
      assert KeysInRange(keys[..n], |lb|);
      FamilyValid(family, keys[..n], lb, ub, x);
      if Guard(family, i, j, lb, ub) {
        EnvelopeRowHolds(family, i, j, lb, ub, x);
        AllHoldAppend(FamilyRows(family, keys[..n], lb, ub), [Envelope(family, i, j, lb, ub)], x);
      } else {
        assert FamilyRows(family, keys, lb, ub) == FamilyRows(family, keys[..n], lb, ub) + [];
      }
    }
  }

  lemma EnvelopeRowHolds(family: nat, i: nat, j: nat, lb: seq<real>, ub: seq<real>, x: seq<real>)
    requires 1 <= family <= 4 && i < |lb| && j < |lb| && |lb| == |ub| == |x|
    requires lb[i] <= x[i] <= ub[i] && lb[j] <= x[j] <= ub[j]
    ensures AllHold([Envelope(family, i, j, lb, ub)], x)
  {
    var e := Envelope(family, i, j, lb, ub);
    EnvelopeValid(family, i, j, lb, ub, x[i], x[j]);
    assert RowHolds(e, x, x[e.i] * x[e.j]);
  }

  /** Every McCormick row holds at y_ij = x_i·x_j for every point within
      the bounds. */
  lemma McCormickValid(keys: seq<(nat, nat)>, lb: seq<real>, ub: seq<real>, x: seq<real>)
    requires |lb| == |ub| == |x| && KeysInRange(keys, |lb|)
    requires forall i :: 0 <= i < |x| ==> lb[i] <= x[i] <= ub[i]
    ensures AllHold(McCormickRows(keys, lb, ub), x)
  {
    var f1, f2 := FamilyRows(1, keys, lb, ub), FamilyRows(2, keys, lb, ub);
    var f3, f4 := FamilyRows(3, keys, lb, ub), FamilyRows(4, keys, lb, ub);
    FamilyValid(1, keys, lb, ub, x);
    FamilyValid(2, keys, lb, ub, x);
    FamilyValid(3, keys, lb, ub, x);
    FamilyValid(4, keys, lb, ub, x);
    AllHoldAppend(f1, f2, x);
    AllHoldAppend(f1 + f2, f3, x);
    AllHoldAppend(f1 + f2 + f3, f4, x);
  }

  /** Every row of the list holds at y_ij = x_i·x_j. */
  predicate AllHold(rows: seq<McCormickRow>, x: seq<real>)
  {
    forall r :: 0 <= r < |rows| ==> rows[r].i < |x| && rows[r].j < |x| && RowHolds(rows[r], x, x[rows[r].i] * x[rows[r].j])
  }

  lemma AllHoldAppend(a: seq<McCormickRow>, b: seq<McCormickRow>, x: seq<real>)
    requires AllHold(a, x) && AllHold(b, x)
    ensures AllHold(a + b, x)
  {
    forall r | 0 <= r < |a + b|
      ensures (a + b)[r].i < |x| && (a + b)[r].j < |x| && RowHolds((a + b)[r], x, x[(a + b)[r].i] * x[(a + b)[r].j])
    {
      if r < |a| { assert (a + b)[r] == a[r]; } else { assert (a + b)[r] == b[r - |a|]; }
    }
  }

  /** Once the bounds are normalised every guard holds, so all four rows
      are added for every product. */
  lemma NormalisedEnvelopeComplete(keys: seq<(nat, nat)>, lb0: seq<real>, ub0: seq<real>)
    requires |lb0| == |ub0| && KeysInRange(keys, |lb0|)
    ensures |McCormickRows(keys, NormalLower(lb0), NormalUpper(ub0))| == 4 * |keys|
  {
    var lb, ub := NormalLower(lb0), NormalUpper(ub0);
    NormalisedBoundsFinite(lb0, ub0);
    forall family: nat, k | 1 <= family <= 4 && 0 <= k < |keys|
      ensures Guard(family, keys[k].0, keys[k].1, lb, ub)
    {
    }
  }

  // ---------------------------------------------------------------
  // Solution check
  // ---------------------------------------------------------------

  datatype CheckError = EmptyAuxiliaries

  /** The mismatch |x_i·x_j - y_ij| of every auxiliary, in order. */
  function Gaps(sol: seq<real>, auxI: seq<nat>, auxJ: seq<nat>, auxInd: seq<nat>): (g: seq<real>)
    requires |auxI| == |auxJ| == |auxInd|
    requires forall k :: 0 <= k < |auxI| ==> auxI[k] < |sol| && auxJ[k] < |sol| && auxInd[k] < |sol|
    ensures |g| == |auxI|
    ensures forall k :: 0 <= k < |auxI| ==> g[k] == Gap(sol, auxI[k], auxJ[k], auxInd[k])
  {
    seq(|auxI|, k requires 0 <= k < |auxI| => Gap(sol, auxI[k], auxJ[k], auxInd[k]))
  }

  /** |x_i·x_j - y| at the point sol. */
  function Gap(sol: seq<real>, i: nat, j: nat, y: nat): real
    requires i < |sol| && j < |sol| && y < |sol|
  {
    var product := sol[i] * sol[j];
    Abs(product - sol[y])
  }

  /** `cbchecksol`: (refuse, cutoff). Before presolve has finished, or
      when the solution cannot be read, it refuses; otherwise it refuses
      exactly when some auxiliary is off its product by more than `eps`.
      With no auxiliary at all the index arrays are empty float arrays,
      and indexing the solution with them raises, which the model
      reports as an error. */
  function CheckSol(presolveState: nat, sol: Option<seq<real>>, auxI: seq<nat>, auxJ: seq<nat>, auxInd: seq<nat>, cutoff: real)
    : (r: Result<(int, real), CheckError>)
    requires |auxI| == |auxJ| == |auxInd|
    requires sol.Some? ==> forall k :: 0 <= k < |auxI| ==> auxI[k] < |sol.value| && auxJ[k] < |sol.value| && auxInd[k] < |sol.value|
    ensures r.Failure? <==> (presolveState / 128) % 2 == 1 && sol.Some? && |auxI| == 0
    ensures r.Success? ==> r.value.1 == cutoff && (r.value.0 == 0 || r.value.0 == 1)
    ensures r.Success? ==> (r.value.0 == 0 <==>
      (presolveState / 128) % 2 == 1 && sol.Some?
      && forall k :: 0 <= k < |auxI| ==> Gap(sol.value, auxI[k], auxJ[k], auxInd[k]) <= Tol)
  {
    if (presolveState / 128) % 2 == 0 then Success((1, cutoff))
    else if sol.None? then Success((1, cutoff))
    else if |auxI| == 0 then Failure(EmptyAuxiliaries)
    else
      var gaps := Gaps(sol.value, auxI, auxJ, auxInd);
      MaxAtMostIff(gaps, Tol);
      Success((if MaxOf(gaps) > Tol then 1 else 0, cutoff))
  }
}
