/** The subtour checks of the travelling-salesman example that works on
    numpy arrays (example_tsp_numpy.py). A solution is the flattened
    n×n 0/1 matrix xf, xf[i·n+j] = 1 meaning that the tour goes from
    city i to city j; reshaped, the successor of city i is the column
    of the first largest entry of row i. */
module TspNumpy {
  import opened Orbits

  // ---------------------------------------------------------------
  // The solution matrix
  // ---------------------------------------------------------------

  type Matrix = seq<seq<real>>

  predicate IsSquare(x: Matrix, n: nat)
  {
    |x| == n && forall i :: 0 <= i < n ==> |x[i]| == n
  }

  lemma RowEnd(i: nat, n: nat)
    requires i < n
    ensures i * n + n <= n * n
  {
    assert n * n - (i * n + n) == (n - 1 - i) * n;
  }

  /** `reshape(n, n)`: row i is the slice [i·n, i·n + n) of the flat
      vector. */
  function Reshape(xf: seq<real>, n: nat): (x: Matrix)
    requires |xf| == n * n
    ensures IsSquare(x, n)
  {
    seq(n, i requires 0 <= i < n => RowOf(xf, n, i))
  }

  function RowOf(xf: seq<real>, n: nat, i: nat): (row: seq<real>)
    requires |xf| == n * n && i < n
    ensures |row| == n
  {
    RowEnd(i, n);
    xf[i * n..i * n + n]
  }

  lemma ReshapeAt(xf: seq<real>, n: nat, i: nat, j: nat)
    requires |xf| == n * n && i < n && j < n
    ensures i * n + j < n * n && Reshape(xf, n)[i][j] == xf[i * n + j]
  {
    RowEnd(i, n);
  }

  /** `np.argmax`: the index of the first largest entry. */
  function ArgMax(row: seq<real>): (j: nat)
    requires |row| > 0
    ensures j < |row|
    ensures forall k :: 0 <= k < |row| ==> row[k] <= row[j]
    ensures forall k :: 0 <= k < j ==> row[k] < row[j]
  {
    if |row| == 1 then 0
    else
      var j := ArgMax(row[..|row| - 1]);
      if row[|row| - 1] > row[j] then |row| - 1 else j
  }

  /** `nextc = np.argmax(xsol, axis=1)`. */
  function Successors(x: Matrix, n: nat): (next: seq<nat>)
    requires IsSquare(x, n)
    ensures |next| == n && Closed(next)
    ensures forall i :: 0 <= i < n ==> next[i] == ArgMax(x[i])
  {
    seq(n, i requires 0 <= i < n => ArgMax(x[i]))
  }

  /** Some entry of the row is 1. */
  predicate HasOne(row: seq<real>)
  {
    exists j :: 0 <= j < |row| && row[j] == 1.0
  }

  /** A 0/1 matrix with exactly one 1 in every row and at most one in
      every column, as every integral solution of the model's
      assignment constraints is. */
  predicate IsAssignment(x: Matrix, n: nat)
    requires IsSquare(x, n)
  {
    && (forall i, j :: 0 <= i < n && 0 <= j < n ==> x[i][j] == 0.0 || x[i][j] == 1.0)
    && (forall i :: 0 <= i < n ==> HasOne(x[i]))
    && (forall i, j1, j2 :: 0 <= i < n && 0 <= j1 < n && 0 <= j2 < n && x[i][j1] == 1.0 && x[i][j2] == 1.0 ==> j1 == j2)
    && (forall i1, i2, j :: 0 <= i1 < n && 0 <= i2 < n && 0 <= j < n && x[i1][j] == 1.0 && x[i2][j] == 1.0 ==> i1 == i2)
  }

  /** In an assignment the successor of i is the column of the 1 in row
      i, and the only 1 of the row. */
  lemma SuccessorIsOne(x: Matrix, n: nat, i: nat)
    requires IsSquare(x, n) && IsAssignment(x, n) && i < n
    ensures x[i][Successors(x, n)[i]] == 1.0
    ensures forall j :: 0 <= j < n && j != Successors(x, n)[i] ==> x[i][j] == 0.0
  {
    var j :| 0 <= j < n && x[i][j] == 1.0;
    var s := Successors(x, n)[i];
    assert x[i][j] <= x[i][s];
  }

  /** The successors of an assignment form a permutation. */
  lemma AssignmentSuccessors(x: Matrix, n: nat)
    requires IsSquare(x, n) && IsAssignment(x, n)
    ensures IsPermutation(Successors(x, n))
  {
    var next := Successors(x, n);
    forall a, b | 0 <= a < n && 0 <= b < n && next[a] == next[b]
      ensures a == b
    {
      SuccessorIsOne(x, n, a);
      SuccessorIsOne(x, n, b);
    }
  }

  // ---------------------------------------------------------------
  // The walk from city 0
  // ---------------------------------------------------------------

  /** The first loop of `cb_preintsol`: follow successors from city 0
      until the walk is back at 0 or has seen n cities. */
  method TourLength(next: seq<nat>) returns (ncities: nat)
    requires |next| >= 1 && Closed(next)
    ensures 1 <= ncities <= |next|
    ensures forall k :: 1 <= k < ncities ==> Iter(next, 0, k) != 0
    ensures ncities < |next| ==> Iter(next, 0, ncities) == 0
  {
    var n := |next|;
    var i := 0;
    ncities := 1;
    while next[i] != 0 && ncities < n
      invariant 1 <= ncities <= n
      invariant i == Iter(next, 0, ncities - 1)
      invariant forall k :: 1 <= k < ncities ==> Iter(next, 0, k) != 0
      decreases n - ncities
    {
      ncities := ncities + 1;
      i := next[i];
    }
  }

  /** On a permutation the walk stops at n cities exactly when it covers
      every city, i.e. when the solution is one tour. */
  lemma TourCompleteIff(next: seq<nat>, ncities: nat)
    requires |next| >= 1 && IsPermutation(next)
    requires 1 <= ncities <= |next|
    requires forall k :: 1 <= k < ncities ==> Iter(next, 0, k) != 0
    requires ncities < |next| ==> Iter(next, 0, ncities) == 0
    ensures ncities == |next| <==> CoversAll(next, 0)
  {
    var n := |next|;
    CoversAllIffDistinct(next, 0);
    if ncities == n {
      FirstReturnDistinct(next, 0, n);
    } else {
      var w := Walk(next, 0, n);
      assert w[0] == w[ncities];
    }
  }

  /** `print_sol`: the cities of the cycle through 0, in tour order. */
  method PrintSol(next: seq<nat>) returns (tour: seq<nat>)
    requires |next| >= 1 && IsPermutation(next)
    ensures 1 <= |tour| <= |next|
    ensures tour == Walk(next, 0, |tour|)
    ensures Distinct(tour)
    ensures next[tour[|tour| - 1]] == 0
    ensures |tour| == |next| <==> CoversAll(next, 0)
  {
    ghost var m := ReturnTime(next, 0);
    var i := 0;
    tour := [];
    while i != 0 || |tour| == 0
      invariant |tour| <= m
      invariant tour == Walk(next, 0, |tour|)
      invariant i == Iter(next, 0, |tour|)
      decreases m - |tour|
    {
      tour := tour + [i];
      i := next[i];
    }
    FirstReturnDistinct(next, 0, m);
    TourCompleteIff(next, m);
  }

  // ---------------------------------------------------------------
  // The initial tour
  // ---------------------------------------------------------------

  /** `(i + 1) % n`, the position after i around the tour. */
  function Succ(i: nat, n: nat): (j: nat)
    requires i < n
    ensures j == if i + 1 < n then i + 1 else 0
  {
    (i + 1) % n
  }

  /** A permutation of the cities, listed. */
  predicate IsOrder(p: seq<nat>, n: nat)
  {
    |p| == n && Distinct(p) && forall k :: 0 <= k < n ==> p[k] < n
  }

  /** The arcs p[i] -> p[(i + 1) % n] of the tour that visits the cities
      in the order p. */
  function TourArcs(p: seq<nat>, n: nat): (arcs: seq<(nat, nat)>)
    requires IsOrder(p, n)
    ensures |arcs| == n
    ensures forall i :: 0 <= i < n ==> arcs[i] == (p[i], p[Succ(i, n)])
  {
    seq(n, i requires 0 <= i < n => (p[i], p[Succ(i, n)]))
  }

  /** The matrix with a 1 exactly on the arcs of the tour p. */
  function TourMatrix(p: seq<nat>, n: nat): (x: Matrix)
    requires IsOrder(p, n)
    ensures IsSquare(x, n)
  {
    seq(n, r requires 0 <= r < n => seq(n, c requires 0 <= c < n => if (r, c) in TourArcs(p, n) then 1.0 else 0.0))
  }

  /** `create_initial_tour`, with the random permutation p as a
      parameter: the tour p[0] -> p[1] -> ... -> p[n-1] -> p[0], as an
      n×n matrix. */
  method CreateInitialTour(n: nat, p: seq<nat>) returns (sol: array2<real>)
    requires IsOrder(p, n)
    ensures fresh(sol) && sol.Length0 == n && sol.Length1 == n
    ensures forall r, c :: 0 <= r < n && 0 <= c < n ==> sol[r, c] == TourMatrix(p, n)[r][c]
  {
    ghost var arcs := TourArcs(p, n);
    sol := new real[n, n]((r, c) => 0.0);
    for i := 0 to n
      invariant forall r, c :: 0 <= r < n && 0 <= c < n ==> sol[r, c] == if (r, c) in arcs[..i] then 1.0 else 0.0
    {
      assert arcs[..i + 1] == arcs[..i] + [(p[i], p[(i + 1) % n])];
      sol[p[i], p[(i + 1) % n]] := 1.0;
    }
    assert arcs[..n] == arcs;
  }

  /** The initial tour is an assignment. */
  lemma TourMatrixIsAssignment(p: seq<nat>, n: nat)
    requires IsOrder(p, n)
    ensures IsAssignment(TourMatrix(p, n), n)
  {
    forall i | 0 <= i < n {
      TourRowHasOne(p, n, i);
    }
    TourRowsAtMostOne(p, n);
    TourColumnsAtMostOne(p, n);
  }

  /** Every city is left by an arc of the tour. */
  lemma TourRowHasOne(p: seq<nat>, n: nat, i: nat)
    requires IsOrder(p, n) && i < n
    ensures HasOne(TourMatrix(p, n)[i])
  {
    var arcs := TourArcs(p, n);
    OntoCities(p, n);
    assert i in p;
    var a :| 0 <= a < n && p[a] == i;
    var j := p[Succ(a, n)];
    assert arcs[a] == (i, j);
    assert TourMatrix(p, n)[i][j] == 1.0;
  }

  lemma TourRowsAtMostOne(p: seq<nat>, n: nat)
    requires IsOrder(p, n)
    ensures forall i, j1, j2 :: (0 <= i < n && 0 <= j1 < n && 0 <= j2 < n
      && TourMatrix(p, n)[i][j1] == 1.0 && TourMatrix(p, n)[i][j2] == 1.0) ==> j1 == j2
  {
    var x := TourMatrix(p, n);
    var arcs := TourArcs(p, n);
    forall i, j1, j2 | 0 <= i < n && 0 <= j1 < n && 0 <= j2 < n && x[i][j1] == 1.0 && x[i][j2] == 1.0
      ensures j1 == j2
    {
      assert (i, j1) in arcs && (i, j2) in arcs;
      var a1 :| 0 <= a1 < n && arcs[a1] == (i, j1);
      var a2 :| 0 <= a2 < n && arcs[a2] == (i, j2);
    }
  }

  lemma TourColumnsAtMostOne(p: seq<nat>, n: nat)
    requires IsOrder(p, n)
    ensures forall i1, i2, j :: (0 <= i1 < n && 0 <= i2 < n && 0 <= j < n
      && TourMatrix(p, n)[i1][j] == 1.0 && TourMatrix(p, n)[i2][j] == 1.0) ==> i1 == i2
  {
    var x := TourMatrix(p, n);
    var arcs := TourArcs(p, n);
    forall i1, i2, j | 0 <= i1 < n && 0 <= i2 < n && 0 <= j < n && x[i1][j] == 1.0 && x[i2][j] == 1.0
      ensures i1 == i2
    {
      assert (i1, j) in arcs && (i2, j) in arcs;
      var a1 :| 0 <= a1 < n && arcs[a1] == (i1, j);
      var a2 :| 0 <= a2 < n && arcs[a2] == (i2, j);
      assert Succ(a1, n) == Succ(a2, n);
    }
  }

  /** Its successor map sends p[i] to p[(i + 1) % n]. */
  lemma TourMatrixSuccessors(p: seq<nat>, n: nat)
    requires IsOrder(p, n)
    ensures forall i :: 0 <= i < n ==> Successors(TourMatrix(p, n), n)[p[i]] == p[Succ(i, n)]
  {
    var x := TourMatrix(p, n);
    var arcs := TourArcs(p, n);
    TourMatrixIsAssignment(p, n);
    forall i | 0 <= i < n
      ensures Successors(x, n)[p[i]] == p[Succ(i, n)]
    {
      assert arcs[i] == (p[i], p[Succ(i, n)]);
      SuccessorIsOne(x, n, p[i]);
    }
  }

  /** From every city, the walk along the initial tour visits all n
      cities: the initial solution is one tour. */
  lemma InitialTourIsTour(p: seq<nat>, n: nat)
    requires IsOrder(p, n)
    ensures IsPermutation(Successors(TourMatrix(p, n), n))
    ensures forall c :: 0 <= c < n ==> CoversAll(Successors(TourMatrix(p, n), n), c)
  {
    var x := TourMatrix(p, n);
    TourMatrixIsAssignment(p, n);
    AssignmentSuccessors(x, n);
    TourMatrixSuccessors(p, n);
    var next := Successors(x, n);
    if n > 0 {
      WalkFollowsOrder(p, n, next, n);
      assert Walk(next, p[0], n) == p;
      CoversAllIffDistinct(next, p[0]);
      forall c | 0 <= c < n
        ensures CoversAll(next, c)
      {
        SingleCycle(next, p[0], c);
      }
    }
  }

  /** Along the initial tour the walk from p[0] visits p[0], p[1], ... */
  lemma {:induction false} WalkFollowsOrder(p: seq<nat>, n: nat, next: seq<nat>, m: nat)
    requires IsOrder(p, n) && 0 < n && m <= n && |next| == n && Closed(next)
    requires forall i :: 0 <= i < n ==> next[p[i]] == p[Succ(i, n)]
    ensures forall k :: 0 <= k < m ==> Iter(next, p[0], k) == p[k]
  {
    if m > 0 {
      WalkFollowsOrder(p, n, next, m - 1);
      if m >= 2 {
        assert Iter(next, p[0], m - 1) == next[p[m - 2]];
      }
    }
  }

  // ---------------------------------------------------------------
  // Subtour elimination cuts
  // ---------------------------------------------------------------

  predicate Below(s: seq<nat>, n: nat)
  {
    forall k :: 0 <= k < |s| ==> s[k] < n
  }

  /** `np.where(b)[0]`: the indices of the true entries, in increasing
      order. */
  function Select(b: seq<bool>): (s: seq<nat>)
    ensures Below(s, |b|)
    ensures forall k :: 0 <= k < |s| ==> b[s[k]]
    ensures forall c :: 0 <= c < |b| && b[c] ==> c in s
    ensures forall a, k :: 0 <= a < k < |s| ==> s[a] < s[k]
  {
    if b == [] then []
    else
      var s := Select(b[..|b| - 1]);
      if b[|b| - 1] then s + [|b| - 1] else s
  }

  /** `unchecked == g`, entry by entry. */
  function Members(labels: seq<nat>, g: nat): (m: seq<bool>)
    ensures |m| == |labels|
    ensures forall c :: 0 <= c < |labels| ==> (m[c] <==> labels[c] == g)
  {
    seq(|labels|, c requires 0 <= c < |labels| => labels[c] == g)
  }

  function Complement(m: seq<bool>): (r: seq<bool>)
    ensures |r| == |m|
    ensures forall c :: 0 <= c < |m| ==> (r[c] <==> !m[c])
  {
    seq(|m|, c requires 0 <= c < |m| => !m[c])
  }

  /** `[i*n + j for j in T]`: the flat indices of the arcs from i into T. */
  function RowIndices(i: nat, t: seq<nat>, n: nat): (r: seq<nat>)
    requires i < n && Below(t, n)
    ensures |r| == |t| && Below(r, n * n)
  {
    if t == [] then []
    else
      RowEnd(i, n);
      [i * n + t[0]] + RowIndices(i, t[1..], n)
  }

  /** `[i*n + j for i in S for j in T]`: the flat indices of the arcs
      leaving S into T. */
  function CutIndices(s: seq<nat>, t: seq<nat>, n: nat): (r: seq<nat>)
    requires Below(s, n) && Below(t, n)
    ensures |r| == |s| * |t| && Below(r, n * n)
  {
    if s == [] then []
    else RowIndices(s[0], t, n) + CutIndices(s[1..], t, n)
  }

  /** The indices of the subtour elimination cut for group g: every arc
      from a city labelled g to a city not labelled g. */
  function SubtourIndices(labels: seq<nat>, g: nat, n: nat): (r: seq<nat>)
    requires |labels| == n
    ensures Below(r, n * n)
  {
    var m := Members(labels, g);
    CutIndices(Select(m), Select(Complement(m)), n)
  }

  /** `S` and `compS` split the cities: every city is in exactly one
      of them, S holding the cities labelled g. */
  lemma SplitCities(labels: seq<nat>, g: nat)
    ensures var m := Members(labels, g);
      forall c :: 0 <= c < |labels| ==>
        && (c in Select(m) <==> labels[c] == g)
        && (c in Select(Complement(m)) <==> labels[c] != g)
  {
    var m := Members(labels, g);
    var s := Select(m);
    var t := Select(Complement(m));
    forall c | 0 <= c < |labels|
      ensures (c in s <==> labels[c] == g) && (c in t <==> labels[c] != g)
    {
      if c in s {
        var k :| 0 <= k < |s| && s[k] == c;
      }
      if c in t {
        var k :| 0 <= k < |t| && t[k] == c;
      }
    }
  }

  predicate Increasing(s: seq<nat>)
  {
    forall a, k :: 0 <= a < k < |s| ==> s[a] < s[k]
  }

  lemma NextRow(a: nat, b: nat, n: nat)
    requires a < b
    ensures a * n + n <= b * n
  {
    assert a * n + n == (a + 1) * n;
  }

  /** Entry k of `[i*n + j for j in T]` is i*n + T[k]. */
  lemma {:induction false} RowIndicesAt(i: nat, t: seq<nat>, n: nat)
    requires i < n && Below(t, n)
    ensures forall k :: 0 <= k < |t| ==> RowIndices(i, t, n)[k] == i * n + t[k]
  {
    if t != [] {
      RowIndicesAt(i, t[1..], n);
      var r := RowIndices(i, t, n);
      forall k | 1 <= k < |t|
        ensures r[k] == i * n + t[k]
      {
        assert r[k] == RowIndices(i, t[1..], n)[k - 1];
      }
    }
  }

  /** With S and T in increasing order, the cut indices come in
      increasing order too, so no arc is listed twice, and none lies
      below the row of the first city of S. */
  lemma {:induction false} CutIndicesIncreasing(s: seq<nat>, t: seq<nat>, n: nat)
    requires Below(s, n) && Below(t, n) && Increasing(s) && Increasing(t)
    ensures var r := CutIndices(s, t, n);
      Increasing(r) && (s != [] ==> forall k :: 0 <= k < |r| ==> s[0] * n <= r[k])
  {
    if s != [] {
      var row := RowIndices(s[0], t, n);
      var rest := CutIndices(s[1..], t, n);
      var r := CutIndices(s, t, n);
      RowIndicesAt(s[0], t, n);
      CutIndicesIncreasing(s[1..], t, n);
      if 1 < |s| {
        NextRow(s[0], s[1], n);
      }
      assert r == row + rest;
      forall a, k | 0 <= a < k < |r|
        ensures r[a] < r[k]
      {
        if k < |row| {
        } else if a >= |row| {
          assert r[a] == rest[a - |row|] && r[k] == rest[k - |row|];
        } else {
          assert r[a] < s[0] * n + n <= r[k];
        }
      }
      forall k | 0 <= k < |r|
        ensures s[0] * n <= r[k]
      {
        if k >= |row| {
          NextRow(s[0], s[1], n);
        }
      }
    }
  }

  /** The indices of each subtour cut are distinct, in increasing order. */
  lemma SubtourIndicesIncreasing(labels: seq<nat>, g: nat, n: nat)
    requires |labels| == n
    ensures Increasing(SubtourIndices(labels, g, n))
  {
    var m := Members(labels, g);
    CutIndicesIncreasing(Select(m), Select(Complement(m)), n);
  }

  /** `sum(xsolf[i] for i in indices)`. */
  function Value(xf: seq<real>, idx: seq<nat>): real
    requires Below(idx, |xf|)
  {
    if idx == [] then 0.0 else xf[idx[0]] + Value(xf, idx[1..])
  }

  lemma {:induction false} ValueAppend(xf: seq<real>, a: seq<nat>, b: seq<nat>)
    requires Below(a, |xf|) && Below(b, |xf|)
    ensures Below(a + b, |xf|)
    ensures Value(xf, a + b) == Value(xf, a) + Value(xf, b)
  {
    if a == [] {
      assert a + b == b;
    } else {
      assert (a + b)[0] == a[0];
      assert (a + b)[1..] == a[1..] + b;
      ValueAppend(xf, a[1..], b);
    }
  }

  /** The sum of the entries of row over the columns t. */
  function RowSum(row: seq<real>, t: seq<nat>): real
    requires Below(t, |row|)
  {
    if t == [] then 0.0 else row[t[0]] + RowSum(row, t[1..])
  }

  /** The sum of x[i][j] over i in s and j in t. */
  function MatrixCutValue(x: Matrix, n: nat, s: seq<nat>, t: seq<nat>): real
    requires IsSquare(x, n) && Below(s, n) && Below(t, n)
  {
    if s == [] then 0.0 else RowSum(x[s[0]], t) + MatrixCutValue(x, n, s[1..], t)
  }

  lemma {:induction false} RowValue(xf: seq<real>, n: nat, i: nat, t: seq<nat>)
    requires |xf| == n * n && i < n && Below(t, n)
    ensures Value(xf, RowIndices(i, t, n)) == RowSum(Reshape(xf, n)[i], t)
  {
    if t != [] {
      ReshapeAt(xf, n, i, t[0]);
      RowValue(xf, n, i, t[1..]);
    }
  }

  /** The flat sum over the cut indices is the sum over the matrix
      entries of the cut. */
  lemma {:induction false} CutValueMatrix(xf: seq<real>, n: nat, s: seq<nat>, t: seq<nat>)
    requires |xf| == n * n && Below(s, n) && Below(t, n)
    ensures Value(xf, CutIndices(s, t, n)) == MatrixCutValue(Reshape(xf, n), n, s, t)
  {
    if s != [] {
      var x := Reshape(xf, n);
      var row, rest := RowIndices(s[0], t, n), CutIndices(s[1..], t, n);
      assert CutIndices(s, t, n) == row + rest;
      ValueAppend(xf, row, rest);
      RowValue(xf, n, s[0], t);
      CutValueMatrix(xf, n, s[1..], t);
      assert MatrixCutValue(x, n, s, t) == RowSum(x[s[0]], t) + MatrixCutValue(x, n, s[1..], t);
    }
  }

  lemma {:induction false} RowZero(row: seq<real>, t: seq<nat>)
    requires Below(t, |row|)
    requires forall j :: j in t ==> row[j] == 0.0
    ensures RowSum(row, t) == 0.0
  {
    if t != [] {
      assert t[0] in t;
      RowZero(row, t[1..]);
    }
  }

  lemma {:induction false} MatrixZero(x: Matrix, n: nat, s: seq<nat>, t: seq<nat>)
    requires IsSquare(x, n) && Below(s, n) && Below(t, n)
    requires forall i, j :: i in s && j in t ==> x[i][j] == 0.0
    ensures MatrixCutValue(x, n, s, t) == 0.0
  {
    if s != [] {
      assert s[0] in s;
      RowZero(x[s[0]], t);
      MatrixZero(x, n, s[1..], t);
    }
  }

  lemma {:induction false} RowAtLeast(row: seq<real>, t: seq<nat>, j0: nat)
    requires Below(t, |row|) && j0 in t
    requires forall j :: j in t ==> row[j] >= 0.0
    ensures RowSum(row, t) >= row[j0]
  {
    assert t[0] in t;
    if t[0] != j0 {
      RowAtLeast(row, t[1..], j0);
    } else if |t| > 1 {
      RowNonNegative(row, t[1..]);
    }
  }

  lemma {:induction false} RowNonNegative(row: seq<real>, t: seq<nat>)
    requires Below(t, |row|)
    requires forall j :: j in t ==> row[j] >= 0.0
    ensures RowSum(row, t) >= 0.0
  {
    if t != [] {
      assert t[0] in t;
      RowNonNegative(row, t[1..]);
    }
  }

  lemma {:induction false} MatrixAtLeast(x: Matrix, n: nat, s: seq<nat>, t: seq<nat>, i0: nat, j0: nat)
    requires IsSquare(x, n) && Below(s, n) && Below(t, n)
    requires i0 in s && j0 in t
    requires forall i, j :: 0 <= i < n && 0 <= j < n ==> x[i][j] >= 0.0
    ensures MatrixCutValue(x, n, s, t) >= x[i0][j0]
  {
    assert s[0] in s;
    if s[0] != i0 {
      RowNonNegative(x[s[0]], t);
      MatrixAtLeast(x, n, s[1..], t, i0, j0);
    } else {
      RowAtLeast(x[i0], t, j0);
      MatrixNonNegative(x, n, s[1..], t);
    }
  }

  lemma {:induction false} MatrixNonNegative(x: Matrix, n: nat, s: seq<nat>, t: seq<nat>)
    requires IsSquare(x, n) && Below(s, n) && Below(t, n)
    requires forall i, j :: 0 <= i < n && 0 <= j < n ==> x[i][j] >= 0.0
    ensures MatrixCutValue(x, n, s, t) >= 0.0
  {
    if s != [] {
      RowNonNegative(x[s[0]], t);
      MatrixNonNegative(x, n, s[1..], t);
    }
  }

  /** The cities marked true are closed under the successor map. */
  predicate ClosedUnder(m: seq<bool>, next: seq<nat>)
    requires |m| == |next| && Closed(next)
  {
    forall c :: 0 <= c < |m| && m[c] ==> m[next[c]]
  }

  /** The cut for a group closed under the successors of an assignment
      has value 0 at that assignment: the check `sum < 1 - 1e-3` always
      finds the cut violated. */
  lemma SubtourCutViolated(xf: seq<real>, n: nat, labels: seq<nat>, g: nat)
    requires |xf| == n * n && |labels| == n
    requires IsAssignment(Reshape(xf, n), n)
    requires ClosedUnder(Members(labels, g), Successors(Reshape(xf, n), n))
    ensures Value(xf, SubtourIndices(labels, g, n)) == 0.0
  {
    var x := Reshape(xf, n);
    var next := Successors(x, n);
    var m := Members(labels, g);
    var s := Select(m);
    var t := Select(Complement(m));
    forall i, j | i in s && j in t
      ensures x[i][j] == 0.0
    {
      SuccessorIsOne(x, n, i);
    }
    MatrixZero(x, n, s, t);
    CutValueMatrix(xf, n, s, t);
  }

  /** Every solution that is a single tour satisfies the cut of any
      nonempty proper set of cities: the cuts never remove a tour. */
  lemma SubtourCutValid(yf: seq<real>, n: nat, labels: seq<nat>, g: nat, inside: nat, outside: nat)
    requires |yf| == n * n && |labels| == n
    requires IsAssignment(Reshape(yf, n), n)
    requires n >= 1 && CoversAll(Successors(Reshape(yf, n), n), 0)
    requires inside < n && labels[inside] == g
    requires outside < n && labels[outside] != g
    ensures Value(yf, SubtourIndices(labels, g, n)) >= 1.0
  {
    var y := Reshape(yf, n);
    var next := Successors(y, n);
    var m := Members(labels, g);
    var s := Select(m);
    var t := Select(Complement(m));
    AssignmentSuccessors(y, n);
    var i := LeavingCity(next, m, inside, outside);
    SuccessorIsOne(y, n, i);
    MatrixAtLeast(y, n, s, t, i, next[i]);
    CutValueMatrix(yf, n, s, t);
  }

  /** A single cycle leaves every nonempty proper subset of its cities. */
  lemma LeavingCity(next: seq<nat>, m: seq<bool>, inside: nat, outside: nat) returns (i: nat)
    requires IsPermutation(next) && |m| == |next| && 0 < |next|
    requires CoversAll(next, 0)
    requires inside < |m| && m[inside] && outside < |m| && !m[outside]
    ensures i < |m| && m[i] && !m[next[i]]
  {
    if ClosedUnder(m, next) {
      SingleCycle(next, 0, inside);
      assert outside in Walk(next, inside, |next|);
      var k :| 0 <= k < |next| && Walk(next, inside, |next|)[k] == outside;
      StaysInside(next, m, inside, k);
      assert false;
    }
    i :| 0 <= i < |m| && m[i] && !m[next[i]];
  }

  lemma {:induction false} StaysInside(next: seq<nat>, m: seq<bool>, c: nat, k: nat)
    requires Closed(next) && |m| == |next| && c < |m|
    requires ClosedUnder(m, next) && m[c]
    ensures m[Iter(next, c, k)]
  {
    if k > 0 {
      StaysInside(next, m, c, k - 1);
    }
  }

  // ---------------------------------------------------------------
  // Grouping the cities into subtours
  // ---------------------------------------------------------------

  /** `np.argmin`: the index of the first smallest entry. */
  function ArgMin(s: seq<nat>): (j: nat)
    requires |s| > 0
    ensures j < |s|
    ensures forall k :: 0 <= k < |s| ==> s[j] <= s[k]
    ensures forall k :: 0 <= k < j ==> s[j] < s[k]
  {
    if |s| == 1 then 0
    else
      var j := ArgMin(s[..|s| - 1]);
      if s[|s| - 1] < s[j] then |s| - 1 else j
  }

  /** The inner loop of the grouping: mark the cities of the cycle
      through `first` with g, stopping when the walk is back at `first`
      (or, on a map that is no permutation, after n + 2 steps). */
  method LabelCycle(lab: array<nat>, next: seq<nat>, first: nat, g: nat) returns (len: nat)
    requires lab.Length == |next| && IsPermutation(next) && first < |next|
    modifies lab
    ensures 1 <= len <= |next| && Iter(next, first, len) == first
    ensures forall k :: 0 < k < len ==> Iter(next, first, k) != first
    ensures forall c :: 0 <= c < lab.Length ==> lab[c] == if c in Walk(next, first, len) then g else old(lab[c])
  {
    ghost var m := ReturnTime(next, first);
    var n := |next|;
    var i := first;
    len := 0;
    while true
      invariant len < m
      invariant i == Iter(next, first, len)
      invariant forall c :: 0 <= c < lab.Length ==> lab[c] == if c in Walk(next, first, len) then g else old(lab[c])
      decreases m - len
    {
      assert Walk(next, first, len + 1) == Walk(next, first, len) + [i];
      lab[i] := g;
      len := len + 1;
      i := next[i];
      if i == first || len > n + 1 {
        break;
      }
    }
  }

  /** The walk from a city of a subtour returns to it in fewer than n
      steps when the solution is not one tour (the assertion after the
      inner loop). */
  lemma CycleShorter(next: seq<nat>, first: nat, len: nat)
    requires IsPermutation(next) && first < |next|
    requires 1 <= len <= |next| && Iter(next, first, len) == first
    requires forall k :: 0 < k < len ==> Iter(next, first, k) != first
    requires !CoversAll(next, 0)
    ensures len < |next|
  {
    if len == |next| {
      FirstReturnDistinct(next, first, len);
      CoversAllIffDistinct(next, first);
      SingleCycle(next, first, 0);
    }
  }

  /** The labelling after some rounds of the grouping loop: group g + 1
      is exactly the cycle through firsts[g], and unlabelled cities
      carry 0. */
  predicate Grouped(next: seq<nat>, labels: seq<nat>, firsts: seq<nat>)
    requires Closed(next) && |labels| == |next|
  {
    && Below(firsts, |next|)
    && (forall c :: 0 <= c < |next| ==> labels[c] <= |firsts|)
    && (forall c :: 0 <= c < |next| && labels[c] > 0 ==> InOrbit(next, firsts[labels[c] - 1], c))
    && (forall g, c :: 0 <= g < |firsts| && 0 <= c < |next| && InOrbit(next, firsts[g], c) ==> labels[c] == g + 1)
  }

  /** The cycle through an unlabelled city is unlabelled. */
  lemma UnlabelledOrbit(next: seq<nat>, labels: seq<nat>, firsts: seq<nat>, first: nat)
    requires IsPermutation(next) && |labels| == |next| && Grouped(next, labels, firsts)
    requires first < |next| && labels[first] == 0
    ensures forall c :: 0 <= c < |next| && InOrbit(next, first, c) ==> labels[c] == 0
  {
    forall c | 0 <= c < |next| && InOrbit(next, first, c)
      ensures labels[c] == 0
    {
      OrbitSymmetric(next, first, c);
      if labels[c] > 0 {
        OrbitTransitive(next, firsts[labels[c] - 1], c, first);
      }
    }
  }

  /** One round of the grouping loop keeps the labelling grouped, adds
      the cycle through `first` as a new group closed under the
      successor map and leaves the earlier groups as they were. */
  lemma GroupStep(next: seq<nat>, before: seq<nat>, firsts: seq<nat>, first: nat, len: nat, after: seq<nat>)
    requires IsPermutation(next) && |before| == |next| && |after| == |next|
    requires Grouped(next, before, firsts)
    requires first < |next| && before[first] == 0
    requires 1 <= len <= |next| && Iter(next, first, len) == first
    requires forall c :: 0 <= c < |next| ==> after[c] == if c in Walk(next, first, len) then |firsts| + 1 else before[c]
    ensures Grouped(next, after, firsts + [first])
    ensures forall g :: 1 <= g <= |firsts| ==> Members(after, g) == Members(before, g)
    ensures ClosedUnder(Members(after, |firsts| + 1), next)
  {
    UnlabelledOrbit(next, before, firsts, first);
    ReturnOrbit(next, first, len);
    StepLabels(next, before, firsts, first, after);
    StepOrbits(next, before, firsts, first, after);
    StepMembers(next, before, firsts, first, after);
    StepClosed(next, before, firsts, first, after);
  }

  /** In the lemmas below, `after` relabels the orbit of `first`, which
      was unlabelled, with the next group number. */
  predicate Relabelled(next: seq<nat>, before: seq<nat>, firsts: seq<nat>, first: nat, after: seq<nat>)
    requires Closed(next) && first < |next|
  {
    && |before| == |next| && |after| == |next|
    && (forall c :: 0 <= c < |next| && InOrbit(next, first, c) ==> before[c] == 0 && after[c] == |firsts| + 1)
    && (forall c :: 0 <= c < |next| && !InOrbit(next, first, c) ==> after[c] == before[c])
  }

  lemma StepLabels(next: seq<nat>, before: seq<nat>, firsts: seq<nat>, first: nat, after: seq<nat>)
    requires IsPermutation(next) && first < |next|
    requires Relabelled(next, before, firsts, first, after) && Grouped(next, before, firsts)
    ensures forall c :: 0 <= c < |next| ==> after[c] <= |firsts| + 1
    ensures forall c :: 0 <= c < |next| && after[c] > 0 ==> InOrbit(next, (firsts + [first])[after[c] - 1], c)
  {
    var firsts' := firsts + [first];
    forall c | 0 <= c < |next| && after[c] > 0
      ensures InOrbit(next, firsts'[after[c] - 1], c)
    {
      if !InOrbit(next, first, c) {
        assert firsts'[after[c] - 1] == firsts[before[c] - 1];
      }
    }
  }

  lemma StepOrbits(next: seq<nat>, before: seq<nat>, firsts: seq<nat>, first: nat, after: seq<nat>)
    requires IsPermutation(next) && first < |next|
    requires Relabelled(next, before, firsts, first, after) && Grouped(next, before, firsts)
    ensures forall g, c :: 0 <= g < |firsts| + 1 && 0 <= c < |next| && InOrbit(next, (firsts + [first])[g], c) ==> after[c] == g + 1
  {
    var firsts' := firsts + [first];
    forall g, c | 0 <= g < |firsts| + 1 && 0 <= c < |next| && InOrbit(next, firsts'[g], c)
      ensures after[c] == g + 1
    {
      if g < |firsts| {
        assert firsts'[g] == firsts[g];
        assert before[c] == g + 1;
      }
    }
  }

  lemma StepMembers(next: seq<nat>, before: seq<nat>, firsts: seq<nat>, first: nat, after: seq<nat>)
    requires Closed(next) && first < |next|
    requires Relabelled(next, before, firsts, first, after)
    ensures forall g :: 1 <= g <= |firsts| ==> Members(after, g) == Members(before, g)
  {
    forall g | 1 <= g <= |firsts|
      ensures Members(after, g) == Members(before, g)
    {
      assert forall c :: 0 <= c < |next| ==> (after[c] == g <==> before[c] == g);
    }
  }

  lemma StepClosed(next: seq<nat>, before: seq<nat>, firsts: seq<nat>, first: nat, after: seq<nat>)
    requires IsPermutation(next) && first < |next|
    requires Relabelled(next, before, firsts, first, after) && Grouped(next, before, firsts)
    ensures ClosedUnder(Members(after, |firsts| + 1), next)
  {
    var m := Members(after, |firsts| + 1);
    forall c | 0 <= c < |next| && m[c]
      ensures m[next[c]]
    {
      assert InOrbit(next, first, c);
      OrbitStep(next, first, c);
    }
  }

  /** Group g + 1 contains its first city, so the first cities differ. */
  lemma FirstsLabelled(next: seq<nat>, labels: seq<nat>, firsts: seq<nat>)
    requires IsPermutation(next) && |labels| == |next| && Grouped(next, labels, firsts)
    ensures forall g :: 0 <= g < |firsts| ==> labels[firsts[g]] == g + 1
    ensures Distinct(firsts)
  {
    forall g | 0 <= g < |firsts|
      ensures labels[firsts[g]] == g + 1
    {
      SelfInOrbit(next, firsts[g]);
    }
  }

  /** There are at most n groups, and fewer while a city is unlabelled:
      the guard `ngroup <= n` never stops the loop early. */
  lemma FewGroups(next: seq<nat>, labels: seq<nat>, firsts: seq<nat>, u: nat)
    requires IsPermutation(next) && |labels| == |next| && Grouped(next, labels, firsts)
    requires u < |next|
    ensures |firsts| <= |next|
    ensures labels[u] == 0 ==> |firsts| < |next|
  {
    var others := Cities(|next|) - (if labels[u] == 0 then {u} else {});
    FirstsAvoid(next, labels, firsts, u);
    FirstsLabelled(next, labels, firsts);
    DistinctInside(firsts, others);
    CitiesLess(|next|, u, labels[u] == 0);
  }

  /** A sequence without repetitions inside a set is no longer than the set. */
  lemma DistinctInside(s: seq<nat>, b: set<nat>)
    requires Distinct(s) && Elements(s) <= b
    ensures |s| <= |b|
  {
    DistinctElements(s);
    SubsetCard(Elements(s), b);
  }

  lemma CitiesLess(n: nat, u: nat, drop: bool)
    requires u < n
    ensures |Cities(n) - (if drop then {u} else {})| == if drop then n - 1 else n
  {
    var c := Cities(n);
    if drop {
      SubsetCard({u}, c);
    } else {
      assert c - {} == c;
    }
  }

  /** The cycle starts are cities, and none of them is unlabelled. */
  lemma FirstsAvoid(next: seq<nat>, labels: seq<nat>, firsts: seq<nat>, u: nat)
    requires IsPermutation(next) && |labels| == |next| && Grouped(next, labels, firsts)
    requires u < |next|
    ensures Elements(firsts) <= Cities(|next|) - (if labels[u] == 0 then {u} else {})
  {
    FirstsLabelled(next, labels, firsts);
    forall c | c in Elements(firsts)
      ensures c in Cities(|next|) && (labels[u] == 0 ==> c != u)
    {
      var g :| 0 <= g < |firsts| && firsts[g] == c;
      assert labels[c] == g + 1;
    }
  }

  /** A labelling of every city into groups that are each a union of
      whole cycles and each nonempty. */
  predicate Partition(next: seq<nat>, labels: seq<nat>, k: nat)
    requires Closed(next)
  {
    && |labels| == |next|
    && (forall c :: 0 <= c < |next| ==> 1 <= labels[c] <= k)
    && (forall g :: 1 <= g <= k ==> g in labels)
    && (forall c :: 0 <= c < |next| ==> labels[next[c]] == labels[c])
  }

  /** When every city is labelled, the groups partition the cities,
      and there are at least two of them unless the solution is one
      tour. */
  lemma GroupedPartition(next: seq<nat>, labels: seq<nat>, firsts: seq<nat>)
    requires IsPermutation(next) && |labels| == |next| && Grouped(next, labels, firsts)
    requires forall c :: 0 <= c < |next| ==> labels[c] > 0
    requires 0 < |next| && !CoversAll(next, 0)
    ensures Partition(next, labels, |firsts|)
    ensures 2 <= |firsts|
  {
    FirstsLabelled(next, labels, firsts);
    forall g | 1 <= g <= |firsts|
      ensures g in labels
    {
      assert labels[firsts[g - 1]] == g;
    }
    GroupsClosed(next, labels, firsts);
    assert labels[0] > 0;
    if |firsts| == 1 {
      OneGroupCovers(next, labels, firsts);
      SingleCycle(next, firsts[0], 0);
    }
  }

  lemma GroupsClosed(next: seq<nat>, labels: seq<nat>, firsts: seq<nat>)
    requires IsPermutation(next) && |labels| == |next| && Grouped(next, labels, firsts)
    requires forall c :: 0 <= c < |next| ==> labels[c] > 0
    ensures forall c :: 0 <= c < |next| ==> labels[next[c]] == labels[c]
  {
    forall c | 0 <= c < |next|
      ensures labels[next[c]] == labels[c]
    {
      OrbitStep(next, firsts[labels[c] - 1], c);
    }
  }

  lemma OneGroupCovers(next: seq<nat>, labels: seq<nat>, firsts: seq<nat>)
    requires IsPermutation(next) && |labels| == |next| && Grouped(next, labels, firsts)
    requires forall c :: 0 <= c < |next| ==> labels[c] > 0
    requires |firsts| == 1
    ensures CoversAll(next, firsts[0])
  {
    forall d | 0 <= d < |next|
      ensures d in Walk(next, firsts[0], |next|)
    {
      assert labels[d] == 1;
      assert InOrbit(next, firsts[labels[d] - 1], d);
    }
  }

  // ---------------------------------------------------------------
  // The cut buffers handed to addcuts
  // ---------------------------------------------------------------

  /** What `presolverow` returns for a cut: the presolved column indices,
      their coefficients and the presolved right-hand side. */
  datatype PresolvedRow = PresolvedRow(cols: seq<nat>, coefs: seq<real>, rhs: real)

  /** `presolverow` fills its column and coefficient lists to the same
      length. */
  ghost predicate PresolveMatches(presolve: seq<nat> -> PresolvedRow)
  {
    forall idx :: |presolve(idx).cols| == |presolve(idx).coefs|
  }

  /** The arguments of one `addcuts` call: row k has the entries
      mstart[k] .. mstart[k + 1] - 1 of ind and coe, and right-hand side
      rhs[k]. */
  datatype CutBatch = CutBatch(mstart: seq<nat>, ind: seq<nat>, coe: seq<real>, rhs: seq<real>)

  function Ind(rows: seq<PresolvedRow>): seq<nat>
  {
    if rows == [] then [] else Ind(rows[..|rows| - 1]) + rows[|rows| - 1].cols
  }

  function Coe(rows: seq<PresolvedRow>): seq<real>
  {
    if rows == [] then [] else Coe(rows[..|rows| - 1]) + rows[|rows| - 1].coefs
  }

  function Starts(rows: seq<PresolvedRow>): seq<nat>
  {
    if rows == [] then [0] else Starts(rows[..|rows| - 1]) + [|Ind(rows)|]
  }

  function Rhs(rows: seq<PresolvedRow>): (r: seq<real>)
    ensures |r| == |rows|
  {
    if rows == [] then [] else Rhs(rows[..|rows| - 1]) + [rows[|rows| - 1].rhs]
  }

  /** The buffers that appending the rows one by one builds. */
  function Pack(rows: seq<PresolvedRow>): CutBatch
  {
    CutBatch(Starts(rows), Ind(rows), Coe(rows), Rhs(rows))
  }

  /** Buffers `addcuts` can read: the assertions before the call, and
      row starts that never decrease. */
  predicate WellFormedBatch(b: CutBatch)
  {
    && |b.mstart| == |b.rhs| + 1
    && b.mstart[0] == 0
    && (forall a, k :: 0 <= a <= k < |b.mstart| ==> b.mstart[a] <= b.mstart[k])
    && b.mstart[|b.rhs|] == |b.ind| == |b.coe|
  }

  /** The rows the buffers describe. */
  function Unpack(b: CutBatch): (rows: seq<PresolvedRow>)
    requires WellFormedBatch(b)
    ensures |rows| == |b.rhs|
  {
    seq(|b.rhs|, k requires 0 <= k < |b.rhs| =>
      PresolvedRow(b.ind[b.mstart[k]..b.mstart[k + 1]], b.coe[b.mstart[k]..b.mstart[k + 1]], b.rhs[k]))
  }

  predicate RowsMatch(rows: seq<PresolvedRow>)
  {
    forall k :: 0 <= k < |rows| ==> |rows[k].cols| == |rows[k].coefs|
  }

  /** Appending one row to the buffers. */
  lemma PackAppend(rows: seq<PresolvedRow>, r: PresolvedRow)
    ensures Ind(rows + [r]) == Ind(rows) + r.cols
    ensures Coe(rows + [r]) == Coe(rows) + r.coefs
    ensures Rhs(rows + [r]) == Rhs(rows) + [r.rhs]
    ensures Starts(rows + [r]) == Starts(rows) + [|Ind(rows)| + |r.cols|]
  {
    assert (rows + [r])[..|rows|] == rows;
  }

  /** Appending rows whose column and coefficient lists match yields
      buffers `addcuts` can read. */
  lemma {:induction false} PackWellFormed(rows: seq<PresolvedRow>)
    requires RowsMatch(rows)
    ensures WellFormedBatch(Pack(rows))
    ensures |Starts(rows)| == |rows| + 1
  {
    if rows != [] {
      var init := rows[..|rows| - 1];
      PackWellFormed(init);
      PackAppend(init, rows[|rows| - 1]);
      assert rows == init + [rows[|rows| - 1]];
    }
  }

  /** The buffers describe exactly the rows appended to them. */
  lemma {:induction false} UnpackPack(rows: seq<PresolvedRow>)
    requires RowsMatch(rows)
    ensures WellFormedBatch(Pack(rows)) && Unpack(Pack(rows)) == rows
  {
    PackWellFormed(rows);
    if rows != [] {
      var init := rows[..|rows| - 1];
      var r := rows[|rows| - 1];
      assert rows == init + [r];
      UnpackPack(init);
      UnpackPackStep(init, r);
    }
  }

  lemma UnpackPackStep(init: seq<PresolvedRow>, r: PresolvedRow)
    requires RowsMatch(init + [r])
    requires WellFormedBatch(Pack(init)) && Unpack(Pack(init)) == init
    ensures WellFormedBatch(Pack(init + [r])) && Unpack(Pack(init + [r])) == init + [r]
  {
    PackWellFormed(init + [r]);
    PackAppend(init, r);
    UnpackAppend(Pack(init), r, Pack(init + [r]));
  }

  lemma UnpackAppend(b0: CutBatch, r: PresolvedRow, b: CutBatch)
    requires WellFormedBatch(b0) && WellFormedBatch(b) && |r.cols| == |r.coefs|
    requires b == CutBatch(b0.mstart + [|b0.ind| + |r.cols|], b0.ind + r.cols, b0.coe + r.coefs, b0.rhs + [r.rhs])
    ensures Unpack(b) == Unpack(b0) + [r]
  {
    var k0 := |b0.rhs|;
    forall k | 0 <= k < k0
      ensures Unpack(b)[k] == Unpack(b0)[k]
    {
      assert b0.mstart[k] <= b0.mstart[k + 1] <= b0.mstart[k0];
      SlicePrefix(b0.ind, r.cols, b0.mstart[k], b0.mstart[k + 1]);
      SlicePrefix(b0.coe, r.coefs, b0.mstart[k], b0.mstart[k + 1]);
    }
    assert b.mstart[k0] == |b0.ind|;
    assert b.ind[|b0.ind|..|b0.ind| + |r.cols|] == r.cols;
    assert b.coe[|b0.coe|..|b0.coe| + |r.coefs|] == r.coefs;
  }

  lemma SlicePrefix<T>(a: seq<T>, extra: seq<T>, lo: nat, hi: nat)
    requires lo <= hi <= |a|
    ensures (a + extra)[lo..hi] == a[lo..hi]
  {
  }
  // ---------------------------------------------------------------
  // The separation in cb_preintsol
  // ---------------------------------------------------------------

  /** The presolved subtour cuts of groups 1..k, in group order. */
  function SubtourRows(labels: seq<nat>, k: nat, n: nat, presolve: seq<nat> -> PresolvedRow): (rows: seq<PresolvedRow>)
    requires |labels| == n
    ensures |rows| == k
  {
    seq(k, g requires 0 <= g < k => presolve(SubtourIndices(labels, g + 1, n)))
  }

  lemma SubtourRowsMatch(labels: seq<nat>, k: nat, n: nat, presolve: seq<nat> -> PresolvedRow)
    requires |labels| == n && PresolveMatches(presolve)
    ensures RowsMatch(SubtourRows(labels, k, n, presolve))
  {
    var rows := SubtourRows(labels, k, n, presolve);
    forall g | 0 <= g < k
      ensures |rows[g].cols| == |rows[g].coefs|
    {
      var idx := SubtourIndices(labels, g + 1, n);
      assert rows[g] == presolve(idx);
    }
  }

  /** The cut indices of groups 1..k, in group order. */
  function GroupCuts(labels: seq<nat>, k: nat, n: nat): (cuts: seq<seq<nat>>)
    requires |labels| == n
    ensures |cuts| == k && forall g :: 0 <= g < k ==> Below(cuts[g], n * n)
  {
    seq(k, g requires 0 <= g < k => SubtourIndices(labels, g + 1, n))
  }

  lemma GroupCutAt(labels: seq<nat>, k: nat, n: nat, g: nat)
    requires |labels| == n && g < k
    ensures GroupCuts(labels, k, n)[g] == SubtourIndices(labels, g + 1, n)
  {
  }

  predicate AllBelow(cuts: seq<seq<nat>>, size: nat)
  {
    forall g :: 0 <= g < |cuts| ==> Below(cuts[g], size)
  }

  /** The rows the loop appends for the given cuts, in order: the
      presolved row of each cut the solution violates, that is whose
      `sum(xsolf[i] for i in indices)` is below `1 - 1e-3`. */
  function CutRows(xf: seq<real>, cuts: seq<seq<nat>>, presolve: seq<nat> -> PresolvedRow): seq<PresolvedRow>
    requires AllBelow(cuts, |xf|)
  {
    if cuts == [] then []
    else
      var last := cuts[|cuts| - 1];
      CutRows(xf, cuts[..|cuts| - 1], presolve) + if Value(xf, last) < 1.0 - 0.001 then [presolve(last)] else []
  }

  /** The number of cuts each `addcuts` call passes, as written: one
      call per round once the buffers are nonempty, each with all the
      rows built so far. */
  function AddCutsCalls(xf: seq<real>, cuts: seq<seq<nat>>, presolve: seq<nat> -> PresolvedRow): seq<nat>
    requires AllBelow(cuts, |xf|)
  {
    if cuts == [] then []
    else
      var ncuts := |CutRows(xf, cuts, presolve)|;
      AddCutsCalls(xf, cuts[..|cuts| - 1], presolve) + if ncuts > 0 then [ncuts] else []
  }

  lemma CutRowsAppend(xf: seq<real>, cuts: seq<seq<nat>>, last: seq<nat>, presolve: seq<nat> -> PresolvedRow)
    requires AllBelow(cuts, |xf|) && Below(last, |xf|)
    ensures AllBelow(cuts + [last], |xf|)
    ensures var rows := CutRows(xf, cuts, presolve) + if Value(xf, last) < 1.0 - 0.001 then [presolve(last)] else [];
      CutRows(xf, cuts + [last], presolve) == rows
      && AddCutsCalls(xf, cuts + [last], presolve)
         == AddCutsCalls(xf, cuts, presolve) + if |rows| > 0 then [|rows|] else []
  {
    assert (cuts + [last])[..|cuts|] == cuts;
  }

  /** Labelling group g leaves the cuts of groups 1..g-1 as they were. */
  lemma GroupCutsStep(before: seq<nat>, after: seq<nat>, g: nat, n: nat)
    requires |before| == n && |after| == n && g >= 1
    requires forall h :: 1 <= h < g ==> Members(after, h) == Members(before, h)
    ensures GroupCuts(after, g, n) == GroupCuts(before, g - 1, n) + [SubtourIndices(after, g, n)]
  {
    forall h | 0 <= h < g - 1
      ensures GroupCuts(after, g, n)[h] == GroupCuts(before, g - 1, n)[h]
    {
      GroupCutAt(after, g, n, h);
      GroupCutAt(before, g - 1, n, h);
      assert Members(after, h + 1) == Members(before, h + 1);
    }
    GroupCutAt(after, g, n, g - 1);
  }

  /** The grouping loop of `cb_preintsol` (the branch where the solution
      is not one tour and came from an integral node). Every round labels
      the cycle through the first unlabelled city with the next group
      number, appends the presolved cut of that group to the buffers if
      the solution violates it and then, as written, calls `addcuts`
      with all the buffers built so far; `submitted` records how many
      cuts each of those calls passes. */
  method SeparateSubtours(xf: seq<real>, n: nat, next: seq<nat>, presolve: seq<nat> -> PresolvedRow)
      returns (labels: seq<nat>, ngroup: nat, cuts: CutBatch, submitted: seq<nat>, ghost firsts: seq<nat>)
    requires n >= 1 && |xf| == n * n && |next| == n
    requires IsPermutation(next) && !CoversAll(next, 0)
    ensures Partition(next, labels, ngroup) && 2 <= ngroup <= n
    ensures |firsts| == ngroup && Grouped(next, labels, firsts)
    ensures cuts == Pack(CutRows(xf, GroupCuts(labels, ngroup, n), presolve))
    ensures submitted == AddCutsCalls(xf, GroupCuts(labels, ngroup, n), presolve)
  {
    var lab := new nat[n](_ => 0);
    var mstart, ind, coe, rhs;
    ngroup, firsts, mstart, ind, coe, rhs, submitted := GroupAll(xf, n, next, presolve, lab);
    labels := lab[..];
    FinishGrouping(next, labels, firsts);
    cuts := CutBatch(mstart, ind, coe, rhs);
  }

  /** The grouping loop of `cb_preintsol`, run on a fresh all-zero labelling:
      label cycle after cycle while some city is unlabelled. */
  method GroupAll(xf: seq<real>, n: nat, next: seq<nat>, presolve: seq<nat> -> PresolvedRow, lab: array<nat>)
      returns (ngroup: nat, ghost firsts: seq<nat>, mstart: seq<nat>, ind: seq<nat>, coe: seq<real>, rhs: seq<real>,
               submitted: seq<nat>)
    requires n >= 1 && |xf| == n * n && |next| == n
    requires IsPermutation(next) && !CoversAll(next, 0)
    requires lab.Length == n && forall i :: 0 <= i < n ==> lab[i] == 0
    modifies lab
    ensures |firsts| == ngroup && Grouped(next, lab[..], firsts)
    ensures !(lab[ArgMin(lab[..])] == 0 && ngroup <= n)
    ensures CutBatch(mstart, ind, coe, rhs) == Pack(CutRows(xf, GroupCuts(lab[..], ngroup, n), presolve))
    ensures submitted == AddCutsCalls(xf, GroupCuts(lab[..], ngroup, n), presolve)
  {
    ngroup := 0;
    firsts := [];
    mstart, ind, coe, rhs := [0], [], [], [];
    var nnz: nat := 0;
    var ncuts: nat := 0;
    submitted := [];
    // `np.min(unchecked) == 0`, the minimum being the entry at the argmin
    while lab[ArgMin(lab[..])] == 0 && ngroup <= n
      invariant lab.Length == n
      invariant |firsts| == ngroup && Grouped(next, lab[..], firsts)
      invariant CutBatch(mstart, ind, coe, rhs) == Pack(CutRows(xf, GroupCuts(lab[..], ngroup, n), presolve))
      invariant nnz == |ind| && ncuts == |CutRows(xf, GroupCuts(lab[..], ngroup, n), presolve)|
      invariant submitted == AddCutsCalls(xf, GroupCuts(lab[..], ngroup, n), presolve)
      decreases n + 1 - ngroup
    {
      ngroup := ngroup + 1;
      var first;
      first, mstart, ind, coe, rhs, nnz, ncuts := GroupRound(xf, n, next, presolve, lab, ngroup, firsts,
                                                             mstart, ind, coe, rhs, nnz, ncuts);
      firsts := firsts + [first];
      if ncuts > 0 {
        submitted := submitted + [ncuts];
      }
    }
  }

  /** One round of the grouping loop: label the cycle of the first
      unlabelled city with group g and append the cut of that group to
      the buffers when the solution violates it. The labelling stays
      grouped, the buffers hold the rows of the violated cuts of groups
      1..g, and the calls of earlier rounds stay as they were. */
  method GroupRound(xf: seq<real>, n: nat, next: seq<nat>, presolve: seq<nat> -> PresolvedRow, lab: array<nat>, g: nat,
                    ghost firsts: seq<nat>, mstart: seq<nat>, ind: seq<nat>, coe: seq<real>, rhs: seq<real>, nnz: nat, ncuts: nat)
      returns (first: nat, mstart': seq<nat>, ind': seq<nat>, coe': seq<real>, rhs': seq<real>, nnz': nat, ncuts': nat)
    requires n >= 1 && |xf| == n * n && |next| == n
    requires IsPermutation(next) && !CoversAll(next, 0)
    requires lab.Length == n && Grouped(next, lab[..], firsts) && g == |firsts| + 1
    requires lab[ArgMin(lab[..])] == 0
    requires var rows := CutRows(xf, GroupCuts(lab[..], g - 1, n), presolve);
      CutBatch(mstart, ind, coe, rhs) == Pack(rows) && nnz == |ind| && ncuts == |rows|
    modifies lab
    ensures Grouped(next, lab[..], firsts + [first])
    ensures var rows := CutRows(xf, GroupCuts(lab[..], g, n), presolve);
      CutBatch(mstart', ind', coe', rhs') == Pack(rows) && nnz' == |ind'| && ncuts' == |rows|
    ensures AddCutsCalls(xf, GroupCuts(lab[..], g, n), presolve)
         == AddCutsCalls(xf, GroupCuts(old(lab[..]), g - 1, n), presolve) + if ncuts' > 0 then [ncuts'] else []
  {
    ghost var before := lab[..];
    ghost var done := GroupCuts(before, g - 1, n);
    var len;
    first, len := SeekTour(lab, next, g, firsts);
    mstart', ind', coe', rhs', nnz', ncuts' := AddSubtourCut(xf, n, presolve, lab[..], g, mstart, ind, coe, rhs, nnz, ncuts,
                                                             CutRows(xf, done, presolve));
    GroupCutsStep(before, lab[..], g, n);
    CutRowsAppend(xf, done, SubtourIndices(lab[..], g, n), presolve);
  }

  /** The start of a round of the grouping loop ("seek a tour"): take
      the first unlabelled city and label its cycle with group g. The
      cycle is shorter than n (the assertion after the inner loop), the
      labelling stays grouped, the new group is closed under the
      successor map and the earlier groups do not change. */
  method SeekTour(lab: array<nat>, next: seq<nat>, g: nat, ghost firsts: seq<nat>) returns (first: nat, len: nat)
    requires IsPermutation(next) && 0 < |next| && !CoversAll(next, 0)
    requires lab.Length == |next| && Grouped(next, lab[..], firsts) && g == |firsts| + 1
    requires lab[ArgMin(lab[..])] == 0
    modifies lab
    ensures first == ArgMin(old(lab[..])) && 1 <= len < |next|
    ensures forall c :: 0 <= c < |next| ==> lab[c] == if c in Walk(next, first, len) then g else old(lab[c])
    ensures Grouped(next, lab[..], firsts + [first])
    ensures forall h :: 1 <= h < g ==> Members(lab[..], h) == Members(old(lab[..]), h)
    ensures ClosedUnder(Members(lab[..], g), next)
  {
    first := ArgMin(lab[..]);
    ghost var before := lab[..];
    len := LabelCycle(lab, next, first, g);
    ghost var after := lab[..];
    CycleShorter(next, first, len);
    GroupStep(next, before, firsts, first, len, after);
  }

  /** The rest of a round: the cut of group g, `sum(x[i][j] for i in S
      for j not in S) >= 1`, is presolved and appended to the buffers
      when the solution violates it. */
  method AddSubtourCut(xf: seq<real>, n: nat, presolve: seq<nat> -> PresolvedRow, labels: seq<nat>, g: nat,
                       mstart: seq<nat>, ind: seq<nat>, coe: seq<real>, rhs: seq<real>, nnz: nat, ncuts: nat,
                       ghost rows: seq<PresolvedRow>)
      returns (mstart': seq<nat>, ind': seq<nat>, coe': seq<real>, rhs': seq<real>, nnz': nat, ncuts': nat)
    requires |xf| == n * n && |labels| == n
    requires CutBatch(mstart, ind, coe, rhs) == Pack(rows) && nnz == |ind| && ncuts == |rows|
    ensures var idx := SubtourIndices(labels, g, n);
      var rows' := rows + if Value(xf, idx) < 1.0 - 0.001 then [presolve(idx)] else [];
      CutBatch(mstart', ind', coe', rhs') == Pack(rows') && nnz' == |ind'| && ncuts' == |rows'|
  {
    var indices := SubtourIndices(labels, g, n);
    mstart', ind', coe', rhs', nnz', ncuts' := mstart, ind, coe, rhs, nnz, ncuts;
    if Value(xf, indices) < 1.0 - 0.001 {
      var row := presolve(indices);
      PackAppend(rows, row);
      nnz' := nnz + |row.cols|;
      ncuts' := ncuts + 1;
      ind' := ind + row.cols;
      coe' := coe + row.coefs;
      rhs' := rhs + [row.rhs];
      mstart' := mstart + [nnz'];
      assert CutBatch(mstart', ind', coe', rhs') == Pack(rows + [row]);
    } else {
      assert rows + [] == rows;
    }
  }

  /** When the grouping loop stops, every city is labelled, the groups
      partition the cities and there are between 2 and n of them. */
  lemma FinishGrouping(next: seq<nat>, labels: seq<nat>, firsts: seq<nat>)
    requires IsPermutation(next) && |labels| == |next| && 0 < |next|
    requires Grouped(next, labels, firsts) && !CoversAll(next, 0)
    requires !(labels[ArgMin(labels)] == 0 && |firsts| <= |next|)
    ensures Partition(next, labels, |firsts|) && 2 <= |firsts| <= |next|
  {
    forall c | 0 <= c < |next|
      ensures labels[c] > 0
    {
      FewGroups(next, labels, firsts, c);
    }
    FewGroups(next, labels, firsts, 0);
    GroupedPartition(next, labels, firsts);
  }

  /** The counts 1, 2, ..., k. */
  function Counting(k: nat): (s: seq<nat>)
    ensures |s| == k
  {
    if k == 0 then [] else Counting(k - 1) + [k]
  }

  /** When the solution violates every cut, round j appends its cut, so
      the buffers hold the presolved rows of all cuts and the j-th
      `addcuts` call passes j cuts. */
  lemma {:induction false} AllCutsViolated(xf: seq<real>, cuts: seq<seq<nat>>, presolve: seq<nat> -> PresolvedRow)
    requires AllBelow(cuts, |xf|)
    requires forall g :: 0 <= g < |cuts| ==> Value(xf, cuts[g]) < 1.0 - 0.001
    ensures CutRows(xf, cuts, presolve) == seq(|cuts|, g requires 0 <= g < |cuts| => presolve(cuts[g]))
    ensures AddCutsCalls(xf, cuts, presolve) == Counting(|cuts|)
  {
    if cuts != [] {
      var init := cuts[..|cuts| - 1];
      AllCutsViolated(xf, init, presolve);
      CutRowsAppend(xf, init, cuts[|cuts| - 1], presolve);
      assert init + [cuts[|cuts| - 1]] == cuts;
    }
  }

  /** At an assignment whose labels partition the cities into groups
      closed under the successor map, the solution violates the cut of
      every group: its value is 0. */
  lemma GroupCutsViolated(xf: seq<real>, n: nat, labels: seq<nat>, k: nat)
    requires |xf| == n * n && IsAssignment(Reshape(xf, n), n)
    requires Partition(Successors(Reshape(xf, n), n), labels, k)
    ensures forall g :: 1 <= g <= k ==> Value(xf, SubtourIndices(labels, g, n)) == 0.0
  {
    var next := Successors(Reshape(xf, n), n);
    forall g | 1 <= g <= k
      ensures Value(xf, SubtourIndices(labels, g, n)) == 0.0
    {
      PartitionClosed(next, labels, k, g);
      SubtourCutViolated(xf, n, labels, g);
    }
  }

  /** Each group of a partition is closed under the successor map. */
  lemma PartitionClosed(next: seq<nat>, labels: seq<nat>, k: nat, g: nat)
    requires Closed(next) && Partition(next, labels, k)
    ensures ClosedUnder(Members(labels, g), next)
  {
    var m := Members(labels, g);
    forall c | 0 <= c < |next| && m[c]
      ensures m[next[c]]
    {
      assert labels[next[c]] == labels[c];
    }
  }

  /** `cb_preintsol` with the `addcuts` call made once, after the
      grouping loop, on the complete buffers. A solution whose successor
      walk from city 0 visits every city is accepted with no cuts;
      otherwise a solution from a heuristic (`soltype` nonzero) is
      rejected and one from an integral node is cut off by one batch
      holding the presolved subtour cut of every group. */
  method PreIntSol(xf: seq<real>, n: nat, soltype: int, presolve: seq<nat> -> PresolvedRow)
      returns (reject: bool, batches: seq<CutBatch>, ghost labels: seq<nat>, ghost ngroup: nat)
    requires n >= 1 && |xf| == n * n && IsAssignment(Reshape(xf, n), n)
    requires PresolveMatches(presolve)
    ensures var next := Successors(Reshape(xf, n), n);
      && (reject <==> soltype != 0 && !CoversAll(next, 0))
      && (soltype != 0 || CoversAll(next, 0) ==> batches == [])
      && (soltype == 0 && !CoversAll(next, 0) ==>
            && Partition(next, labels, ngroup) && 2 <= ngroup <= n
            && batches == [Pack(SubtourRows(labels, ngroup, n, presolve))]
            && WellFormedBatch(batches[0]))
  {
    var x := Reshape(xf, n);
    var next := Successors(x, n);
    AssignmentSuccessors(x, n);
    var ncities := TourLength(next);
    TourCompleteIff(next, ncities);
    reject := false;
    batches := [];
    labels := [];
    ngroup := 0;
    if ncities < n {
      if soltype != 0 {
        reject := true;
      } else {
        var cuts, submitted;
        ghost var firsts;
        labels, ngroup, cuts, submitted, firsts := SeparateSubtours(xf, n, next, presolve);
        GroupCutsViolated(xf, n, labels, ngroup);
        AllGroupsCut(xf, n, labels, ngroup, presolve);
        SubtourRowsMatch(labels, ngroup, n, presolve);
        PackWellFormed(SubtourRows(labels, ngroup, n, presolve));
        if |cuts.rhs| > 0 {
          batches := [cuts];
        }
      }
    }
  }

  /** At an assignment partitioned into groups closed under the
      successor map, the loop appends the cut of every group, in group
      order, and the j-th `addcuts` call passes j cuts. */
  lemma AllGroupsCut(xf: seq<real>, n: nat, labels: seq<nat>, k: nat, presolve: seq<nat> -> PresolvedRow)
    requires |xf| == n * n && |labels| == n
    requires forall g :: 1 <= g <= k ==> Value(xf, SubtourIndices(labels, g, n)) < 1.0 - 0.001
    ensures CutRows(xf, GroupCuts(labels, k, n), presolve) == SubtourRows(labels, k, n, presolve)
    ensures AddCutsCalls(xf, GroupCuts(labels, k, n), presolve) == Counting(k)
  {
    var cuts := GroupCuts(labels, k, n);
    var want := SubtourRows(labels, k, n, presolve);
    forall g | 0 <= g < k
      ensures Value(xf, cuts[g]) < 1.0 - 0.001 && presolve(cuts[g]) == want[g]
    {
      GroupCutAt(labels, k, n, g);
    }
    AllCutsViolated(xf, cuts, presolve);
    assert seq(k, g requires 0 <= g < k => presolve(cuts[g])) == want;
  }

  /** The cuts separate: at an assignment with k >= 2 groups closed
      under its successor map, the cut of every group has value 0, so
      the solution is cut off, while every assignment that is a single
      tour gives each of those cuts a value of at least 1, so no tour is
      lost. */
  lemma SubtourCutsSeparate(xf: seq<real>, yf: seq<real>, n: nat, labels: seq<nat>, k: nat)
    requires n >= 1 && |xf| == n * n && |yf| == n * n
    requires IsAssignment(Reshape(xf, n), n) && Partition(Successors(Reshape(xf, n), n), labels, k) && k >= 2
    requires IsAssignment(Reshape(yf, n), n) && CoversAll(Successors(Reshape(yf, n), n), 0)
    ensures forall g :: 1 <= g <= k ==> Value(xf, SubtourIndices(labels, g, n)) == 0.0
    ensures forall g :: 1 <= g <= k ==> Value(yf, SubtourIndices(labels, g, n)) >= 1.0
  {
    GroupCutsViolated(xf, n, labels, k);
    forall g | 1 <= g <= k
      ensures Value(yf, SubtourIndices(labels, g, n)) >= 1.0
    {
      var other := if g == 1 then 2 else 1;
      assert g in labels && other in labels;
      var inside :| 0 <= inside < n && labels[inside] == g;
      var outside :| 0 <= outside < n && labels[outside] == other;
      SubtourCutValid(yf, n, labels, g, inside, outside);
    }
  }

  /** How many of the `addcuts` calls pass row r of the buffers: those
      passing more than r cuts, since every call passes all rows built
      so far. */
  function TimesSubmitted(calls: seq<nat>, r: nat): (t: nat)
    ensures t <= |calls|
  {
    if calls == [] then 0
    else TimesSubmitted(calls[..|calls| - 1], r) + if calls[|calls| - 1] > r then 1 else 0
  }

  /** With calls passing 1, 2, ..., k cuts, row r goes to addcuts k - r
      times. */
  lemma {:induction false} CountingSubmits(k: nat, r: nat)
    requires r < k
    ensures TimesSubmitted(Counting(k), r) == k - r
  {
    assert Counting(k)[..k - 1] == Counting(k - 1);
    if r < k - 1 {
      CountingSubmits(k - 1, r);
    } else {
      NoneSubmitted(k - 1, r);
    }
  }

  lemma {:induction false} NoneSubmitted(k: nat, r: nat)
    requires k <= r
    ensures TimesSubmitted(Counting(k), r) == 0
  {
    if k > 0 {
      assert Counting(k)[..k - 1] == Counting(k - 1);
      NoneSubmitted(k - 1, r);
    }
  }

  /** As written, `addcuts` sits inside the grouping loop: at every
      integral solution that is not one tour, the cut of group 1 is
      passed once per group, so at least twice, and the cut of group g
      ngroup - g + 1 times. */
  lemma ResubmittedCuts(xf: seq<real>, n: nat, labels: seq<nat>, ngroup: nat, presolve: seq<nat> -> PresolvedRow)
    requires |xf| == n * n && IsAssignment(Reshape(xf, n), n)
    requires Partition(Successors(Reshape(xf, n), n), labels, ngroup) && 2 <= ngroup
    ensures var calls := AddCutsCalls(xf, GroupCuts(labels, ngroup, n), presolve);
      && |calls| == ngroup
      && TimesSubmitted(calls, 0) == ngroup >= 2
      && forall r :: 0 <= r < ngroup ==> TimesSubmitted(calls, r) == ngroup - r
  {
    GroupCutsViolated(xf, n, labels, ngroup);
    AllGroupsCut(xf, n, labels, ngroup, presolve);
    forall r | 0 <= r < ngroup
      ensures TimesSubmitted(Counting(ngroup), r) == ngroup - r
    {
      CountingSubmits(ngroup, r);
    }
  }
}
