/** Successor maps on the cities 0..n-1 and the walks they induce. The
    travelling-salesman callbacks read such a map off an assignment
    solution (the successor of city i is the column of the largest entry
    of row i) and follow it from city to city. */
module Orbits {

  /** Every city's successor is a city. */
  predicate Closed(next: seq<nat>)
  {
    forall c :: 0 <= c < |next| ==> next[c] < |next|
  }

  /** No two cities share a successor. */
  predicate Injective(next: seq<nat>)
  {
    forall a, b :: 0 <= a < |next| && 0 <= b < |next| && a != b ==> next[a] != next[b]
  }

  predicate IsPermutation(next: seq<nat>)
  {
    Closed(next) && Injective(next)
  }

  /** No value occurs twice. */
  predicate Distinct(s: seq<nat>)
  {
    forall a, b :: 0 <= a < b < |s| ==> s[a] != s[b]
  }

  /** The cities 0..n-1. */
  function Cities(n: nat): (s: set<nat>)
    ensures |s| == n
    ensures forall c :: c in s <==> 0 <= c < n
  {
    if n == 0 then {} else Cities(n - 1) + {n - 1}
  }

  function Elements(s: seq<nat>): set<nat>
  {
    set x | x in s
  }

  lemma SubsetCard(a: set<nat>, b: set<nat>)
    requires a <= b
    ensures |b| == |a| + |b - a|
  {
    assert b == a + (b - a);
    assert a * (b - a) == {};
  }

  /** A sequence without repetitions has as many elements as entries. */
  lemma {:induction false} DistinctElements(s: seq<nat>)
    requires Distinct(s)
    ensures |Elements(s)| == |s|
  {
    if s != [] {
      var n := |s| - 1;
      assert Distinct(s[..n]);
      DistinctElements(s[..n]);
      assert Elements(s) == Elements(s[..n]) + {s[n]} by {
        assert s == s[..n] + [s[n]];
      }
      assert s[n] !in Elements(s[..n]);
    }
  }

  /** n distinct cities out of n are all the cities. */
  lemma OntoCities(s: seq<nat>, n: nat)
    requires |s| == n && Distinct(s)
    requires forall k :: 0 <= k < |s| ==> s[k] < n
    ensures Elements(s) == Cities(n)
    ensures forall c :: 0 <= c < n ==> c in s
  {
    DistinctElements(s);
    assert Elements(s) <= Cities(n) by {
      forall x | x in Elements(s) ensures x in Cities(n) {
        var k :| 0 <= k < |s| && s[k] == x;
      }
    }
    SubsetCard(Elements(s), Cities(n));
    assert |Cities(n) - Elements(s)| == 0;
    forall c | 0 <= c < n ensures c in s {
      assert c in Cities(n);
      assert c !in Cities(n) - Elements(s);
    }
  }

  /** Pigeonhole: more than n entries below n repeat one. */
  lemma Pigeonhole(s: seq<nat>, n: nat) returns (a: nat, b: nat)
    requires |s| > n
    requires forall k :: 0 <= k < |s| ==> s[k] < n
    ensures a < b < |s| && s[a] == s[b]
  {
    if Distinct(s) {
      DistinctElements(s);
      SubsetCard(Elements(s), Cities(n));
      assert false;
    }
    a, b :| 0 <= a < b < |s| && s[a] == s[b];
  }

  /** The city reached from c after k steps. */
  function Iter(next: seq<nat>, c: nat, k: nat): (d: nat)
    requires Closed(next) && c < |next|
    ensures d < |next|
  {
    if k == 0 then c else next[Iter(next, c, k - 1)]
  }

  lemma {:induction false} IterAdd(next: seq<nat>, c: nat, a: nat, b: nat)
    requires Closed(next) && c < |next|
    ensures Iter(next, c, a + b) == Iter(next, Iter(next, c, a), b)
    decreases b
  {
    if b > 0 {
      IterAdd(next, c, a, b - 1);
    }
  }

  /** The first m cities of the walk from c. */
  function Walk(next: seq<nat>, c: nat, m: nat): (w: seq<nat>)
    requires Closed(next) && c < |next|
    ensures |w| == m
    ensures forall k :: 0 <= k < m ==> w[k] == Iter(next, c, k)
  {
    seq(m, k requires 0 <= k < m => Iter(next, c, k))
  }

  /** Two equal points of a walk along a permutation: stepping back from
      both, the walk returns to its start after their distance. */
  lemma {:induction false} BackStep(next: seq<nat>, c: nat, a: nat, b: nat)
    requires IsPermutation(next) && c < |next| && a <= b
    requires Iter(next, c, a) == Iter(next, c, b)
    ensures Iter(next, c, b - a) == c
    decreases a
  {
    if a > 0 {
      assert next[Iter(next, c, a - 1)] == next[Iter(next, c, b - 1)];
      BackStep(next, c, a - 1, b - 1);
    }
  }

  /** Before it first returns to its start, a walk along a permutation
      visits no city twice. */
  lemma FirstReturnDistinct(next: seq<nat>, c: nat, m: nat)
    requires IsPermutation(next) && c < |next|
    requires forall k :: 0 < k < m ==> Iter(next, c, k) != c
    ensures Distinct(Walk(next, c, m))
  {
    var w := Walk(next, c, m);
    forall a, b | 0 <= a < b < m
      ensures w[a] != w[b]
    {
      if Iter(next, c, a) == Iter(next, c, b) {
        BackStep(next, c, a, b);
      }
    }
  }

  /** Along a permutation of n cities the walk from any city is back at
      that city after at most n steps; `m` is the first such step. */
  lemma ReturnTime(next: seq<nat>, c: nat) returns (m: nat)
    requires IsPermutation(next) && c < |next|
    ensures 1 <= m <= |next| && Iter(next, c, m) == c
    ensures forall k :: 0 < k < m ==> Iter(next, c, k) != c
  {
    var n := |next|;
    var a, b := Pigeonhole(Walk(next, c, n + 1), n);
    BackStep(next, c, a, b);
    m := 1;
    while Iter(next, c, m) != c
      invariant 1 <= m <= b - a
      invariant forall k :: 0 < k < m ==> Iter(next, c, k) != c
      decreases b - a - m
    {
      m := m + 1;
    }
  }

  /** A walk back at its start after m steps only ever visits the cities
      of its first m steps. */
  lemma {:induction false} Periodic(next: seq<nat>, c: nat, m: nat, k: nat)
    requires Closed(next) && c < |next| && 1 <= m && Iter(next, c, m) == c
    ensures Iter(next, c, k) in Walk(next, c, m)
    decreases k
  {
    if k < m {
      assert Walk(next, c, m)[k] == Iter(next, c, k);
    } else {
      IterAdd(next, c, m, k - m);
      Periodic(next, c, m, k - m);
    }
  }

  /** The walk from c covers every city within n steps. */
  predicate CoversAll(next: seq<nat>, c: nat)
    requires Closed(next) && c < |next|
  {
    forall d :: 0 <= d < |next| ==> d in Walk(next, c, |next|)
  }

  /** Covering all cities means visiting n distinct ones in n steps. */
  lemma CoversAllIffDistinct(next: seq<nat>, c: nat)
    requires IsPermutation(next) && c < |next|
    ensures CoversAll(next, c) <==> Distinct(Walk(next, c, |next|))
  {
    var n := |next|;
    var w := Walk(next, c, n);
    if Distinct(w) {
      OntoCities(w, n);
    } else {
      var m := ReturnTime(next, c);
      if m == n {
        FirstReturnDistinct(next, c, n);
      } else {
        forall k | 0 <= k < n
          ensures w[k] in Walk(next, c, m)
        {
          Periodic(next, c, m, k);
        }
        assert Elements(w) <= Elements(Walk(next, c, m));
        var missing := MissingCity(Elements(w), n, m);
        assert missing !in w;
      }
    }
  }

  /** A set inside at most m < n values misses one of the n cities. */
  lemma MissingCity(s: set<nat>, n: nat, m: nat) returns (d: nat)
    requires m < n
    requires exists t: seq<nat> :: |t| == m && s <= Elements(t)
    ensures d < n && d !in s
  {
    var t: seq<nat> :| |t| == m && s <= Elements(t);
    ElementsCard(t);
    SubsetCard(s, Elements(t));
    SubsetCard(s * Cities(n), Cities(n));
    assert s * Cities(n) <= s;
    SubsetCard(s * Cities(n), s);
    assert Cities(n) - s != {};
    d :| d in Cities(n) - s;
  }

  lemma {:induction false} ElementsCard(s: seq<nat>)
    ensures |Elements(s)| <= |s|
  {
    if s != [] {
      var n := |s| - 1;
      ElementsCard(s[..n]);
      assert Elements(s) == Elements(s[..n]) + {s[n]} by {
        assert s == s[..n] + [s[n]];
      }
    }
  }

  /** Along a permutation, if the walk from one city covers all cities,
      so does the walk from every city: the permutation is one cycle. */
  lemma SingleCycle(next: seq<nat>, c0: nat, c: nat)
    requires IsPermutation(next) && c0 < |next| && c < |next|
    requires CoversAll(next, c0)
    ensures CoversAll(next, c)
  {
    var n := |next|;
    CoversAllIffDistinct(next, c0);
    assert c in Walk(next, c0, n);
    var a :| 0 <= a < n && Walk(next, c0, n)[a] == c;
    var w := Walk(next, c, n);
    forall i, j | 0 <= i < j < n
      ensures w[i] != w[j]
    {
      NoEarlyReturn(next, c0, j - i);
      ShiftedApart(next, c0, a, c, i, j);
    }
    CoversAllIffDistinct(next, c);
  }

  /** A walk of n distinct cities does not return to its start early. */
  lemma NoEarlyReturn(next: seq<nat>, c: nat, k: nat)
    requires Closed(next) && c < |next| && 0 < k < |next|
    requires Distinct(Walk(next, c, |next|))
    ensures Iter(next, c, k) != c
  {
    var w := Walk(next, c, |next|);
    assert w[0] != w[k];
  }

  /** Shifting a walk that does not return to its start within j - i
      steps keeps its i-th and j-th cities apart. */
  lemma ShiftedApart(next: seq<nat>, c0: nat, a: nat, c: nat, i: nat, j: nat)
    requires IsPermutation(next) && c0 < |next| && i < j
    requires c == Iter(next, c0, a)
    requires Iter(next, c0, j - i) != c0
    ensures Iter(next, c, i) != Iter(next, c, j)
  {
    if Iter(next, c, i) == Iter(next, c, j) {
      BackStep(next, c, i, j);
      IterAdd(next, c0, a, j - i);
      BackStep(next, c0, a, a + (j - i));
    }
  }

  // ---------------------------------------------------------------
  // Orbits: the cities a walk reaches
  // ---------------------------------------------------------------

  /** City c lies on the cycle through f. */
  predicate InOrbit(next: seq<nat>, f: nat, c: nat)
    requires Closed(next) && f < |next|
  {
    c in Walk(next, f, |next|)
  }

  /** Every point of a walk along a permutation lies on the orbit of its
      start. */
  lemma IterInOrbit(next: seq<nat>, f: nat, a: nat)
    requires IsPermutation(next) && f < |next|
    ensures InOrbit(next, f, Iter(next, f, a))
  {
    var m := ReturnTime(next, f);
    Periodic(next, f, m, a);
    var k :| 0 <= k < m && Walk(next, f, m)[k] == Iter(next, f, a);
    assert Walk(next, f, |next|)[k] == Iter(next, f, a);
  }

  lemma SelfInOrbit(next: seq<nat>, f: nat)
    requires Closed(next) && f < |next|
    ensures InOrbit(next, f, f)
  {
    assert Walk(next, f, |next|)[0] == f;
  }

  lemma OrbitTransitive(next: seq<nat>, f: nat, c: nat, d: nat)
    requires IsPermutation(next) && f < |next| && c < |next|
    requires InOrbit(next, f, c) && InOrbit(next, c, d)
    ensures InOrbit(next, f, d)
  {
    var n := |next|;
    var a :| 0 <= a < n && Walk(next, f, n)[a] == c;
    var b :| 0 <= b < n && Walk(next, c, n)[b] == d;
    IterAdd(next, f, a, b);
    IterInOrbit(next, f, a + b);
  }

  lemma OrbitSymmetric(next: seq<nat>, f: nat, c: nat)
    requires IsPermutation(next) && f < |next| && c < |next|
    requires InOrbit(next, f, c)
    ensures InOrbit(next, c, f)
  {
    var n := |next|;
    var a :| 0 <= a < n && Walk(next, f, n)[a] == c;
    var m := ReturnTime(next, f);
    Periodic(next, f, m, a);
    var a' :| 0 <= a' < m && Walk(next, f, m)[a'] == c;
    IterAdd(next, f, a', m - a');
    IterInOrbit(next, c, m - a');
  }

  /** The orbit of f is closed under the successor map. */
  lemma OrbitStep(next: seq<nat>, f: nat, c: nat)
    requires IsPermutation(next) && f < |next| && c < |next|
    requires InOrbit(next, f, c)
    ensures InOrbit(next, f, next[c])
  {
    IterInOrbit(next, c, 1);
    assert Iter(next, c, 1) == next[c];
    OrbitTransitive(next, f, c, next[c]);
  }

  /** Once the walk from f is back at f after m steps, its first m
      cities are the whole orbit. */
  lemma ReturnOrbit(next: seq<nat>, f: nat, m: nat)
    requires IsPermutation(next) && f < |next|
    requires 1 <= m <= |next| && Iter(next, f, m) == f
    ensures forall c :: InOrbit(next, f, c) <==> c in Walk(next, f, m)
  {
    var n := |next|;
    forall c
      ensures InOrbit(next, f, c) <==> c in Walk(next, f, m)
    {
      if InOrbit(next, f, c) {
        var a :| 0 <= a < n && Walk(next, f, n)[a] == c;
        Periodic(next, f, m, a);
      }
      if c in Walk(next, f, m) {
        var a :| 0 <= a < m && Walk(next, f, m)[a] == c;
        assert Walk(next, f, n)[a] == c;
      }
    }
  }
}
