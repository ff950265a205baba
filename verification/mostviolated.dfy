/** The branching rule of `xpress/examples/mostviolated.py`: among the
    candidate columns pick the one whose presolved LP value is farthest
    from an integer, and split its domain at that value. */
module MostViolated {
  import opened Wrappers
  import opened Numeric

  /** The two-way branch handed back to the optimizer: branch 0 puts the
      upper bound `upper` on `col`, branch 1 the lower bound `lower`. */
  datatype Branch = Branch(col: nat, upper: int, lower: int)

  /** Distance from v to the nearest integer. */
  function Fractionality(v: real): (d: real)
    ensures 0.0 <= d <= 0.5
    ensures d == 0.0 <==> v == Floor(v) as real
  {
    CeilFromFloor(v);
    Min(Ceil(v) as real - v, v - Floor(v) as real)
  }

  /** The rule's test: the distance beats the tolerance and is positive
      (the running best starts at 0). */
  predicate Candidate(dsol: seq<real>, col: nat, tol: real)
    requires col < |dsol|
  {
    Fractionality(dsol[col]) > tol && Fractionality(dsol[col]) > 0.0
  }

  /** Position p of colind holds the first of the largest distances, and
      that distance passes the test. */
  predicate BestAt(dsol: seq<real>, colind: seq<nat>, tol: real, p: int)
    requires forall k :: 0 <= k < |colind| ==> colind[k] < |dsol|
  {
    && 0 <= p < |colind|
    && Candidate(dsol, colind[p], tol)
    && (forall k :: 0 <= k < p ==> Fractionality(dsol[colind[k]]) < Fractionality(dsol[colind[p]]))
    && (forall k :: p < k < |colind| ==> Fractionality(dsol[colind[k]]) <= Fractionality(dsol[colind[p]]))
  }

  /** `varselectioncb` without the solver: scan the candidate columns in
      order, keep the first of the largest distances above the tolerance,
      and branch on it with floor/ceil bounds; `None` when no column
      qualifies. */
  method SelectBranch(dsol: seq<real>, colind: seq<nat>, tol: real) returns (b: Option<Branch>)
    requires forall k :: 0 <= k < |colind| ==> colind[k] < |dsol|
    ensures b.None? <==> forall k :: 0 <= k < |colind| ==> !Candidate(dsol, colind[k], tol)
    ensures b.Some? ==> exists p :: BestAt(dsol, colind, tol, p) && colind[p] == b.value.col
    ensures b.Some? ==> b.value.upper == Floor(dsol[b.value.col]) && b.value.lower == Ceil(dsol[b.value.col])
    ensures b.Some? ==> b.value.lower == b.value.upper + 1
  {
    var branchcol := -1;
    var greatdist := 0.0;
    ghost var best := 0;
    for i := 0 to |colind|
      invariant branchcol == -1 ==> greatdist == 0.0 && forall k :: 0 <= k < i ==> !Candidate(dsol, colind[k], tol)
      invariant branchcol != -1 ==>
        && 0 <= best < i && branchcol == colind[best]
        && Candidate(dsol, colind[best], tol) && greatdist == Fractionality(dsol[colind[best]])
        && (forall k :: 0 <= k < best ==> Fractionality(dsol[colind[k]]) < greatdist)
        && (forall k :: best < k < i ==> Fractionality(dsol[colind[k]]) <= greatdist)
    {
      var dist := Fractionality(dsol[colind[i]]);
      if dist > tol && dist > greatdist {
        branchcol := colind[i];
        greatdist := dist;
        best := i;
      }
    }
    if branchcol >= 0 {
      var v := dsol[branchcol];
      assert BestAt(dsol, colind, tol, best);
      CeilFromFloor(v);
      b := Some(Branch(branchcol, Floor(v), Ceil(v)));
    } else {
      b := None;
    }
  }

  /** At most one position can be the first of the largest distances, so
      the rule's choice is determined by the data. */
  lemma BestAtUnique(dsol: seq<real>, colind: seq<nat>, tol: real, p: int, q: int)
    requires forall k :: 0 <= k < |colind| ==> colind[k] < |dsol|
    requires BestAt(dsol, colind, tol, p) && BestAt(dsol, colind, tol, q)
    ensures p == q
  {
  }
}
