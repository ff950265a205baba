/** The DIMACS CNF reading of the SAT example: the header scan of
    `read_sat_instance`, the literal mapping of `get_disjunctions` and
    the clause start offsets `create_and_solve_model_addgencons` passes
    to `addgencons`. The file comes in as its list of lines. */
module GenconsSat {
  import opened Wrappers
  import opened Text

  /** What makes the reader stop: an `IndexError` on a missing token, the
      exit on a header that is not `cnf`, a `ValueError` from `int`, or an
      `IndexError` on a variable beyond the declared count. */
  datatype SatError =
    | MissingToken(line: nat)
    | NotCnf(line: nat)
    | BadInteger(token: string)
    | NoSuchVariable(val: int)

  /** `(n_vars, n_clauses, lines[count:])`. */
  datatype Header = Header(nvars: int, nclauses: int, body: seq<string>)

  /** A literal over the binary variables `x`: variable v itself, or its
      negation (`nx[v]` or `1 - x[v]`). */
  datatype Literal = Pos(v: nat) | Neg(v: nat)

  // ---------------------------------------------------------------
  // read_sat_instance
  // ---------------------------------------------------------------

  predicate IsComment(line: string)
  {
    var tokens := Split(line);
    tokens != [] && tokens[0] == "c"
  }

  /** The `p cnf <vars> <clauses>` line at index i, checked field by
      field in the order Python touches them. */
  function ParseHeaderLine(lines: seq<string>, i: nat, count: nat): (r: Result<Header, SatError>)
    requires i < |lines| && count < |lines|
    ensures var tokens := Split(lines[i]);
      r.Success? <==> |tokens| >= 4 && tokens[1] == "cnf" && ParseInt(tokens[2]).Success? && ParseInt(tokens[3]).Success?
    ensures var tokens := Split(lines[i]);
      r.Success? ==> (r.value.nvars == ParseInt(tokens[2]).value && r.value.nclauses == ParseInt(tokens[3]).value
                      && r.value.body == lines[count + 1..])
    ensures |Split(lines[i])| >= 2 && Split(lines[i])[1] != "cnf" ==> r == Failure(NotCnf(i))
  {
    var tokens := Split(lines[i]);
    if |tokens| < 2 then Failure(MissingToken(i))
    else if tokens[1] != "cnf" then Failure(NotCnf(i))
    else if |tokens| < 3 then Failure(MissingToken(i))
    else match ParseInt(tokens[2])
      case Failure(t) => Failure(BadInteger(t))
      case Success(nvars) =>
        if |tokens| < 4 then Failure(MissingToken(i))
        else match ParseInt(tokens[3])
          case Failure(t) => Failure(BadInteger(t))
          case Success(nclauses) => Success(Header(nvars, nclauses, lines[count + 1..]))
  }

  /** The loop of `read_sat_instance` from line i, with `count` lines
      counted so far: comment lines are counted and skipped, the first
      `p` line is the header, and any other line is passed over without
      being counted. */
  function ScanHeader(lines: seq<string>, i: nat, count: nat): Result<Header, SatError>
    requires count <= i <= |lines|
    decreases |lines| - i
  {
    if i == |lines| then Success(Header(0, 0, lines[count..]))
    else
      var tokens := Split(lines[i]);
      if tokens == [] then Failure(MissingToken(i))
      else if tokens[0] == "c" then ScanHeader(lines, i + 1, count + 1)
      else if tokens[0] == "p" then ParseHeaderLine(lines, i, count)
      else ScanHeader(lines, i + 1, count)
  }

  /** The header scan of `read_sat_instance`, with a for loop over the
      lines. */
  method ReadSatInstance(lines: seq<string>) returns (r: Result<Header, SatError>)
    ensures r == ScanHeader(lines, 0, 0)
  {
    var count := 0;
    var i := 0;
    while i < |lines|
      invariant count <= i <= |lines|
      invariant ScanHeader(lines, i, count) == ScanHeader(lines, 0, 0)
    {
      var tokens := Split(lines[i]);
      if tokens == [] {
        return Failure(MissingToken(i));
      }
      if tokens[0] == "c" {
        count := count + 1;
      } else if tokens[0] == "p" {
        return ParseHeaderLine(lines, i, count);
      }
      i := i + 1;
    }
    return Success(Header(0, 0, lines[count..]));
  }

  /** A file made of comment lines, a well-formed header and the clause
      lines yields the declared counts and exactly the clause lines. */
  lemma {:induction false} HeaderAfterComments(lines: seq<string>, k: nat, i: nat, nvars: string, nclauses: string)
    requires k < |lines| && i <= k
    requires forall j :: i <= j < k ==> IsComment(lines[j])
    requires Split(lines[k]) == ["p", "cnf", nvars, nclauses]
    requires ParseInt(nvars).Success? && ParseInt(nclauses).Success?
    ensures ScanHeader(lines, i, i)
         == Success(Header(ParseInt(nvars).value, ParseInt(nclauses).value, lines[k + 1..]))
    decreases k - i
  {
    if i < k {
      assert IsComment(lines[i]);
      HeaderAfterComments(lines, k, i + 1, nvars, nclauses);
    }
  }

  /** A header whose format field is not `cnf` stops the reader, however
      many comment lines precede it. */
  lemma {:induction false} NotCnfRejected(lines: seq<string>, k: nat, i: nat)
    requires k < |lines| && i <= k
    requires forall j :: i <= j < k ==> IsComment(lines[j])
    requires var tokens := Split(lines[k]); |tokens| >= 2 && tokens[0] == "p" && tokens[1] != "cnf"
    ensures ScanHeader(lines, i, i) == Failure(NotCnf(k))
    decreases k - i
  {
    if i < k {
      assert IsComment(lines[i]);
      NotCnfRejected(lines, k, i + 1);
    }
  }

  /** The number of comment lines. */
  function Comments(lines: seq<string>): (c: nat)
    ensures c <= |lines|
  {
    if lines == [] then 0
    else Comments(lines[..|lines| - 1]) + if IsComment(lines[|lines| - 1]) then 1 else 0
  }

  lemma CommentsStep(lines: seq<string>, i: nat)
    requires i < |lines|
    ensures Comments(lines[..i + 1]) == Comments(lines[..i]) + if IsComment(lines[i]) then 1 else 0
  {
    assert lines[..i + 1][..i] == lines[..i];
  }

  /** Without a header line the reader declares nothing and returns the
      lines after as many lines as there are comments. */
  lemma {:induction false} NoHeader(lines: seq<string>, i: nat)
    requires i <= |lines|
    requires forall j :: 0 <= j < |lines| ==> var tokens := Split(lines[j]); tokens != [] && tokens[0] != "p"
    ensures ScanHeader(lines, i, Comments(lines[..i]))
         == Success(Header(0, 0, lines[Comments(lines)..]))
    decreases |lines| - i
  {
    if i == |lines| {
      assert lines[..i] == lines;
    } else {
      var _ := Comments(lines[..i + 1]);
      CommentsStep(lines, i);
      NoHeader(lines, i + 1);
    }
  }

  // ---------------------------------------------------------------
  // get_disjunctions
  // ---------------------------------------------------------------

  /** The literal a nonzero DIMACS value names: v > 0 is variable v - 1,
      v < 0 the negation of variable -v - 1; a variable beyond the
      `nvars` declared ones is an `IndexError`. */
  function LiteralOf(val: int, nvars: nat): Result<Literal, SatError>
    requires val != 0
  {
    if val > 0 then
      if val - 1 < nvars then Success(Pos(val - 1)) else Failure(NoSuchVariable(val))
    else
      if -val - 1 < nvars then Success(Neg(-val - 1)) else Failure(NoSuchVariable(val))
  }

  /** The DIMACS value that names a literal. */
  function ValueOf(l: Literal): (val: int)
    ensures val != 0
  {
    match l
    case Pos(v) => v + 1
    case Neg(v) => -(v + 1)
  }

  /** The mapping of values to literals is one to one: it inverts
      `ValueOf` on the declared variables, and accepts exactly the values
      that name one of them. */
  lemma LiteralRoundTrip(l: Literal, val: int, nvars: nat)
    requires val != 0
    ensures l.v < nvars ==> LiteralOf(ValueOf(l), nvars) == Success(l)
    ensures LiteralOf(val, nvars).Success? ==> ValueOf(LiteralOf(val, nvars).value) == val
    ensures LiteralOf(val, nvars).Success? <==> (if val > 0 then val else -val) <= nvars
  {
  }

  /** The inner loop of `get_disjunctions` from token j on, with the
      literals `acc` collected so far; zeros are skipped. */
  function ClauseFrom(tokens: seq<string>, nvars: nat, j: nat, acc: seq<Literal>): Result<seq<Literal>, SatError>
    requires j <= |tokens|
    decreases |tokens| - j
  {
    if j == |tokens| then Success(acc)
    else match ParseInt(tokens[j])
      case Failure(t) => Failure(BadInteger(t))
      case Success(val) =>
        if val == 0 then ClauseFrom(tokens, nvars, j + 1, acc)
        else match LiteralOf(val, nvars)
          case Failure(e) => Failure(e)
          case Success(l) => ClauseFrom(tokens, nvars, j + 1, acc + [l])
  }

  /** The disjunction of one line. */
  function Clause(line: string, nvars: nat): Result<seq<Literal>, SatError>
  {
    ClauseFrom(Split(line), nvars, 0, [])
  }

  /** The outer loop of `get_disjunctions` from line i on. */
  function DisjunctionsFrom(lines: seq<string>, nvars: nat, i: nat, acc: seq<seq<Literal>>): Result<seq<seq<Literal>>, SatError>
    requires i <= |lines|
    decreases |lines| - i
  {
    if i == |lines| then Success(acc)
    else match Clause(lines[i], nvars)
      case Failure(e) => Failure(e)
      case Success(d) => DisjunctionsFrom(lines, nvars, i + 1, acc + [d])
  }

  /** `get_disjunctions` with its two nested for loops; `nvars` is the
      length of `x`. */
  method GetDisjunctions(lines: seq<string>, nvars: nat) returns (r: Result<seq<seq<Literal>>, SatError>)
    ensures r == DisjunctionsFrom(lines, nvars, 0, [])
  {
    var disjunctions := [];
    for i := 0 to |lines|
      invariant DisjunctionsFrom(lines, nvars, i, disjunctions) == DisjunctionsFrom(lines, nvars, 0, [])
    {
      var tokens := Split(lines[i]);
      var disjunction := [];
      for j := 0 to |tokens|
        invariant ClauseFrom(tokens, nvars, j, disjunction) == Clause(lines[i], nvars)
      {
        var val := ParseInt(tokens[j]);
        if val.Failure? {
          return Failure(BadInteger(val.error));
        }
        if val.value != 0 {
          var lit := LiteralOf(val.value, nvars);
          if lit.Failure? {
            return Failure(lit.error);
          }
          disjunction := disjunction + [lit.value];
        }
      }
      disjunctions := disjunctions + [disjunction];
    }
    return Success(disjunctions);
  }

  /** The DIMACS values that name a list of literals. */
  function Values(lits: seq<Literal>): (vals: seq<int>)
    ensures |vals| == |lits|
  {
    seq(|lits|, k requires 0 <= k < |lits| => ValueOf(lits[k]))
  }

  /** The values of a line without its zeros. */
  function NonZero(vals: seq<int>): seq<int>
  {
    if vals == [] then [] else (if vals[0] != 0 then [vals[0]] else []) + NonZero(vals[1..])
  }

  /** The literals the in-range values of a line name, zeros skipped. */
  function LiteralsOf(vals: seq<int>, nvars: nat): seq<Literal>
    requires forall k :: 0 <= k < |vals| ==> -(nvars as int) <= vals[k] <= nvars
  {
    if vals == [] then []
    else (if vals[0] == 0 then [] else [LiteralOf(vals[0], nvars).value]) + LiteralsOf(vals[1..], nvars)
  }

  lemma ClauseFromStep(tokens: seq<string>, nvars: nat, j: nat, acc: seq<Literal>, val: int)
    requires j < |tokens| && ParseInt(tokens[j]) == Success(val)
    requires -(nvars as int) <= val <= nvars
    ensures val == 0 ==> ClauseFrom(tokens, nvars, j, acc) == ClauseFrom(tokens, nvars, j + 1, acc)
    ensures val != 0 ==> (LiteralOf(val, nvars).Success?
      && ClauseFrom(tokens, nvars, j, acc) == ClauseFrom(tokens, nvars, j + 1, acc + [LiteralOf(val, nvars).value]))
  {
  }

  /** A line of integers within the declared variables never fails, and
      appends the literals its nonzero values name. */
  lemma {:induction false} ClauseFromValues(tokens: seq<string>, vals: seq<int>, nvars: nat, j: nat, acc: seq<Literal>)
    requires j <= |tokens| == |vals|
    requires forall k :: 0 <= k < |tokens| ==> ParseInt(tokens[k]) == Success(vals[k])
    requires forall k :: 0 <= k < |vals| ==> -(nvars as int) <= vals[k] <= nvars
    ensures ClauseFrom(tokens, nvars, j, acc) == Success(acc + LiteralsOf(vals[j..], nvars))
    decreases |tokens| - j
  {
    if j == |tokens| {
      assert vals[j..] == [];
      assert acc + [] == acc;
    } else {
      var val := vals[j];
      ClauseFromStep(tokens, nvars, j, acc, val);
      assert vals[j..][1..] == vals[j + 1..];
      if val == 0 {
        ClauseFromValues(tokens, vals, nvars, j + 1, acc);
        assert LiteralsOf(vals[j..], nvars) == LiteralsOf(vals[j + 1..], nvars);
      } else {
        var l := LiteralOf(val, nvars).value;
        ClauseFromValues(tokens, vals, nvars, j + 1, acc + [l]);
        assert LiteralsOf(vals[j..], nvars) == [l] + LiteralsOf(vals[j + 1..], nvars);
        assert acc + [l] + LiteralsOf(vals[j + 1..], nvars) == acc + LiteralsOf(vals[j..], nvars);
      }
    }
  }

  /** Read back as DIMACS values, the literals of a line are the line
      without its zeros: one literal per nonzero value, in order. */
  lemma {:induction false} LiteralsValues(vals: seq<int>, nvars: nat)
    requires forall k :: 0 <= k < |vals| ==> -(nvars as int) <= vals[k] <= nvars
    ensures Values(LiteralsOf(vals, nvars)) == NonZero(vals)
  {
    if vals != [] {
      LiteralsValues(vals[1..], nvars);
      if vals[0] != 0 {
        var l := LiteralOf(vals[0], nvars).value;
        assert Values([l] + LiteralsOf(vals[1..], nvars)) == [vals[0]] + Values(LiteralsOf(vals[1..], nvars));
      }
    }
  }

  /** The values of a line that parses, within the declared variables,
      come back as its disjunction. */
  lemma ClauseValues(line: string, vals: seq<int>, nvars: nat)
    requires |Split(line)| == |vals|
    requires forall k :: 0 <= k < |vals| ==> ParseInt(Split(line)[k]) == Success(vals[k])
    requires forall k :: 0 <= k < |vals| ==> -(nvars as int) <= vals[k] <= nvars
    ensures Clause(line, nvars).Success?
    ensures Values(Clause(line, nvars).value) == NonZero(vals)
  {
    ClauseFromValues(Split(line), vals, nvars, 0, []);
    assert vals[0..] == vals;
    LiteralsValues(vals, nvars);
  }

  lemma DisjunctionsFromStep(lines: seq<string>, nvars: nat, i: nat, acc: seq<seq<Literal>>)
    requires i < |lines|
    ensures Clause(lines[i], nvars).Failure? ==> DisjunctionsFrom(lines, nvars, i, acc) == Failure(Clause(lines[i], nvars).error)
    ensures Clause(lines[i], nvars).Success? ==>
      DisjunctionsFrom(lines, nvars, i, acc) == DisjunctionsFrom(lines, nvars, i + 1, acc + [Clause(lines[i], nvars).value])
  {
  }

  /** The reading succeeds exactly when every line does. */
  lemma {:induction false} AllLinesRead(lines: seq<string>, nvars: nat, i: nat, acc: seq<seq<Literal>>)
    requires i <= |lines|
    ensures DisjunctionsFrom(lines, nvars, i, acc).Success?
        <==> forall k :: i <= k < |lines| ==> Clause(lines[k], nvars).Success?
    decreases |lines| - i
  {
    if i < |lines| {
      DisjunctionsFromStep(lines, nvars, i, acc);
      if Clause(lines[i], nvars).Success? {
        AllLinesRead(lines, nvars, i + 1, acc + [Clause(lines[i], nvars).value]);
      }
    }
  }

  /** A successful reading gives one disjunction per line, the k-th being
      line k's. */
  lemma OnePerLine(lines: seq<string>, nvars: nat, i: nat, acc: seq<seq<Literal>>)
    requires i <= |lines|
    requires DisjunctionsFrom(lines, nvars, i, acc).Success?
    ensures var ds := DisjunctionsFrom(lines, nvars, i, acc).value;
      |ds| == |acc| + |lines| - i && ds[..|acc|] == acc &&
      forall k :: i <= k < |lines| ==> Clause(lines[k], nvars) == Success(ds[|acc| + k - i])
  {
    KeepsPrefix(lines, nvars, i, acc);
    forall k | i <= k < |lines|
      ensures Clause(lines[k], nvars) == Success(DisjunctionsFrom(lines, nvars, i, acc).value[|acc| + k - i])
    {
      LineAt(lines, nvars, i, acc, k);
    }
  }

  /** Line k's disjunction sits at position |acc| + k - i of the result. */
  lemma {:induction false} LineAt(lines: seq<string>, nvars: nat, i: nat, acc: seq<seq<Literal>>, k: nat)
    requires i <= k < |lines|
    requires DisjunctionsFrom(lines, nvars, i, acc).Success?
    ensures |acc| + k - i < |DisjunctionsFrom(lines, nvars, i, acc).value|
    ensures Clause(lines[k], nvars) == Success(DisjunctionsFrom(lines, nvars, i, acc).value[|acc| + k - i])
    decreases |lines| - i
  {
    DisjunctionsFromStep(lines, nvars, i, acc);
    var d := Clause(lines[i], nvars).value;
    KeepsPrefix(lines, nvars, i + 1, acc + [d]);
    if k == i {
      var ds := DisjunctionsFrom(lines, nvars, i + 1, acc + [d]).value;
      assert ds[..|acc| + 1][|acc|] == d;
    } else {
      LineAt(lines, nvars, i + 1, acc + [d], k);
    }
  }

  /** The clauses read so far stay at the front, and one is added per line. */
  lemma {:induction false} KeepsPrefix(lines: seq<string>, nvars: nat, i: nat, acc: seq<seq<Literal>>)
    requires i <= |lines|
    requires DisjunctionsFrom(lines, nvars, i, acc).Success?
    ensures var ds := DisjunctionsFrom(lines, nvars, i, acc).value;
      |ds| == |acc| + |lines| - i && ds[..|acc|] == acc
    decreases |lines| - i
  {
    if i < |lines| {
      DisjunctionsFromStep(lines, nvars, i, acc);
      var d := Clause(lines[i], nvars).value;
      KeepsPrefix(lines, nvars, i + 1, acc + [d]);
      var ds := DisjunctionsFrom(lines, nvars, i, acc).value;
      assert ds[..|acc|] == ds[..|acc| + 1][..|acc|];
    }
  }

  // ---------------------------------------------------------------
  // col_start in create_and_solve_model_addgencons
  // ---------------------------------------------------------------

  /** `[item for disjunction in disjunctions for item in disjunction]`. */
  function Flatten<T>(ds: seq<seq<T>>): seq<T>
  {
    if ds == [] then [] else Flatten(ds[..|ds| - 1]) + ds[|ds| - 1]
  }

  /** The running totals of the clause lengths: where each clause starts
      in the flattened column list, and where the last one ends. */
  function Starts<T>(ds: seq<seq<T>>): (s: seq<nat>)
    ensures |s| == |ds| + 1 && s[0] == 0 && s[|ds|] == |Flatten(ds)|
  {
    if ds == [] then [0] else Starts(ds[..|ds| - 1]) + [|Flatten(ds)|]
  }

  /** The loop that builds `col_start`. */
  method ColStart<T>(ds: seq<seq<T>>) returns (colStart: seq<nat>)
    ensures colStart == Starts(ds)
  {
    colStart := [];
    var curCount := 0;
    for i := 0 to |ds|
      invariant colStart + [curCount] == Starts(ds[..i])
    {
      assert ds[..i + 1][..i] == ds[..i];
      colStart := colStart + [curCount];
      curCount := curCount + |ds[i]|;
    }
    colStart := colStart + [curCount];
    assert ds[..|ds|] == ds;
  }

  lemma StartsPrefix<T>(ds: seq<seq<T>>, i: nat)
    requires 0 < |ds| && i < |ds|
    ensures Starts(ds)[i] == Starts(ds[..|ds| - 1])[i]
  {
  }

  /** `col_start` delimits the clauses: clause i occupies the columns
      col_start[i] .. col_start[i + 1] - 1 of the flattened list. */
  lemma {:induction false} StartsDelimit<T>(ds: seq<seq<T>>, i: nat)
    requires i < |ds|
    ensures Starts(ds)[i] <= Starts(ds)[i + 1] <= |Flatten(ds)|
    ensures Flatten(ds)[Starts(ds)[i]..Starts(ds)[i + 1]] == ds[i]
  {
    var init := ds[..|ds| - 1];
    var f := Flatten(ds);
    assert f == Flatten(init) + ds[|ds| - 1];
    StartsPrefix(ds, i);
    if i == |ds| - 1 {
      assert f[|Flatten(init)|..] == ds[i];
    } else {
      StartsPrefix(ds, i + 1);
      StartsDelimit(init, i);
      assert f[..|Flatten(init)|] == Flatten(init);
    }
  }

  // ---------------------------------------------------------------
  // What the general constraints of the addgencons model state
  // ---------------------------------------------------------------

  /** The columns `addgencons` receives: `x` or `nx` for each literal of
      the flattened disjunctions, then the clause resultants `y`. */
  datatype Column = X(v: nat) | NX(v: nat) | Y(j: nat)

  function ColumnOf(l: Literal): Column
  {
    match l
    case Pos(v) => X(v)
    case Neg(v) => NX(v)
  }

  /** `cols` after the `y` columns are appended. */
  function Columns(ds: seq<seq<Literal>>, nclauses: nat): (cols: seq<Column>)
    ensures |cols| == |Flatten(ds)| + nclauses
  {
    var f := Flatten(ds);
    seq(|f|, k requires 0 <= k < |f| => ColumnOf(f[k])) + seq(nclauses, j requires 0 <= j < nclauses => Y(j))
  }

  /** A literal holds at the 0/1 point x. */
  predicate LitTrue(x: seq<bool>, l: Literal)
  {
    l.v < |x| && (if l.Pos? then x[l.v] else !x[l.v])
  }

  predicate ClauseTrue(x: seq<bool>, d: seq<Literal>)
  {
    exists k :: 0 <= k < |d| && LitTrue(x, d[k])
  }

  /** The CNF formula holds at x: what `And(Or(...), ...) == 1` states. */
  predicate Satisfied(x: seq<bool>, ds: seq<seq<Literal>>)
  {
    forall i :: 0 <= i < |ds| ==> ClauseTrue(x, ds[i])
  }

  /** The value of a column at a point where `x[i] + nx[i] == 1`. */
  predicate ColumnTrue(x: seq<bool>, y: seq<bool>, c: Column)
  {
    match c
    case X(v) => v < |x| && x[v]
    case NX(v) => v < |x| && !x[v]
    case Y(j) => j < |y| && y[j]
  }

  /** The OR general constraint over cols[a..b]. */
  predicate OrOf(x: seq<bool>, y: seq<bool>, cols: seq<Column>, a: nat, b: nat)
  {
    exists k :: a <= k < b && k < |cols| && ColumnTrue(x, y, cols[k])
  }

  /** The AND general constraint over cols[a..]. */
  predicate AndOf(x: seq<bool>, y: seq<bool>, cols: seq<Column>, a: nat)
  {
    forall k :: a <= k < |cols| ==> ColumnTrue(x, y, cols[k])
  }

  lemma ColumnAt(ds: seq<seq<Literal>>, nclauses: nat, i: nat, k: nat)
    requires i < |ds| && k < |ds[i]|
    ensures Starts(ds)[i] + k < Starts(ds)[i + 1] <= |Flatten(ds)|
    ensures Columns(ds, nclauses)[Starts(ds)[i] + k] == ColumnOf(ds[i][k])
  {
    StartsDelimit(ds, i);
    var s := Starts(ds);
    assert Flatten(ds)[s[i]..s[i + 1]][k] == ds[i][k];
  }

  lemma OrWitness(ds: seq<seq<Literal>>, nclauses: nat, x: seq<bool>, y: seq<bool>, i: nat, m: nat)
    requires i < |ds|
    requires Starts(ds)[i] <= m < Starts(ds)[i + 1] && m < |Columns(ds, nclauses)|
    requires ColumnTrue(x, y, Columns(ds, nclauses)[m])
    ensures ClauseTrue(x, ds[i])
  {
    var s := Starts(ds);
    StartsDelimit(ds, i);
    var k := m - s[i];
    assert k < |ds[i]| by {
      assert |Flatten(ds)[s[i]..s[i + 1]]| == s[i + 1] - s[i];
    }
    ColumnAt(ds, nclauses, i, k);
    assert LitTrue(x, ds[i][k]);
  }

  /** The i-th OR constraint, over the columns col_start[i] ..
      col_start[i + 1] - 1, holds exactly when clause i does. */
  lemma OrIsClause(ds: seq<seq<Literal>>, nclauses: nat, x: seq<bool>, y: seq<bool>, i: nat)
    requires i < |ds|
    ensures Starts(ds)[i] <= Starts(ds)[i + 1] <= |Columns(ds, nclauses)|
    ensures OrOf(x, y, Columns(ds, nclauses), Starts(ds)[i], Starts(ds)[i + 1]) <==> ClauseTrue(x, ds[i])
  {
    var s := Starts(ds);
    var cols := Columns(ds, nclauses);
    StartsDelimit(ds, i);
    if ClauseTrue(x, ds[i]) {
      var k :| 0 <= k < |ds[i]| && LitTrue(x, ds[i][k]);
      ColumnAt(ds, nclauses, i, k);
      assert ColumnTrue(x, y, cols[s[i] + k]);
    }
    if OrOf(x, y, cols, s[i], s[i + 1]) {
      var m :| s[i] <= m < s[i + 1] && m < |cols| && ColumnTrue(x, y, cols[m]);
      OrWitness(ds, nclauses, x, y, i, m);
    }
  }

  /** When every disjunction read has its `y` (as many lines as declared
      clauses), the AND constraint covers exactly the `y` columns. */
  lemma AndIsAllClauses(ds: seq<seq<Literal>>, x: seq<bool>, y: seq<bool>)
    requires |y| == |ds|
    ensures Starts(ds)[|ds|] <= |Columns(ds, |ds|)|
    ensures AndOf(x, y, Columns(ds, |ds|), Starts(ds)[|ds|]) <==> forall j :: 0 <= j < |y| ==> y[j]
  {
    var cols := Columns(ds, |ds|);
    var a := Starts(ds)[|ds|];
    assert forall j :: 0 <= j < |ds| ==> cols[a + j] == Y(j);
    if AndOf(x, y, cols, a) {
      forall j | 0 <= j < |y|
        ensures y[j]
      {
        assert ColumnTrue(x, y, cols[a + j]);
      }
    }
    if forall j :: 0 <= j < |y| ==> y[j] {
      forall k | a <= k < |cols|
        ensures ColumnTrue(x, y, cols[k])
      {
        assert cols[a + (k - a)] == Y(k - a);
      }
    }
  }

  /** The addgencons model states the formula: at a point where every
      resultant `y[i]` equals its OR constraint, the AND constraint, and
      so `is_satisfiable`, holds exactly when x satisfies every clause. */
  lemma GenconsStateCnf(ds: seq<seq<Literal>>, x: seq<bool>, y: seq<bool>)
    requires |y| == |ds|
    requires forall i :: 0 <= i < |ds| ==> y[i] == OrOf(x, y, Columns(ds, |ds|), Starts(ds)[i], Starts(ds)[i + 1])
    ensures AndOf(x, y, Columns(ds, |ds|), Starts(ds)[|ds|]) <==> Satisfied(x, ds)
  {
    forall i | 0 <= i < |ds|
      ensures y[i] == ClauseTrue(x, ds[i])
    {
      OrIsClause(ds, |ds|, x, y, i);
    }
    AndIsAllClauses(ds, x, y);
  }
}
