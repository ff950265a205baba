/** The character-cursor reader of the pseudo-Boolean example: the OPB
    file is its text and a read position, the helpers move the position
    with one-character reads and one-step seeks back, and the readers of
    the objective and the constraints loop over them.

    Each reader is specified by a function of the text and the starting
    position (`...From`), whose result carries the position the reader
    leaves behind; the methods on `OpbFile` below are proved against
    those functions. Where Python would loop forever at the end of the
    text the functions answer `Diverges`. */
module GenconsPbo {
  import opened Wrappers
  import opened Text

  /** Why a read stops: a seek to position -1, a loop that never ends at
      the end of the text, a missing `x`, a variable without index
      digits, a term without variables (the last two are the checks the
      reader evidently means to make), or a `ValueError` from `float`. */
  datatype PboError =
    | NegativeSeek
    | Diverges
    | NoVariable(at: nat)
    | NoIndex(at: nat)
    | EmptyTerm(at: nat)
    | BadNumber(text: string)

  /** A value read, and the position the reader leaves behind. */
  datatype Parsed<+T> = Parsed(value: T, pos: nat)

  /** `Term`: a coefficient times the product of its variables, each
      `x<i>` or `~x<i>`. */
  datatype Term = Term(constant: real, conjunction: seq<string>)

  /** `Constraint`: terms, sense ("", ">=", "<=" or "=") and right-hand
      side (None until one is read). */
  datatype Constraint = Constraint(terms: seq<Term>, sense: string, rhs: Option<real>)

  /** What `get_objective` returns: the sense (`None` without an
      objective) and the terms. */
  datatype Objective = Objective(sense: Option<string>, terms: seq<Term>)

  /** The characters `read_constant` stops at. */
  predicate ConstantStop(c: char)
  {
    c == 'x' || c == '~' || c == ' ' || c == ';'
  }

  /** Without the ' ' character (other white space may occur). */
  predicate NoBlank(s: string)
  {
    forall k :: 0 <= k < |s| ==> s[k] != ' '
  }

  /** The characters `read_conj` stops at. */
  predicate ConjStop(c: char)
  {
    c == '+' || c == '-' || c == '=' || c == '<' || c == '>' || c == ';'
  }

  // ---------------------------------------------------------------
  // Scans
  // ---------------------------------------------------------------

  /** The first position at or after p that does not hold a space. */
  function SkipSpaces(t: string, p: nat): (k: nat)
    requires p <= |t|
    ensures p <= k <= |t|
    ensures k < |t| ==> t[k] != ' '
    ensures forall j :: p <= j < k ==> t[j] == ' '
    decreases |t| - p
  {
    if p < |t| && t[p] == ' ' then SkipSpaces(t, p + 1) else p
  }

  /** The first position at or after p holding a character `read_constant`
      stops at. */
  function ConstantEnd(t: string, p: nat): (k: nat)
    requires p <= |t|
    ensures p <= k <= |t|
    ensures k < |t| ==> ConstantStop(t[k])
    ensures forall j :: p <= j < k ==> !ConstantStop(t[j])
    decreases |t| - p
  {
    if p < |t| && !ConstantStop(t[p]) then ConstantEnd(t, p + 1) else p
  }

  /** The first position at or after p holding a space. */
  function SpaceFrom(t: string, p: nat): (k: nat)
    requires p <= |t|
    ensures p <= k <= |t|
    ensures k < |t| ==> t[k] == ' '
    ensures forall j :: p <= j < k ==> t[j] != ' '
    decreases |t| - p
  {
    if p < |t| && t[p] != ' ' then SpaceFrom(t, p + 1) else p
  }

  /** Where `readline` leaves the cursor: after the next line break, or
      at the end of the text. */
  function LineEnd(t: string, p: nat): (k: nat)
    requires p <= |t|
    ensures p <= k <= |t|
    ensures forall j :: p <= j < k - 1 ==> t[j] != '\n'
    ensures k < |t| ==> p < k && t[k - 1] == '\n'
    decreases |t| - p
  {
    if p == |t| then p else if t[p] == '\n' then p + 1 else LineEnd(t, p + 1)
  }

  // ---------------------------------------------------------------
  // ignore_ws, read_constant, read_variable
  // ---------------------------------------------------------------

  /** `ignore_ws`: read past the spaces, then step back onto the
      character that ended them. At the end of the text the read
      returns nothing and the step back lands on the last character; in
      an empty text it is a seek to -1. */
  function IgnoreWsFrom(t: string, p: nat): (r: Result<nat, PboError>)
    requires p <= |t|
    ensures r.Failure? <==> t == []
    ensures r.Success? ==> r.value < |t|
    ensures r.Success? && p < |t| ==> p <= r.value
    ensures r.Success? && p == |t| ==> r.value == |t| - 1
    ensures r.Success? ==> forall j :: p <= j < r.value ==> t[j] == ' '
    ensures r.Success? ==> t[r.value] != ' ' || forall j :: p <= j < |t| ==> t[j] == ' '
  {
    var k := SkipSpaces(t, p);
    if k < |t| then Success(k)
    else if |t| == 0 then Failure(NegativeSeek)
    else Success(|t| - 1)
  }

  /** `read_constant`: the characters up to the next x, ~, space or ;
      (left unread), as a number, or 1.0 when there are none. Without
      such a character the loop keeps appending the empty read. */
  function ReadConstantFrom(t: string, p: nat): (r: Result<Parsed<real>, PboError>)
    requires p <= |t|
    ensures r.Success? ==> p <= r.value.pos < |t| && ConstantStop(t[r.value.pos])
    ensures r.Success? ==> forall j :: p <= j < r.value.pos ==> !ConstantStop(t[j])
    ensures r == Failure(Diverges) <==> forall j :: p <= j < |t| ==> !ConstantStop(t[j])
  {
    var k := ConstantEnd(t, p);
    if k == |t| then Failure(Diverges)
    else if k == p then Success(Parsed(1.0, k))
    else match ParseFloat(t[p..k])
      case Failure(s) => Failure(BadNumber(s))
      case Success(v) => Success(Parsed(v, k))
  }

  /** `read_variable` as written: an `x`, then everything up to the next
      space (left unread). Its check `index == ' '` can never hold, since
      the index stops before the first space. */
  function ReadVariableAsWritten(t: string, p: nat): (r: Result<Parsed<string>, PboError>)
    requires p <= |t|
  {
    if p == |t| || t[p] != 'x' then Failure(NoVariable(p))
    else
      var k := SpaceFrom(t, p + 1);
      if k == |t| then Failure(Diverges)
      else
        var index := t[p + 1..k];
        if index == " " then Failure(NoIndex(k)) else Success(Parsed("x" + index, k))
  }

  /** `read_variable` with the evidently intended check that at least
      one index character follows the `x`. */
  function ReadVariableFrom(t: string, p: nat): (r: Result<Parsed<string>, PboError>)
    requires p <= |t|
    ensures r.Success? ==> p < r.value.pos < |t| && t[r.value.pos] == ' '
    ensures r.Success? ==> r.value.value == t[p..r.value.pos]
    ensures r.Success? ==> |r.value.value| >= 2 && r.value.value[0] == 'x' && NoBlank(r.value.value)
    ensures (p == |t| || t[p] != 'x') ==> r == Failure(NoVariable(p))
  {
    if p == |t| || t[p] != 'x' then Failure(NoVariable(p))
    else
      var k := SpaceFrom(t, p + 1);
      if k == |t| then Failure(Diverges)
      else
        var index := t[p + 1..k];
        if index == [] then Failure(NoIndex(k))
        else
          assert "x" + index == t[p..k];
          Success(Parsed("x" + index, k))
  }

  /** `read_constant` reads back a written coefficient: the digits of
      n in front of a character it stops at, or nothing, read as 1.0. */
  lemma ConstantRoundTrip(n: nat, c: char, rest: string)
    requires ConstantStop(c)
    ensures ReadConstantFrom(Show(n) + [c] + rest, 0) == Success(Parsed(n as real, |Show(n)|))
    ensures ReadConstantFrom([c] + rest, 0) == Success(Parsed(1.0, 0))
  {
    var ds := Show(n);
    var t := ds + [c] + rest;
    assert forall j :: 0 <= j < |ds| ==> t[j] == ds[j] && IsDigit(ds[j]);
    ConstantEndAt(t, 0, |ds|);
    assert t[0..|ds|] == ds;
    FloatOfDigits(ds);
    ShowValue(n);
  }

  lemma ConstantEndAt(t: string, p: nat, k: nat)
    requires p <= k < |t| && ConstantStop(t[k])
    requires forall j :: p <= j < k ==> !ConstantStop(t[j])
    ensures ConstantEnd(t, p) == k
  {
  }

  /** `read_variable` reads back a written variable: `x`, an index
      without spaces, then a space. */
  lemma VariableRoundTrip(index: string, rest: string)
    requires index != [] && NoBlank(index)
    ensures ReadVariableFrom("x" + index + " " + rest, 0) == Success(Parsed("x" + index, |index| + 1))
  {
    var t := "x" + index + " " + rest;
    assert forall j :: 1 <= j < |index| + 1 ==> t[j] == index[j - 1];
    SpaceFromAt(t, 1, |index| + 1);
    assert t[1..|index| + 1] == index;
  }

  lemma SpaceFromAt(t: string, p: nat, k: nat)
    requires p <= k < |t| && t[k] == ' '
    requires forall j :: p <= j < k ==> t[j] != ' '
    ensures SpaceFrom(t, p) == k
  {
  }

  /** The check of `read_variable` never fires: a lone `x` before a space
      is accepted as the variable "x". */
  lemma LoneXAccepted()
    ensures ReadVariableAsWritten("x ", 0) == Success(Parsed("x", 1))
    ensures ReadVariableFrom("x ", 0) == Failure(NoIndex(1))
  {
    assert SpaceFrom("x ", 1) == 1;
    assert "x " [1..1] == [];
    assert "x" + [] == "x";
  }

  /** Wherever the corrected check does not fire, both readings agree:
      the correction only rejects variables without an index. */
  lemma ReadVariableCorrection(t: string, p: nat)
    requires p <= |t|
    ensures ReadVariableFrom(t, p) != ReadVariableAsWritten(t, p)
        <==> p < |t| && t[p] == 'x' && SpaceFrom(t, p + 1) == p + 1 < |t|
  {
  }

  // ---------------------------------------------------------------
  // read_conj, read_term
  // ---------------------------------------------------------------

  /** The names `read_conj` collects: `x<i>`, or `~x<i>` for a negated
      variable. */
  predicate IsLiteralName(s: string)
  {
    NoBlank(s) && ((|s| >= 2 && s[0] == 'x') || (|s| >= 3 && s[0] == '~' && s[1] == 'x'))
  }

  /** One round of the loop of `read_conj` from p: skip spaces, then
      stop in front of + - = < > ; (`None`), or read `~` and a variable,
      or step back and read a variable. */
  function ConjItemFrom(t: string, p: nat): (r: Result<Parsed<Option<string>>, PboError>)
    requires p <= |t|
    ensures r.Success? && r.value.value.None? ==>
      r.value.pos < |t| && ConjStop(t[r.value.pos]) && (p < |t| ==> p <= r.value.pos)
    ensures r.Success? && r.value.value.Some? ==>
      p < r.value.pos < |t| && IsLiteralName(r.value.value.value)
  {
    match IgnoreWsFrom(t, p)
    case Failure(e) => Failure(e)
    case Success(q) =>
      if ConjStop(t[q]) then Success(Parsed(None, q))
      else
        var negated := t[q] == '~';
        match ReadVariableFrom(t, if negated then q + 1 else q)
        case Failure(e) => Failure(e)
        case Success(v) =>
          var name := if negated then "~" + v.value else v.value;
          assert IsLiteralName(name);
          Success(Parsed(Some(name), v.pos))
  }

  /** `read_conj` from p, with the names `acc` collected so far. */
  function ReadConjFrom(t: string, p: nat, acc: seq<string>): (r: Result<Parsed<seq<string>>, PboError>)
    requires p <= |t|
    ensures r.Success? ==> r.value.pos < |t| && ConjStop(t[r.value.pos])
    ensures r.Success? ==> |acc| <= |r.value.value| && r.value.value[..|acc|] == acc
    ensures r.Success? ==> forall k :: |acc| <= k < |r.value.value| ==> IsLiteralName(r.value.value[k])
    ensures r.Success? && p < |t| ==> p <= r.value.pos
    ensures r.Success? && |acc| < |r.value.value| ==> p < r.value.pos
    decreases |t| - p
  {
    match ConjItemFrom(t, p)
    case Failure(e) => Failure(e)
    case Success(Parsed(None, q)) => Success(Parsed(acc, q))
    case Success(Parsed(Some(name), e)) =>
      var rest := ReadConjFrom(t, e, acc + [name]);
      if rest.Success? then
        PrefixOfExtension(rest.value.value, acc, name);
        rest
      else rest
  }

  /** `read_term` as written: constant, spaces, conjunction. Its check
      `conj is []` compares with a fresh list by identity and is never
      true, so a term without variables is accepted. */
  function ReadTermAsWritten(t: string, p: nat): (r: Result<Parsed<Term>, PboError>)
    requires p <= |t|
  {
    match ReadConstantFrom(t, p)
    case Failure(e) => Failure(e)
    case Success(c) =>
      match IgnoreWsFrom(t, c.pos)
      case Failure(e) => Failure(e)
      case Success(q) =>
        match ReadConjFrom(t, q, [])
        case Failure(e) => Failure(e)
        case Success(conj) => Success(Parsed(Term(c.value, conj.value), conj.pos))
  }

  /** `read_term` with the evidently intended rejection of a term
      without variables. A term read moves the cursor forward and leaves
      it on the + - = < > or ; that ends the term. */
  function ReadTermFrom(t: string, p: nat): (r: Result<Parsed<Term>, PboError>)
    requires p <= |t|
    ensures r.Success? ==> p < r.value.pos < |t| && ConjStop(t[r.value.pos])
    ensures r.Success? ==> r.value.value.conjunction != []
    ensures r.Success? ==> forall k :: 0 <= k < |r.value.value.conjunction| ==> IsLiteralName(r.value.value.conjunction[k])
  {
    match ReadConstantFrom(t, p)
    case Failure(e) => Failure(e)
    case Success(c) =>
      match IgnoreWsFrom(t, c.pos)
      case Failure(e) => Failure(e)
      case Success(q) =>
        match ReadConjFrom(t, q, [])
        case Failure(e) => Failure(e)
        case Success(conj) =>
          if conj.value == [] then Failure(EmptyTerm(conj.pos))
          else Success(Parsed(Term(c.value, conj.value), conj.pos))
  }

  /** The check of `read_term` never fires: "3 ;" is read as the term
      3 times the empty product, which the corrected reader rejects. */
  lemma ConstantTermAccepted()
    ensures ReadTermAsWritten("3 ;", 0) == Success(Parsed(Term(3.0, []), 2))
    ensures ReadTermFrom("3 ;", 0) == Failure(EmptyTerm(2))
  {
    var t := "3 ;";
    assert ConstantEnd(t, 1) == 1;
    assert ConstantEnd(t, 0) == 1;
    assert t[0..1] == "3";
    FloatOfDigits("3");
    assert SkipSpaces(t, 2) == 2;
    assert SkipSpaces(t, 1) == 2;
  }

  /** The two readings of a term differ exactly on terms without
      variables. */
  lemma ReadTermCorrection(t: string, p: nat)
    requires p <= |t|
    ensures ReadTermFrom(t, p) != ReadTermAsWritten(t, p)
        <==> ReadTermAsWritten(t, p).Success? && ReadTermAsWritten(t, p).value.value.conjunction == []
  {
  }

  // ---------------------------------------------------------------
  // get_objective, get_constraint
  // ---------------------------------------------------------------

  function Min(a: nat, b: nat): nat
  {
    if a <= b then a else b
  }

  lemma PrefixOfExtension<T>(s: seq<T>, acc: seq<T>, x: T)
    requires |acc| + 1 <= |s| && s[..|acc| + 1] == acc + [x]
    ensures s[..|acc|] == acc
  {
    assert s[..|acc|] == s[..|acc| + 1][..|acc|];
  }

  /** The comment loop of `get_objective`: a line whose first character
      is `*` is skipped with `readline`. */
  function CommentsEnd(t: string, p: nat): (k: nat)
    requires p <= |t|
    ensures p <= k <= |t|
    ensures k < |t| ==> t[k] != '*'
    decreases |t| - p
  {
    if p < |t| && t[p] == '*' then CommentsEnd(t, LineEnd(t, p + 1)) else p
  }

  /** One round of the term loop of `get_objective` from p: skip spaces,
      then stop after `;` and the character that follows it (`None`), or
      step back and read a term. */
  function ObjectiveItemFrom(t: string, p: nat): (r: Result<Parsed<Option<Term>>, PboError>)
    requires p <= |t|
    ensures r.Success? ==> r.value.pos <= |t|
    ensures r.Success? && r.value.value.Some? ==> p < r.value.pos
  {
    match IgnoreWsFrom(t, p)
    case Failure(e) => Failure(e)
    case Success(q) =>
      if t[q] == ';' then Success(Parsed(None, Min(q + 2, |t|)))
      else
        match ReadTermFrom(t, q)
        case Failure(e) => Failure(e)
        case Success(term) => Success(Parsed(Some(term.value), term.pos))
  }

  /** The term loop of `get_objective` from p, with the terms `acc` read
      so far. */
  function ObjectiveTermsFrom(t: string, p: nat, acc: seq<Term>): (r: Result<Parsed<seq<Term>>, PboError>)
    requires p <= |t|
    ensures r.Success? ==> r.value.pos <= |t| && |acc| <= |r.value.value| && r.value.value[..|acc|] == acc
    decreases |t| - p
  {
    match ObjectiveItemFrom(t, p)
    case Failure(e) => Failure(e)
    case Success(Parsed(None, q)) => Success(Parsed(acc, q))
    case Success(Parsed(Some(term), q)) =>
      var rest := ObjectiveTermsFrom(t, q, acc + [term]);
      if rest.Success? then
        PrefixOfExtension(rest.value.value, acc, term);
        rest
      else rest
  }

  /** `get_objective` from p: after the comment lines, a line starting
      with `m` holds the three-character sense, a colon and the terms up
      to `;`; any other first character is consumed and there is no
      objective. */
  function GetObjectiveFrom(t: string, p: nat): (r: Result<Parsed<Objective>, PboError>)
    requires p <= |t|
    ensures r.Success? ==> r.value.pos <= |t|
    ensures r.Success? && r.value.value.sense.Some? ==>
      var sense := r.value.value.sense.value;
      1 <= |sense| <= 3 && sense[0] == 'm'
    ensures r.Success? && r.value.value.sense.None? ==> r.value.value.terms == []
  {
    var c := CommentsEnd(t, p);
    if c == |t| then Success(Parsed(Objective(None, []), c))
    else if t[c] != 'm' then Success(Parsed(Objective(None, []), c + 1))
    else
      var sense := "m" + t[c + 1..Min(c + 3, |t|)];
      match ObjectiveTermsFrom(t, Min(c + 4, |t|), [])
      case Failure(e) => Failure(e)
      case Success(terms) => Success(Parsed(Objective(Some(sense), terms.value), terms.pos))
  }

  /** The state `get_constraint` starts each constraint with. */
  const NoConstraint := Constraint([], "", None)

  /** The right-hand side after a sense character, read from p: for
      `>` and `<` the next character (the `=`) is skipped first, then the
      spaces, then the constant. */
  function RhsFrom(t: string, p: nat, skip: bool): (r: Result<Parsed<real>, PboError>)
    requires p <= |t|
    ensures r.Success? ==> r.value.pos < |t| && ConstantStop(t[r.value.pos])
    ensures r.Success? && 0 < p && !ConstantStop(t[p - 1]) ==> p <= r.value.pos
  {
    match IgnoreWsFrom(t, if skip then Min(p + 1, |t|) else p)
    case Failure(e) => Failure(e)
    case Success(s) => ReadConstantFrom(t, s)
  }

  /** Where a round of the loop of `get_constraint` leaves the reading:
      ended by a line break, or going on from `pos` with the constraint
      under way and the finished ones. */
  datatype Round =
    | EndOfConstraints(pos: nat)
    | NextRound(pos: nat, pending: Constraint, cons: seq<Constraint>)

  /** One round of the loop of `get_constraint` from p, with the
      constraint under way in `pending` and the finished ones in `cons`:
      a line break ends the reading, `;` emits the pending constraint and
      starts a new one, `*` skips a comment line, `>=`, `<=` and `=` set
      the sense and read the right-hand side, and anything else is a
      term. Every round that goes on moves forward, except a `;` or `*`
      read at the end of the text: that round returns to the end, and
      Python repeats it forever. */
  function ConstraintRound(t: string, p: nat, pending: Constraint, cons: seq<Constraint>): (r: Result<Round, PboError>)
    requires p <= |t|
    ensures r.Success? && r.value.EndOfConstraints? ==> r.value.pos <= |t|
    ensures r.Success? && r.value.NextRound? ==> p < r.value.pos <= |t|
    ensures r.Success? && r.value.NextRound? ==>
      r.value.cons == cons || r.value.cons == cons + [pending]
  {
    match IgnoreWsFrom(t, p)
    case Failure(e) => Failure(e)
    case Success(q) => RoundAt(t, p, q, pending, cons)
  }

  /** The rest of a round from p, once the spaces up to q are skipped. */
  function RoundAt(t: string, p: nat, q: nat, pending: Constraint, cons: seq<Constraint>): (r: Result<Round, PboError>)
    requires p <= |t| && q < |t|
    requires p < |t| ==> p <= q
    requires p == |t| ==> q == |t| - 1
    ensures r.Success? && r.value.EndOfConstraints? ==> r.value.pos <= |t|
    ensures r.Success? && r.value.NextRound? ==> p < r.value.pos <= |t|
    ensures r.Success? && r.value.NextRound? ==>
      r.value.cons == cons || r.value.cons == cons + [pending]
  {
    var ch := t[q];
    if ch == '\n' then Success(EndOfConstraints(q + 1))
    else if ch == ';' then
      if p == |t| then Failure(Diverges)
      else Success(NextRound(Min(q + 2, |t|), NoConstraint, cons + [pending]))
    else if ch == '*' then
      if p == |t| then Failure(Diverges)
      else Success(NextRound(LineEnd(t, q + 1), pending, cons))
    else if ch == '>' || ch == '<' || ch == '=' then SenseRound(t, q + 1, ch, pending, cons)
    else TermRound(t, q, pending, cons)
  }

  /** The round that read the sense character `ch`, from just after it. */
  function SenseRound(t: string, p: nat, ch: char, pending: Constraint, cons: seq<Constraint>): (r: Result<Round, PboError>)
    requires 0 < p <= |t| && t[p - 1] == ch
    requires ch == '>' || ch == '<' || ch == '='
    ensures r.Success? ==> r.value.NextRound? && p <= r.value.pos < |t| && r.value.cons == cons
  {
    var sense := if ch == '>' then ">=" else if ch == '<' then "<=" else "=";
    match RhsFrom(t, p, ch != '=')
    case Failure(e) => Failure(e)
    case Success(rhs) => Success(NextRound(rhs.pos, pending.(sense := sense, rhs := Some(rhs.value)), cons))
  }

  /** The round that found a term starting at p. */
  function TermRound(t: string, p: nat, pending: Constraint, cons: seq<Constraint>): (r: Result<Round, PboError>)
    requires p <= |t|
    ensures r.Success? ==> r.value.NextRound? && p < r.value.pos < |t| && r.value.cons == cons
  {
    match ReadTermFrom(t, p)
    case Failure(e) => Failure(e)
    case Success(term) => Success(NextRound(term.pos, pending.(terms := pending.terms + [term.value]), cons))
  }

  /** The loop of `get_constraint` from p. */
  function ConstraintsFrom(t: string, p: nat, pending: Constraint, cons: seq<Constraint>): (r: Result<Parsed<seq<Constraint>>, PboError>)
    requires p <= |t|
    ensures r.Success? ==> r.value.pos <= |t| && |cons| <= |r.value.value| && r.value.value[..|cons|] == cons
    decreases |t| - p
  {
    match ConstraintRound(t, p, pending, cons)
    case Failure(e) => Failure(e)
    case Success(EndOfConstraints(q)) => Success(Parsed(cons, q))
    case Success(NextRound(q, pending', cons')) =>
      var rest := ConstraintsFrom(t, q, pending', cons');
      if rest.Success? && cons' != cons then
        PrefixOfExtension(rest.value.value, cons, pending);
        rest
      else rest
  }

  /** A term as the corrected reader builds it: at least one variable,
      each `x<i>` or `~x<i>`. */
  predicate TermShape(term: Term)
  {
    term.conjunction != [] && forall k :: 0 <= k < |term.conjunction| ==> IsLiteralName(term.conjunction[k])
  }

  /** A constraint as `get_constraint` builds it: its sense is empty or
      one of the three the sense characters map to, a right-hand side is
      present exactly when a sense was read, and its terms are well
      formed. */
  predicate WellFormed(c: Constraint)
  {
    (c.sense == "" || c.sense == ">=" || c.sense == "<=" || c.sense == "=")
    && (c.sense == "" <==> c.rhs.None?)
    && forall k :: 0 <= k < |c.terms| ==> TermShape(c.terms[k])
  }

  predicate AllWellFormed(cs: seq<Constraint>)
  {
    forall k :: 0 <= k < |cs| ==> WellFormed(cs[k])
  }

  /** A round keeps the constraint under way and the finished ones well
      formed, and it finishes a constraint exactly when it reads `;`,
      starting the next one empty. */
  lemma RoundKeepsShape(t: string, p: nat, pending: Constraint, cons: seq<Constraint>)
    requires p <= |t| && WellFormed(pending) && AllWellFormed(cons)
    ensures var r := ConstraintRound(t, p, pending, cons);
      r.Success? && r.value.NextRound? ==> WellFormed(r.value.pending) && AllWellFormed(r.value.cons)
    ensures var r := ConstraintRound(t, p, pending, cons);
      r.Success? && r.value.NextRound? && r.value.cons != cons ==> r.value.pending == NoConstraint
  {
    var r := ConstraintRound(t, p, pending, cons);
    if r.Success? && r.value.NextRound? {
      var q := IgnoreWsFrom(t, p).value;
      var ch := t[q];
      if ch == ';' {
        assert r.value.cons == cons + [pending];
      } else if ch == '*' {
      } else if ch == '>' || ch == '<' || ch == '=' {
        assert r.value.pending.terms == pending.terms;
      } else {
        var term := ReadTermFrom(t, q).value.value;
        assert TermShape(term);
        assert r.value.pending.terms == pending.terms + [term];
      }
    }
  }

  /** Every constraint `get_constraint` returns is well formed. */
  lemma {:induction false} ConstraintsWellFormed(t: string, p: nat, pending: Constraint, cons: seq<Constraint>)
    requires p <= |t| && WellFormed(pending) && AllWellFormed(cons)
    ensures var r := ConstraintsFrom(t, p, pending, cons);
      r.Success? ==> AllWellFormed(r.value.value)
    decreases |t| - p
  {
    RoundKeepsShape(t, p, pending, cons);
    match ConstraintRound(t, p, pending, cons)
    case Failure(_) =>
    case Success(EndOfConstraints(_)) =>
    case Success(NextRound(q, pending', cons')) =>
      ConstraintsWellFormed(t, q, pending', cons');
  }

  /** Every term of the objective is well formed. */
  lemma {:induction false} ObjectiveWellFormed(t: string, p: nat, acc: seq<Term>)
    requires p <= |t| && forall k :: 0 <= k < |acc| ==> TermShape(acc[k])
    ensures var r := ObjectiveTermsFrom(t, p, acc);
      r.Success? ==> forall k :: 0 <= k < |r.value.value| ==> TermShape(r.value.value[k])
    decreases |t| - p
  {
    match ObjectiveItemFrom(t, p)
    case Failure(_) =>
    case Success(Parsed(None, _)) =>
    case Success(Parsed(Some(term), q)) =>
      var q' := IgnoreWsFrom(t, p).value;
      assert ReadTermFrom(t, q').value.value == term;
      ObjectiveWellFormed(t, q, acc + [term]);
  }

  /** Why `ConstraintsFrom` answers `Diverges` for a `;` or `*` read at
      the end: skipping spaces from the end lands on the last character,
      and after it the cursor is back at the end, so the next round is
      the same round. */
  lemma RoundAtEndRepeats(t: string)
    requires |t| > 0 && (t[|t| - 1] == ';' || t[|t| - 1] == '*')
    ensures IgnoreWsFrom(t, |t|) == Success(|t| - 1)
    ensures t[|t| - 1] == ';' ==> Min(|t| - 1 + 2, |t|) == |t|
    ensures t[|t| - 1] == '*' ==> LineEnd(t, |t|) == |t|
  {
  }

  /** The main block: the objective from the start, then the constraints
      from where it stopped. */
  function ReadOpb(t: string): Result<(Objective, seq<Constraint>), PboError>
  {
    match GetObjectiveFrom(t, 0)
    case Failure(e) => Failure(e)
    case Success(obj) =>
      match ConstraintsFrom(t, obj.pos, NoConstraint, [])
      case Failure(e) => Failure(e)
      case Success(cons) => Success((obj.value, cons.value))
  }

  // ---------------------------------------------------------------
  // The file object and the reader methods
  // ---------------------------------------------------------------

  /** An opened OPB file: its text and the read position. */
  class OpbFile {
    const text: string
    var pos: nat

    predicate Valid()
      reads this
    {
      pos <= |text|
    }

    constructor (text: string)
      ensures Valid() && this.text == text && pos == 0
    {
      this.text := text;
      pos := 0;
    }

    /** `read(n)`: up to n characters; nothing at the end of the text. */
    method Read(n: nat) returns (s: string)
      requires Valid()
      modifies this
      ensures Valid() && pos == Min(old(pos) + n, |text|) && s == text[old(pos)..pos]
    {
      var stop := Min(pos + n, |text|);
      s := text[pos..stop];
      pos := stop;
    }

    /** `move_back`, that is `seek(tell() - 1)`: one step back; at the
        start of the text the seek to -1 is refused. */
    method MoveBack() returns (ok: bool)
      requires Valid()
      modifies this
      ensures Valid() && ok == (old(pos) > 0) && pos == if ok then old(pos) - 1 else old(pos)
    {
      ok := pos > 0;
      if ok {
        pos := pos - 1;
      }
    }

    /** `readline`: past the next line break, or to the end of the text. */
    method ReadLine()
      requires Valid()
      modifies this
      ensures Valid() && pos == LineEnd(text, old(pos))
    {
      pos := LineEnd(text, pos);
    }
  }

  /** A method's answer and the file position it leaves, in the form the
      `...From` functions use. */
  function Outcome<T>(r: Result<T, PboError>, pos: nat): Result<Parsed<T>, PboError>
  {
    match r
    case Success(v) => Success(Parsed(v, pos))
    case Failure(e) => Failure(e)
  }

  method IgnoreWs(fh: OpbFile) returns (ok: bool)
    requires fh.Valid()
    modifies fh
    ensures fh.Valid()
    ensures IgnoreWsFrom(fh.text, old(fh.pos)) == if ok then Success(fh.pos) else Failure(NegativeSeek)
  {
    while true
      invariant fh.Valid() && old(fh.pos) <= fh.pos
      invariant SkipSpaces(fh.text, fh.pos) == SkipSpaces(fh.text, old(fh.pos))
      decreases |fh.text| - fh.pos
    {
      var ch := fh.Read(1);
      if ch != " " {
        ok := fh.MoveBack();
        return;
      }
    }
  }

  /** The loop of `read_constant`: the characters before the next x, ~,
      space or ;, which is left unread. */
  method ConstantText(fh: OpbFile) returns (r: Result<string, PboError>)
    requires fh.Valid()
    modifies fh
    ensures fh.Valid()
    ensures ConstantEnd(fh.text, old(fh.pos)) == |fh.text| ==> r == Failure(Diverges)
    ensures ConstantEnd(fh.text, old(fh.pos)) < |fh.text| ==>
      fh.pos == ConstantEnd(fh.text, old(fh.pos)) && r == Success(fh.text[old(fh.pos)..fh.pos])
  {
    var constant := "";
    while true
      invariant fh.Valid() && old(fh.pos) <= fh.pos
      invariant constant == fh.text[old(fh.pos)..fh.pos]
      invariant ConstantEnd(fh.text, fh.pos) == ConstantEnd(fh.text, old(fh.pos))
      decreases |fh.text| - fh.pos
    {
      var ch := fh.Read(1);
      if ch != "" && ConstantStop(ch[0]) {
        var _ := fh.MoveBack();
        assert ConstantEnd(fh.text, fh.pos) == fh.pos;
        return Success(constant);
      }
      if ch == "" {
        return Failure(Diverges);
      }
      constant := constant + ch;
    }
  }

  method ReadConstant(fh: OpbFile) returns (r: Result<real, PboError>)
    requires fh.Valid()
    modifies fh
    ensures fh.Valid()
    ensures ReadConstantFrom(fh.text, old(fh.pos)) == Outcome(r, fh.pos)
  {
    var constant := ConstantText(fh);
    if constant.Failure? {
      return Failure(constant.error);
    }
    if constant.value == "" {
      return Success(1.0);
    }
    var v := ParseFloat(constant.value);
    if v.Failure? {
      return Failure(BadNumber(v.error));
    }
    return Success(v.value);
  }

  method ReadVariable(fh: OpbFile) returns (r: Result<string, PboError>)
    requires fh.Valid()
    modifies fh
    ensures fh.Valid()
    ensures ReadVariableFrom(fh.text, old(fh.pos)) == Outcome(r, fh.pos)
  {
    var at := fh.pos;
    var ch := fh.Read(1);
    if ch != "x" {
      return Failure(NoVariable(at));
    }
    var index := "";
    while true
      invariant fh.Valid() && at + 1 <= fh.pos
      invariant index == fh.text[at + 1..fh.pos]
      invariant SpaceFrom(fh.text, fh.pos) == SpaceFrom(fh.text, at + 1)
      decreases |fh.text| - fh.pos
    {
      ch := fh.Read(1);
      if ch == " " {
        var _ := fh.MoveBack();
        break;
      }
      if ch == "" {
        return Failure(Diverges);
      }
      index := index + ch;
    }
    if index == "" {
      return Failure(NoIndex(fh.pos));
    }
    return Success("x" + index);
  }

  /** One round of the loop of `read_conj`. */
  method ConjItem(fh: OpbFile) returns (r: Result<Option<string>, PboError>)
    requires fh.Valid()
    modifies fh
    ensures fh.Valid()
    ensures ConjItemFrom(fh.text, old(fh.pos)) == Outcome(r, fh.pos)
  {
    var ok := IgnoreWs(fh);
    if !ok {
      return Failure(NegativeSeek);
    }
    var ch := fh.Read(1);
    if ch == "+" || ch == "-" || ch == "=" || ch == "<" || ch == ">" || ch == ";" {
      var _ := fh.MoveBack();
      return Success(None);
    }
    if ch == "~" {
      var v := ReadVariable(fh);
      if v.Failure? {
        return Failure(v.error);
      }
      return Success(Some("~" + v.value));
    }
    var _ := fh.MoveBack();
    var v := ReadVariable(fh);
    if v.Failure? {
      return Failure(v.error);
    }
    return Success(Some(v.value));
  }

  method ReadConj(fh: OpbFile) returns (r: Result<seq<string>, PboError>)
    requires fh.Valid()
    modifies fh
    ensures fh.Valid()
    ensures ReadConjFrom(fh.text, old(fh.pos), []) == Outcome(r, fh.pos)
  {
    var conj := [];
    while true
      invariant fh.Valid()
      invariant ReadConjFrom(fh.text, fh.pos, conj) == ReadConjFrom(fh.text, old(fh.pos), [])
      decreases |fh.text| - fh.pos
    {
      var item := ConjItem(fh);
      if item.Failure? {
        return Failure(item.error);
      }
      if item.value.None? {
        return Success(conj);
      }
      conj := conj + [item.value.value];
    }
  }

  method ReadTerm(fh: OpbFile) returns (r: Result<Term, PboError>)
    requires fh.Valid()
    modifies fh
    ensures fh.Valid()
    ensures ReadTermFrom(fh.text, old(fh.pos)) == Outcome(r, fh.pos)
  {
    var constant := ReadConstant(fh);
    if constant.Failure? {
      return Failure(constant.error);
    }
    var ok := IgnoreWs(fh);
    if !ok {
      return Failure(NegativeSeek);
    }
    var conj := ReadConj(fh);
    if conj.Failure? {
      return Failure(conj.error);
    }
    if conj.value == [] {
      return Failure(EmptyTerm(fh.pos));
    }
    return Success(Term(constant.value, conj.value));
  }

  /** The comment loop of `get_objective`: the character after the
      comment lines has been read. */
  method SkipComments(fh: OpbFile) returns (ch: string)
    requires fh.Valid()
    modifies fh
    ensures fh.Valid()
    ensures var c := CommentsEnd(fh.text, old(fh.pos));
      if c == |fh.text| then ch == "" && fh.pos == c else ch == [fh.text[c]] && fh.pos == c + 1
  {
    while true
      invariant fh.Valid() && old(fh.pos) <= fh.pos
      invariant CommentsEnd(fh.text, fh.pos) == CommentsEnd(fh.text, old(fh.pos))
      decreases |fh.text| - fh.pos
    {
      ch := fh.Read(1);
      if ch == "*" {
        fh.ReadLine();
      } else {
        return;
      }
    }
  }

  /** One round of the term loop of `get_objective`. */
  method ObjectiveItem(fh: OpbFile) returns (r: Result<Option<Term>, PboError>)
    requires fh.Valid()
    modifies fh
    ensures fh.Valid()
    ensures ObjectiveItemFrom(fh.text, old(fh.pos)) == Outcome(r, fh.pos)
  {
    ghost var t, p := fh.text, fh.pos;
    var ok := IgnoreWs(fh);
    if !ok {
      return Failure(NegativeSeek);
    }
    ghost var q := fh.pos;
    assert IgnoreWsFrom(t, p) == Success(q);
    var ch := fh.Read(1);
    assert ch == [t[q]];
    if ch == ";" {
      var _ := fh.Read(1);
      assert ObjectiveItemFrom(t, p) == Success(Parsed(None, Min(q + 2, |t|)));
      return Success(None);
    }
    var _ := fh.MoveBack();
    var term := ReadTerm(fh);
    assert ObjectiveItemFrom(t, p) == match ReadTermFrom(t, q)
      case Failure(e) => Failure(e)
      case Success(term) => Success(Parsed(Some(term.value), term.pos));
    if term.Failure? {
      return Failure(term.error);
    }
    return Success(Some(term.value));
  }

  /** The term loop of `get_objective`, up to and past the `;`. */
  method ObjectiveTerms(fh: OpbFile) returns (r: Result<seq<Term>, PboError>)
    requires fh.Valid()
    modifies fh
    ensures fh.Valid()
    ensures ObjectiveTermsFrom(fh.text, old(fh.pos), []) == Outcome(r, fh.pos)
  {
    var terms := [];
    while true
      invariant fh.Valid()
      invariant ObjectiveTermsFrom(fh.text, fh.pos, terms) == ObjectiveTermsFrom(fh.text, old(fh.pos), [])
      decreases |fh.text| - fh.pos
    {
      var term := ObjectiveItem(fh);
      if term.Failure? {
        return Failure(term.error);
      }
      if term.value.None? {
        return Success(terms);
      }
      terms := terms + [term.value.value];
    }
  }

  method GetObjective(fh: OpbFile) returns (r: Result<Objective, PboError>)
    requires fh.Valid()
    modifies fh
    ensures fh.Valid()
    ensures GetObjectiveFrom(fh.text, old(fh.pos)) == Outcome(r, fh.pos)
  {
    ghost var t, p := fh.text, fh.pos;
    ghost var c := CommentsEnd(t, p);
    var ch := SkipComments(fh);
    if ch != "m" {
      assert GetObjectiveFrom(t, p) == Success(Parsed(Objective(None, []), fh.pos));
      return Success(Objective(None, []));
    }
    var rest := fh.Read(2);
    var sense := ch + rest;
    assert sense == "m" + t[c + 1..Min(c + 3, |t|)];
    var _ := fh.Read(1);
    assert fh.pos == Min(c + 4, |t|);
    assert GetObjectiveFrom(t, p) == match ObjectiveTermsFrom(t, fh.pos, [])
      case Failure(e) => Failure(e)
      case Success(terms) => Success(Parsed(Objective(Some(sense), terms.value), terms.pos));
    var terms := ObjectiveTerms(fh);
    if terms.Failure? {
      return Failure(terms.error);
    }
    return Success(Objective(Some(sense), terms.value));
  }

  /** The right-hand side after a sense character: for `>` and `<` the
      `=` is read past first. */
  method ReadRhs(fh: OpbFile, skip: bool) returns (r: Result<real, PboError>)
    requires fh.Valid()
    modifies fh
    ensures fh.Valid()
    ensures RhsFrom(fh.text, old(fh.pos), skip) == Outcome(r, fh.pos)
  {
    if skip {
      var _ := fh.Read(1);
    }
    var ok := IgnoreWs(fh);
    if !ok {
      return Failure(NegativeSeek);
    }
    r := ReadConstant(fh);
  }

  /** The sense branch of a round of `get_constraint`. */
  method SenseStep(fh: OpbFile, ch: char, pending: Constraint, cons: seq<Constraint>) returns (r: Result<Round, PboError>)
    requires fh.Valid() && 0 < fh.pos && fh.text[fh.pos - 1] == ch
    requires ch == '>' || ch == '<' || ch == '='
    modifies fh
    ensures fh.Valid()
    ensures SenseRound(fh.text, old(fh.pos), ch, pending, cons) == r
    ensures r.Success? ==> fh.pos == r.value.pos
  {
    var sense := if ch == '>' then ">=" else if ch == '<' then "<=" else "=";
    var rhs := ReadRhs(fh, ch != '=');
    if rhs.Failure? {
      return Failure(rhs.error);
    }
    return Success(NextRound(fh.pos, pending.(sense := sense, rhs := Some(rhs.value)), cons));
  }

  /** The term branch of a round of `get_constraint`: step back over the
      character just read and read a term. */
  method TermStep(fh: OpbFile, pending: Constraint, cons: seq<Constraint>) returns (r: Result<Round, PboError>)
    requires fh.Valid() && 0 < fh.pos
    modifies fh
    ensures fh.Valid()
    ensures TermRound(fh.text, old(fh.pos) - 1, pending, cons) == r
    ensures r.Success? ==> fh.pos == r.value.pos
  {
    var _ := fh.MoveBack();
    var term := ReadTerm(fh);
    if term.Failure? {
      return Failure(term.error);
    }
    return Success(NextRound(fh.pos, pending.(terms := pending.terms + [term.value]), cons));
  }

  /** The rest of a round of `get_constraint` once the character `ch`
      after the spaces is read; the round began at p. */
  method RoundStep(fh: OpbFile, p: nat, ch: char, pending: Constraint, cons: seq<Constraint>) returns (r: Result<Round, PboError>)
    requires fh.Valid() && 0 < fh.pos && fh.text[fh.pos - 1] == ch && p <= |fh.text|
    requires p < |fh.text| ==> p < fh.pos
    requires p == |fh.text| ==> fh.pos == |fh.text|
    modifies fh
    ensures fh.Valid()
    ensures RoundAt(fh.text, p, old(fh.pos) - 1, pending, cons) == r
    ensures r.Success? ==> fh.pos == r.value.pos
  {
    if ch == '\n' {
      return Success(EndOfConstraints(fh.pos));
    } else if ch == ';' {
      if p == |fh.text| {
        return Failure(Diverges);
      }
      var _ := fh.Read(1);
      return Success(NextRound(fh.pos, NoConstraint, cons + [pending]));
    } else if ch == '*' {
      if p == |fh.text| {
        return Failure(Diverges);
      }
      fh.ReadLine();
      return Success(NextRound(fh.pos, pending, cons));
    } else if ch == '>' || ch == '<' || ch == '=' {
      r := SenseStep(fh, ch, pending, cons);
    } else {
      r := TermStep(fh, pending, cons);
    }
  }

  /** One round of the loop of `get_constraint`, on its variables
      `c_expr`, `c_sense`, `c_rhs` and `cons`. */
  method ConstraintStep(fh: OpbFile, pending: Constraint, cons: seq<Constraint>) returns (r: Result<Round, PboError>)
    requires fh.Valid()
    modifies fh
    ensures fh.Valid()
    ensures ConstraintRound(fh.text, old(fh.pos), pending, cons) == r
    ensures r.Success? ==> fh.pos == r.value.pos
  {
    var start := fh.pos;
    var ok := IgnoreWs(fh);
    if !ok {
      return Failure(NegativeSeek);
    }
    var s := fh.Read(1);
    r := RoundStep(fh, start, s[0], pending, cons);
  }

  method GetConstraint(fh: OpbFile) returns (r: Result<seq<Constraint>, PboError>)
    requires fh.Valid()
    modifies fh
    ensures fh.Valid()
    ensures ConstraintsFrom(fh.text, old(fh.pos), NoConstraint, []) == Outcome(r, fh.pos)
  {
    var cons := [];
    var pending := NoConstraint;
    while true
      invariant fh.Valid()
      invariant ConstraintsFrom(fh.text, fh.pos, pending, cons) == ConstraintsFrom(fh.text, old(fh.pos), NoConstraint, [])
      decreases |fh.text| - fh.pos
    {
      var round := ConstraintStep(fh, pending, cons);
      if round.Failure? {
        return Failure(round.error);
      }
      if round.value.EndOfConstraints? {
        return Success(cons);
      }
      pending, cons := round.value.pending, round.value.cons;
    }
  }

  /** The main block after the metadata line: the objective from the
      start of the file, then the constraints. */
  method ReadOpbFile(text: string) returns (r: Result<(Objective, seq<Constraint>), PboError>)
    ensures r == ReadOpb(text)
  {
    var fh := new OpbFile(text);
    var objective := GetObjective(fh);
    if objective.Failure? {
      return Failure(objective.error);
    }
    var constraints := GetConstraint(fh);
    if constraints.Failure? {
      return Failure(constraints.error);
    }
    return Success((objective.value, constraints.value));
  }
}
