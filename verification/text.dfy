/** The pieces of Python's string handling the two file readers rely
    on: `str.split()` with no argument, `str.strip()`, and the
    conversions `int(s)` and `float(s)` of decimal literals. */
module Text {
  import opened Wrappers

  /** The characters `str.isspace()` accepts, which `split()` and
      `strip()` break on: space, tab, the line breaks, the four
      information separators, and the Unicode spaces and separators. */
  predicate IsSpace(c: char)
  {
    c == ' ' || c == '\t' || c == '\n' || c == '\r' || c == '\U{0B}' || c == '\U{0C}'
    || c == '\U{1C}' || c == '\U{1D}' || c == '\U{1E}' || c == '\U{1F}'
    || c == '\U{85}' || c == '\U{A0}' || c == '\U{1680}' || '\U{2000}' <= c <= '\U{200A}'
    || c == '\U{2028}' || c == '\U{2029}' || c == '\U{202F}' || c == '\U{205F}' || c == '\U{3000}'
  }

  predicate NoSpace(s: string)
  {
    forall k :: 0 <= k < |s| ==> !IsSpace(s[k])
  }

  predicate IsDigit(c: char)
  {
    '0' <= c <= '9'
  }

  predicate AllDigits(s: string)
  {
    forall k :: 0 <= k < |s| ==> IsDigit(s[k])
  }

  // ---------------------------------------------------------------
  // str.split()
  // ---------------------------------------------------------------

  /** The length of the run of non-space characters at the front. */
  function WordLength(s: string): (n: nat)
    ensures n <= |s|
    ensures NoSpace(s[..n])
    ensures n < |s| ==> IsSpace(s[n])
  {
    if s == [] || IsSpace(s[0]) then 0 else 1 + WordLength(s[1..])
  }

  /** `s.split()`: the maximal runs of non-space characters, in order. */
  function Split(s: string): (words: seq<string>)
    ensures forall k :: 0 <= k < |words| ==> words[k] != [] && NoSpace(words[k])
    decreases |s|
  {
    if s == [] then []
    else if IsSpace(s[0]) then Split(s[1..])
    else
      var n := WordLength(s);
      [s[..n]] + Split(s[n..])
  }

  /** The words joined by single spaces. */
  function Join(words: seq<string>): string
  {
    if words == [] then []
    else if |words| == 1 then words[0]
    else words[0] + " " + Join(words[1..])
  }

  lemma {:induction false} WordLengthOfWord(w: string, rest: string)
    requires NoSpace(w)
    requires rest == [] || IsSpace(rest[0])
    ensures WordLength(w + rest) == |w|
  {
    if w != [] {
      assert (w + rest)[1..] == w[1..] + rest;
      WordLengthOfWord(w[1..], rest);
    }
  }

  lemma {:induction false} SplitSpaceFirst(rest: string)
    ensures Split(" " + rest) == Split(rest)
  {
    assert (" " + rest)[1..] == rest;
  }

  /** Splitting undoes joining: nonempty words without spaces come back
      unchanged. */
  lemma {:induction false} SplitJoin(words: seq<string>)
    requires forall k :: 0 <= k < |words| ==> words[k] != [] && NoSpace(words[k])
    ensures Split(Join(words)) == words
  {
    if words == [] {
    } else if |words| == 1 {
      var w := words[0];
      WordLengthOfWord(w, []);
      assert w + [] == w;
      assert w[|w|..] == [];
    } else {
      var w := words[0];
      var rest := " " + Join(words[1..]);
      var s := w + rest;
      assert Join(words) == s;
      WordLengthOfWord(w, rest);
      assert s[..|w|] == w;
      assert s[|w|..] == rest;
      SplitSpaceFirst(Join(words[1..]));
      SplitJoin(words[1..]);
      assert words == [w] + words[1..];
    }
  }

  // ---------------------------------------------------------------
  // str.strip()
  // ---------------------------------------------------------------

  /** The index of the first non-space character at or after i, or |s|. */
  function FrontEnd(s: string, i: nat): (j: nat)
    requires i <= |s|
    ensures i <= j <= |s|
    ensures j < |s| ==> !IsSpace(s[j])
    ensures forall k :: i <= k < j ==> IsSpace(s[k])
    decreases |s| - i
  {
    if i < |s| && IsSpace(s[i]) then FrontEnd(s, i + 1) else i
  }

  /** The index just past the last non-space character before j, or 0. */
  function BackEnd(s: string, j: nat): (e: nat)
    requires j <= |s|
    ensures e <= j
    ensures e > 0 ==> !IsSpace(s[e - 1])
    ensures forall k :: e <= k < j ==> IsSpace(s[k])
  {
    if j > 0 && IsSpace(s[j - 1]) then BackEnd(s, j - 1) else j
  }

  /** `s.strip()`: the string without leading and trailing spaces. */
  function Strip(s: string): (r: string)
    ensures r == [] || (!IsSpace(r[0]) && !IsSpace(r[|r| - 1]))
  {
    var a := FrontEnd(s, 0);
    var b := BackEnd(s, |s|);
    if b <= a then [] else s[a..b]
  }

  lemma StripUnchanged(s: string)
    requires s != [] && !IsSpace(s[0]) && !IsSpace(s[|s| - 1])
    ensures Strip(s) == s
  {
    assert s[0..|s|] == s;
  }

  // ---------------------------------------------------------------
  // int(s) and float(s)
  // ---------------------------------------------------------------

  function DigitValue(c: char): nat
    requires IsDigit(c)
  {
    (c as int - '0' as int) as nat
  }

  /** The value of a string of decimal digits, most significant first. */
  function DigitsValue(ds: string): nat
    requires AllDigits(ds)
  {
    if ds == [] then 0 else 10 * DigitsValue(ds[..|ds| - 1]) + DigitValue(ds[|ds| - 1])
  }

  /** `int(s)` for a string without surrounding spaces: an optional sign
      followed by at least one decimal digit; anything else is the
      `ValueError` Python raises, carrying the text. */
  function ParseInt(s: string): Result<int, string>
  {
    var neg := s != [] && s[0] == '-';
    var digits := if s != [] && (s[0] == '-' || s[0] == '+') then s[1..] else s;
    if digits == [] || !AllDigits(digits) then Failure(s)
    else if neg then Success(-(DigitsValue(digits) as int))
    else Success(DigitsValue(digits))
  }

  function Pow10(k: nat): (p: nat)
    ensures p >= 1
  {
    if k == 0 then 1 else 10 * Pow10(k - 1)
  }

  /** The unsigned decimal `a.b`, `a.`, `.b` or `a`, with at least one
      digit. */
  function ParseUnsignedDecimal(s: string): Option<real>
  {
    var dot := DotIndex(s);
    var whole := s[..dot];
    var frac := if dot < |s| then s[dot + 1..] else [];
    if whole == [] && frac == [] then None
    else if !AllDigits(whole) || !AllDigits(frac) then None
    else Some(DigitsValue(whole) as real + DigitsValue(frac) as real / Pow10(|frac|) as real)
  }

  /** The index of the first '.', or |s| when there is none. */
  function DotIndex(s: string): (i: nat)
    ensures i <= |s|
    ensures i < |s| ==> s[i] == '.'
    ensures forall k :: 0 <= k < i ==> s[k] != '.'
  {
    if s == [] then 0 else if s[0] == '.' then 0 else 1 + DotIndex(s[1..])
  }

  /** `float(s)` for plain decimal literals: surrounding spaces are
      ignored, then an optional sign and an unsigned decimal. */
  function ParseFloat(s: string): Result<real, string>
  {
    var t := Strip(s);
    var neg := t != [] && t[0] == '-';
    var body := if t != [] && (t[0] == '-' || t[0] == '+') then t[1..] else t;
    match ParseUnsignedDecimal(body)
    case None => Failure(s)
    case Some(v) => Success(if neg then -v else v)
  }

  /** The decimal digits of n, without leading zeros ("0" for zero). */
  function Show(n: nat): (s: string)
    ensures s != [] && AllDigits(s)
    decreases n
  {
    if n < 10 then [('0' as int + n) as char] else Show(n / 10) + [('0' as int + n % 10) as char]
  }

  lemma {:induction false} ShowValue(n: nat)
    ensures DigitsValue(Show(n)) == n
    decreases n
  {
    var s := Show(n);
    if n >= 10 {
      ShowValue(n / 10);
      assert s[..|s| - 1] == Show(n / 10);
    }
  }

  /** `int` reads back what decimal printing writes, with either sign. */
  lemma ParseShow(n: nat)
    ensures ParseInt(Show(n)) == Success(n as int)
    ensures n > 0 ==> ParseInt("-" + Show(n)) == Success(-(n as int))
  {
    ShowValue(n);
    assert ("-" + Show(n))[1..] == Show(n);
  }

  lemma NoDot(s: string)
    requires AllDigits(s)
    ensures DotIndex(s) == |s|
  {
  }


  lemma UnsignedOfDigits(s: string)
    requires s != [] && AllDigits(s)
    ensures ParseUnsignedDecimal(s) == Some(DigitsValue(s) as real)
  {
    NoDot(s);
    assert s[..|s|] == s;
  }

  lemma IntOfDigits(s: string)
    requires s != [] && AllDigits(s)
    ensures ParseInt(s) == Success(DigitsValue(s) as int)
    ensures ParseInt("-" + s) == Success(-(DigitsValue(s) as int))
  {
    assert IsDigit(s[0]);
    assert ("-" + s)[1..] == s;
  }

  lemma FloatOfDigits(s: string)
    requires s != [] && AllDigits(s)
    ensures ParseFloat(s) == Success(DigitsValue(s) as real)
  {
    assert IsDigit(s[0]) && IsDigit(s[|s| - 1]);
    StripUnchanged(s);
    UnsignedOfDigits(s);
  }
}
