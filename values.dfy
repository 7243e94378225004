/**
 * The literal values the compiler interns into its constant pool, and the
 * loose equality (`==` of JavaScript) the pool uses to find an existing entry.
 *
 * Numbers are integers here; JavaScript's IEEE-754 doubles are not modelled.
 * Converting a string to a number follows JavaScript's rules for strings that
 * are, after trimming white space, empty or an optionally signed run of
 * decimal digits; every other string converts to NaN, which equals nothing.
 */
module Values {
  import opened Wrappers

  datatype Value = Num(n: int) | Str(s: string) | Bool(b: bool)

  /**
   * The characters JavaScript trims before converting a string to a number
   * (StrWhiteSpaceChar of ECMA-262): tab, vertical tab, form feed, the byte
   * order mark, every space separator of Unicode category Zs (U+0020, U+00A0,
   * U+1680, U+2000 to U+200A, U+202F, U+205F, U+3000) and the four line
   * terminators.
   */
  predicate IsWhite(c: char) {
    || c == '\t' || c == '\U{000B}' || c == '\U{000C}' || c == '\U{FEFF}'
    || c == ' ' || c == '\U{00A0}' || c == '\U{1680}'
    || c == '\U{2000}' || c == '\U{2001}' || c == '\U{2002}' || c == '\U{2003}' || c == '\U{2004}' || c == '\U{2005}'
    || c == '\U{2006}' || c == '\U{2007}' || c == '\U{2008}' || c == '\U{2009}' || c == '\U{200A}'
    || c == '\U{202F}' || c == '\U{205F}' || c == '\U{3000}'
    || c == '\n' || c == '\r' || c == '\U{2028}' || c == '\U{2029}'
  }

  function TrimStart(s: string): (t: string)
    ensures |t| <= |s|
    ensures t == [] || !IsWhite(t[0])
  {
    if |s| > 0 && IsWhite(s[0]) then TrimStart(s[1..]) else s
  }

  function TrimEnd(s: string): (t: string)
    ensures |t| <= |s|
    ensures t == [] || !IsWhite(t[|t| - 1])
  {
    if |s| > 0 && IsWhite(s[|s| - 1]) then TrimEnd(s[..|s| - 1]) else s
  }

  predicate IsDigit(c: char) {
    '0' <= c <= '9'
  }

  predicate AllDigits(s: string) {
    forall i :: 0 <= i < |s| ==> IsDigit(s[i])
  }

  /** The value of a run of decimal digits, most significant first. */
  function DigitsValue(s: string): nat
    requires AllDigits(s)
  {
    if s == [] then 0 else DigitsValue(s[..|s| - 1]) * 10 + (s[|s| - 1] as int - '0' as int)
  }

  /** JavaScript's ToNumber on a string, restricted as described above; None stands for NaN. */
  function StrToNumber(s: string): Option<int> {
    var t := TrimEnd(TrimStart(s));
    if t == [] then Some(0)
    else if |t| > 1 && (t[0] == '-' || t[0] == '+') && AllDigits(t[1..]) then
      var v: int := DigitsValue(t[1..]);
      Some(if t[0] == '-' then -v else v)
    else if AllDigits(t) then Some(DigitsValue(t))
    else None
  }

  /** ToNumber of a boolean. */
  function BoolNumber(b: bool): int {
    if b then 1 else 0
  }

  /**
   * JavaScript's abstract equality `a == b` on numbers, strings and
   * booleans, with string-to-number conversion restricted to optionally
   * signed decimal integers (`StrToNumber`): any other numeric text is NaN
   * here, so it equals no number.
   */
  predicate LooseEq(a: Value, b: Value) {
    match a
    case Num(x) =>
      (match b
       case Num(y) => x == y
       case Str(t) => StrToNumber(t) == Some(x)
       case Bool(q) => x == BoolNumber(q))
    case Str(s) =>
      (match b
       case Num(y) => StrToNumber(s) == Some(y)
       case Str(t) => s == t
       case Bool(q) => StrToNumber(s) == Some(BoolNumber(q)))
    case Bool(p) =>
      (match b
       case Num(y) => BoolNumber(p) == y
       case Str(t) => StrToNumber(t) == Some(BoolNumber(p))
       case Bool(q) => p == q)
  }

  /** The decimal text of a natural number (JavaScript's ToString on an integral number). */
  function NatText(n: nat): (s: string)
    ensures |s| > 0 && AllDigits(s)
  {
    var d := ['0' + (n % 10) as char];
    if n < 10 then d else NatText(n / 10) + d
  }

  /** The decimal text of an integer, with a leading '-' when it is negative. */
  function IntText(n: int): string {
    if n < 0 then "-" + NatText(-n) else NatText(n)
  }

  /** ToString on a constant, as a template literal produces it. */
  function ValueText(v: Value): string {
    match v
    case Num(n) => IntText(n)
    case Str(s) => s
    case Bool(b) => if b then "true" else "false"
  }

  lemma LooseEqReflexive(a: Value)
    ensures LooseEq(a, a)
  {
  }

  lemma LooseEqSymmetric(a: Value, b: Value)
    ensures LooseEq(a, b) == LooseEq(b, a)
  {
  }

  /** Between two values of the same kind, loose equality is plain equality. */
  lemma LooseEqSameKind(a: Value, b: Value)
    requires (a.Num? && b.Num?) || (a.Str? && b.Str?) || (a.Bool? && b.Bool?)
    ensures LooseEq(a, b) <==> a == b
  {
  }

  lemma {:induction false} NatTextValue(n: nat)
    ensures DigitsValue(NatText(n)) == n
    decreases n
  {
    var d := ['0' + (n % 10) as char];
    if n >= 10 {
      NatTextValue(n / 10);
      var s := NatText(n / 10) + d;
      assert s[..|s| - 1] == NatText(n / 10);
    }
  }

  /** Text that neither starts nor ends with white space is not trimmed. */
  lemma NoTrim(t: string)
    requires |t| > 0 && !IsWhite(t[0]) && !IsWhite(t[|t| - 1])
    ensures TrimEnd(TrimStart(t)) == t
  {
  }

  /** A run of digits converts to its value. */
  lemma DigitTextConverts(d: string)
    requires |d| > 0 && AllDigits(d)
    ensures StrToNumber(d) == Some(DigitsValue(d))
  {
    assert IsDigit(d[0]) && IsDigit(d[|d| - 1]);
    NoTrim(d);
  }

  /** A '-' followed by a run of digits converts to minus their value. */
  lemma NegatedDigitTextConverts(d: string)
    requires |d| > 0 && AllDigits(d)
    ensures var v: int := DigitsValue(d); StrToNumber("-" + d) == Some(-v)
  {
    var t := "-" + d;
    assert IsDigit(d[|d| - 1]);
    assert t[0] == '-' && t[|t| - 1] == d[|d| - 1];
    NoTrim(t);
    assert t[1..] == d;
  }

  /**
   * The decimal text of any integer converts back to that integer, so the
   * string literal "5" and the number 5 are loosely equal (and share one
   * constant-pool entry).
   */
  lemma IntTextLooselyEqualsNumber(n: int)
    ensures StrToNumber(IntText(n)) == Some(n)
    ensures LooseEq(Str(IntText(n)), Num(n))
  {
    var m := if n < 0 then -n else n;
    NatTextValue(m);
    if n < 0 {
      NegatedDigitTextConverts(NatText(m));
    } else {
      DigitTextConverts(NatText(m));
    }
  }

  /** Loose equality is not transitive: "01" == 1 and 1 == "1", but "01" != "1". */
  lemma LooseEqNotTransitive()
    ensures LooseEq(Str("01"), Num(1)) && LooseEq(Num(1), Str("1")) && !LooseEq(Str("01"), Str("1"))
  {
    assert DigitsValue("0") == 0;
    assert DigitsValue("01") == 1;
    assert DigitsValue("1") == 1;
  }

  /** Booleans compare as 0 and 1, and an empty or blank string as 0. */
  lemma LooseEqCoercions()
    ensures LooseEq(Bool(true), Num(1)) && LooseEq(Bool(true), Str("1"))
    ensures LooseEq(Str(""), Num(0)) && LooseEq(Str("  "), Bool(false))
    ensures !LooseEq(Str("x"), Num(0)) && !LooseEq(Bool(false), Str("x"))
  {
    assert DigitsValue("1") == 1;
    assert TrimStart("  ") == "";
  }

  /**
   * Any space separator is trimmed, not only the ASCII ones: the number 5
   * equals "\u30005" (an ideographic space, then 5) and " 5\u2003".
   */
  lemma WideSpacesAreTrimmed()
    ensures LooseEq(Num(5), Str("\U{3000}5")) && LooseEq(Num(5), Str(" 5\U{2003}"))
  {
    assert TrimStart("\U{3000}5") == "5";
    assert TrimEnd(TrimStart(" 5\U{2003}")) == "5" by {
      assert TrimStart(" 5\U{2003}") == "5\U{2003}";
      assert ("5\U{2003}")[..1] == "5";
    }
    assert DigitsValue("5") == 5;
  }
}
