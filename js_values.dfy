/**
 * The few pieces of JavaScript value semantics that the validation rules
 * depend on: truthiness, the unary `+` conversion of a string, and the
 * relational operators `<`, `>`, `<=`, `>=`.
 *
 * Numbers are restricted to NaN and integers (see README, "Left out").
 */
module JsValues {

  datatype Option<+T> = None | Some(value: T)

  /** A JavaScript number as far as this model needs one. */
  datatype JsNum = NaN | Num(n: int)

  /** The values that `parseValue` can produce. `Date` carries its time value. */
  datatype JsValue =
    | Undefined
    | Null
    | Str(s: string)
    | Number(num: JsNum)
    | Date(time: JsNum)

  /** JavaScript truthiness. Every object, an invalid Date included, is truthy. */
  predicate Truthy(v: JsValue)
  {
    match v
    case Undefined => false
    case Null => false
    case Str(s) => s != ""
    case Number(x) => x.Num? && x.n != 0
    case Date(_) => true
  }

  // ---------------------------------------------------------------------
  // Decimal strings and `+s`
  // ---------------------------------------------------------------------

  predicate IsDigit(c: char)
  {
    '0' <= c <= '9'
  }

  predicate AllDigits(s: string)
  {
    forall i :: 0 <= i < |s| ==> IsDigit(s[i])
  }

  function DigitValue(c: char): (d: nat)
    requires IsDigit(c)
    ensures d < 10
  {
    c as int - '0' as int
  }

  function DigitChar(d: nat): (c: char)
    requires d < 10
    ensures IsDigit(c) && DigitValue(c) == d
  {
    ('0' as int + d) as char
  }

  /** The value of a string of decimal digits, most significant first. */
  function DecimalValue(s: string): nat
    requires AllDigits(s)
    decreases |s|
  {
    if s == [] then 0 else 10 * DecimalValue(s[..|s| - 1]) + DigitValue(s[|s| - 1])
  }

  /** The shortest decimal spelling of a natural number. */
  function Decimal(n: nat): (s: string)
    ensures s != [] && AllDigits(s)
    ensures |s| > 1 ==> s[0] != '0'
    decreases n
  {
    if n < 10 then [DigitChar(n)] else Decimal(n / 10) + [DigitChar(n % 10)]
  }

  lemma {:induction false} DecimalRoundTrip(n: nat)
    ensures DecimalValue(Decimal(n)) == n
    decreases n
  {
    if n >= 10 {
      var s := Decimal(n);
      assert s[..|s| - 1] == Decimal(n / 10);
      DecimalRoundTrip(n / 10);
    }
  }

  /** The unary `+` of JavaScript applied to a string, for integer spellings. */
  function ToNumber(s: string): JsNum
  {
    if s == "" then Num(0)
    else if AllDigits(s) then Num(DecimalValue(s))
    else if |s| > 1 && (s[0] == '-' || s[0] == '+') && AllDigits(s[1..]) then
      Num(if s[0] == '-' then 0 - DecimalValue(s[1..]) as int else DecimalValue(s[1..]))
    else NaN
  }

  /** The decimal spelling of an integer, with a leading '-' when negative. */
  function IntToString(n: int): string
  {
    if n < 0 then "-" + Decimal(-n) else Decimal(n)
  }

  /** Converting an integer to a string and back with `+` gives the integer. */
  lemma NumberRoundTrip(n: int)
    ensures ToNumber(IntToString(n)) == Num(n)
  {
    if n < 0 {
      var s := IntToString(n);
      assert s[1..] == Decimal(-n);
      assert !IsDigit(s[0]);
      DecimalRoundTrip(-n);
    } else {
      DecimalRoundTrip(n);
    }
  }

  /** A string with a character that is neither a digit nor a leading sign is NaN. */
  lemma NotANumber(s: string, i: nat)
    requires i < |s| && !IsDigit(s[i])
    requires i > 0 || (s[0] != '-' && s[0] != '+') || |s| == 1
    ensures ToNumber(s) == NaN
  {
    if i > 0 && |s| > 1 {
      assert s[1..][i - 1] == s[i];
    }
  }

  // ---------------------------------------------------------------------
  // Relational operators
  // ---------------------------------------------------------------------

  /** Lexicographic order on strings, JavaScript's `a < b` for two strings. */
  predicate StrLess(a: string, b: string)
    decreases |a|
  {
    if a == [] then b != []
    else if b == [] then false
    else if a[0] != b[0] then a[0] < b[0]
    else StrLess(a[1..], b[1..])
  }

  lemma {:induction false} StrLessIrreflexive(a: string)
    ensures !StrLess(a, a)
    decreases |a|
  {
    if a != [] {
      StrLessIrreflexive(a[1..]);
    }
  }

  /** Any two distinct strings are ordered one way or the other, and not both. */
  lemma {:induction false} StrLessTotal(a: string, b: string)
    ensures a == b || StrLess(a, b) || StrLess(b, a)
    ensures !(StrLess(a, b) && StrLess(b, a))
    decreases |a|
  {
    if a != [] && b != [] && a[0] == b[0] {
      StrLessTotal(a[1..], b[1..]);
      if a[1..] == b[1..] {
        assert a == [a[0]] + a[1..] && b == [b[0]] + b[1..];
      }
    }
  }

  lemma {:induction false} StrLessTransitive(a: string, b: string, c: string)
    requires StrLess(a, b) && StrLess(b, c)
    ensures StrLess(a, c)
    decreases |a|
  {
    if a != [] && b != [] && c != [] && a[0] == b[0] && b[0] == c[0] {
      StrLessTransitive(a[1..], b[1..], c[1..]);
    }
  }

  /** The primitive-to-number conversion applied by a relational operator. */
  function ToNumeric(v: JsValue): JsNum
  {
    match v
    case Undefined => NaN
    case Null => Num(0)
    case Str(s) => ToNumber(s)
    case Number(x) => x
    case Date(t) => t
  }

  datatype Relation = Lt | Gt | Le | Ge

  predicate IntHolds(rel: Relation, x: int, y: int)
  {
    match rel
    case Lt => x < y
    case Gt => x > y
    case Le => x <= y
    case Ge => x >= y
  }

  /**
   * JavaScript's `a < b`, `a > b`, `a <= b` and `a >= b`: two strings
   * compare lexicographically; otherwise both sides become numbers and any
   * NaN makes the comparison false.
   */
  predicate Holds(rel: Relation, a: JsValue, b: JsValue)
  {
    if a.Str? && b.Str? then
      match rel
      case Lt => StrLess(a.s, b.s)
      case Gt => StrLess(b.s, a.s)
      case Le => !StrLess(b.s, a.s)
      case Ge => !StrLess(a.s, b.s)
    else
      var x, y := ToNumeric(a), ToNumeric(b);
      x.Num? && y.Num? && IntHolds(rel, x.n, y.n)
  }

  /** On strings the non-strict operators are the strict ones or equality. */
  lemma NonStrictOnStrings(a: string, b: string)
    ensures Holds(Ge, Str(a), Str(b)) <==> (a == b || Holds(Gt, Str(a), Str(b)))
    ensures Holds(Le, Str(a), Str(b)) <==> (a == b || Holds(Lt, Str(a), Str(b)))
  {
    StrLessTotal(a, b);
    if a == b {
      StrLessIrreflexive(a);
    }
  }

  /** Comparing anything against `undefined` is false, whatever the operator. */
  lemma UndefinedNeverCompares(rel: Relation, a: JsValue)
    ensures !Holds(rel, a, Undefined)
  {
  }
}
