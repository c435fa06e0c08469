/**
 * The slice of JavaScript's value model the handlers branch on: truthiness,
 * `typeof x === "number"`, `Number.isInteger`, and the `Number(...)`
 * conversion of header strings and token claims. Numbers are exact
 * rationals here; rounding to IEEE doubles is not modelled.
 */
module Js {
  import opened Text
  import opened Decimal
  import opened Wrappers

  datatype JsNumber = Finite(x: real) | NaN | Infinity(negative: bool)

  /** A JSON-ish value as found in a decoded token payload or request body. */
  datatype JsValue =
    | Undefined
    | Null
    | Bool(b: bool)
    | Num(n: JsNumber)
    | Str(s: string)
    | Structured   // an object or an array

  predicate IsIntegral(x: real) {
    x == x.Floor as real
  }

  predicate NumberTruthy(n: JsNumber) {
    match n
    case Finite(x) => x != 0.0
    case NaN => false
    case Infinity(_) => true
  }

  /** `!!v` */
  predicate Truthy(v: JsValue) {
    match v
    case Undefined => false
    case Null => false
    case Bool(b) => b
    case Num(n) => NumberTruthy(n)
    case Str(s) => s != ""
    case Structured => true
  }

  /** `Number.isInteger(n)` on a number. */
  predicate NumberIsInteger(n: JsNumber) {
    n.Finite? && IsIntegral(n.x)
  }

  /** `Number.isInteger(v)`: false for every non-number. */
  predicate IsInteger(v: JsValue) {
    v.Num? && NumberIsInteger(v.n)
  }

  /** The integer a number denotes, when it is one. */
  function AsInt(n: JsNumber): (i: int)
    requires NumberIsInteger(n)
    ensures i as real == n.x
  {
    n.x.Floor
  }

  /** `v && Number.isInteger(v) ? v : null`: a number that is a non-zero integer. */
  function NonZeroInteger(v: JsValue): (r: Option<int>)
    ensures r.Some? <==> Truthy(v) && IsInteger(v)
    ensures r.Some? ==> r.value != 0 && v == Num(Finite(r.value as real))
  {
    if Truthy(v) && IsInteger(v) then Some(AsInt(v.n)) else None
  }

  /** A decoded token payload: a flat map of claims; an absent claim reads as `undefined`. */
  type Claims = map<string, JsValue>

  function Claim(c: Claims, key: string): JsValue {
    if key in c then c[key] else Undefined
  }

  // ---------------------------------------------------------------------
  // Number(string): the StringNumericLiteral grammar of ECMA-262, decimal,
  // exponent, hexadecimal, octal and binary forms, and Infinity.
  // ---------------------------------------------------------------------

  predicate IsHexDigit(c: char) {
    IsDigit(c) || 'a' <= c <= 'f' || 'A' <= c <= 'F'
  }

  function HexDigitValue(c: char): (d: nat)
    requires IsHexDigit(c)
    ensures d < 16
  {
    if IsDigit(c) then DigitValue(c)
    else if 'a' <= c <= 'f' then c as int - 'a' as int + 10
    else c as int - 'A' as int + 10
  }

  /** The value of a non-empty string of digits `< radix`, or `None`. */
  function RadixValue(s: string, radix: nat): Option<nat>
    requires radix == 2 || radix == 8 || radix == 16
    decreases |s|
  {
    if |s| == 0 then None
    else if !IsHexDigit(s[|s| - 1]) || HexDigitValue(s[|s| - 1]) >= radix then None
    else if |s| == 1 then Some(HexDigitValue(s[0]))
    else match RadixValue(s[..|s| - 1], radix)
      case None => None
      case Some(v) => Some(v * radix + HexDigitValue(s[|s| - 1]))
  }

  /** `digits [. digits]` or `. digits`, at least one digit in all. */
  function MantissaValue(m: string): Option<real> {
    var dot := IndexOf(m, '.');
    var intPart := if dot == -1 then m else m[..dot];
    var frac := if dot == -1 then "" else m[dot + 1..];
    if AllDigits(intPart) && AllDigits(frac) && |intPart| + |frac| >= 1 then
      Some(DigitsValue(intPart) as real + FractionValue(frac))
    else None
  }

  /** The value of the digits after a decimal point. */
  function FractionValue(frac: string): real
    requires AllDigits(frac)
  {
    if frac == "" then 0.0 else DigitsValue(frac) as real / Pow10(|frac|) as real
  }

  /** `[+|-] digits` */
  function ExponentValue(e: string): Option<int> {
    if |e| >= 1 && (e[0] == '+' || e[0] == '-') then
      if |e| >= 2 && AllDigits(e[1..]) then
        Some(if e[0] == '-' then -(DigitsValue(e[1..]) as int) else DigitsValue(e[1..]))
      else None
    else if |e| >= 1 && AllDigits(e) then Some(DigitsValue(e))
    else None
  }

  function ScaleByPow10(m: real, k: int): real {
    if k >= 0 then m * Pow10(k) as real else m / Pow10(-k) as real
  }

  /** An unsigned StrUnsignedDecimalLiteral other than `Infinity`. */
  function UnsignedDecimalValue(body: string): Option<real> {
    var e := IndexOf(Lower(body), 'e');
    if e == -1 then MantissaValue(body)
    else
      match (MantissaValue(body[..e]), ExponentValue(body[e + 1..]))
      case (Some(m), Some(k)) => Some(ScaleByPow10(m, k))
      case _ => None
  }

  function SignedDecimal(t: string): JsNumber
    requires |t| >= 1
  {
    var neg := t[0] == '-';
    var body := if t[0] == '-' || t[0] == '+' then t[1..] else t;
    if body == "Infinity" then Infinity(neg)
    else match UnsignedDecimalValue(body)
      case None => NaN
      case Some(x) => Finite(if neg then -x else x)
  }

  /** `Number(s)` for a string `s`. */
  function ToNumber(s: string): (r: JsNumber)
    ensures Trim(s) == "" ==> r == Finite(0.0)
    ensures Trim(s) == "Infinity" || Trim(s) == "+Infinity" ==> r == Infinity(false)
    ensures Trim(s) == "-Infinity" ==> r == Infinity(true)
    ensures |Trim(s)| >= 1 && AllDigits(Trim(s)) ==> r == Finite(DigitsValue(Trim(s)) as real)
  {
    var t := Trim(s);
    if t == "" then Finite(0.0)
    else if |t| >= 2 && t[0] == '0' && (t[1] == 'x' || t[1] == 'X' || t[1] == 'o' || t[1] == 'O' || t[1] == 'b' || t[1] == 'B') then
      assert !IsDigit(t[1]);
      var radix := if t[1] == 'x' || t[1] == 'X' then 16 else if t[1] == 'o' || t[1] == 'O' then 8 else 2;
      match RadixValue(t[2..], radix)
      case None => NaN
      case Some(v) => Finite(v as real)
    else
      SignedDecimalSpellings(t);
      SignedDecimal(t)
  }

  /** The signed infinities and plain digit strings among the decimal spellings. */
  lemma SignedDecimalSpellings(t: string)
    requires |t| >= 1
    ensures t == "Infinity" || t == "+Infinity" ==> SignedDecimal(t) == Infinity(false)
    ensures t == "-Infinity" ==> SignedDecimal(t) == Infinity(true)
    ensures AllDigits(t) ==> SignedDecimal(t) == Finite(DigitsValue(t) as real)
  {
    if t == "+Infinity" || t == "-Infinity" {
      assert t[1..] == "Infinity";
    }
    if AllDigits(t) {
      PlainDigits(t);
    }
  }

  /** `Number(v)` for a claim or body value (an object or array converts to NaN here). */
  function ValueToNumber(v: JsValue): (r: JsNumber)
    ensures v.Num? ==> r == v.n
    ensures v.Null? || v == Bool(false) || (v.Str? && Trim(v.s) == "") ==> r == Finite(0.0)
    ensures v == Bool(true) ==> r == Finite(1.0)
    ensures v.Undefined? || v.Structured? ==> r.NaN?
    ensures v.Str? && |Trim(v.s)| >= 1 && AllDigits(Trim(v.s)) ==> r == Finite(DigitsValue(Trim(v.s)) as real)
  {
    match v
    case Undefined => NaN
    case Null => Finite(0.0)
    case Bool(b) => Finite(if b then 1.0 else 0.0)
    case Num(n) => n
    case Str(s) => ToNumber(s)
    case Structured => NaN
  }

  // ---------------------------------------------------------------------
  // Facts about Number(...)
  // ---------------------------------------------------------------------

  lemma EmptyIsZero()
    ensures ToNumber("") == Finite(0.0)
  {
  }

  lemma NoLetterInDigits(s: string, c: char)
    requires AllDigits(s) && !IsDigit(c)
    ensures c !in s
  {
  }

  lemma DigitsTrim(s: string)
    requires |s| >= 1 && AllDigits(s)
    ensures Trim(s) == s
  {
    assert IsDigit(s[0]) && IsDigit(s[|s| - 1]);
    TrimIdentity(s);
  }

  /** A mantissa without a point is read as a whole number. */
  lemma MantissaWithoutPoint(m: string)
    requires |m| >= 1 && AllDigits(m) && IndexOf(m, '.') == -1
    ensures MantissaValue(m) == Some(DigitsValue(m) as real)
  {
    assert FractionValue("") == 0.0;
  }

  lemma UnsignedDigits(s: string)
    requires |s| >= 1 && AllDigits(s)
    ensures UnsignedDecimalValue(s) == Some(DigitsValue(s) as real)
  {
    NoLetterInDigits(s, '.');
    NoLetterInDigits(s, 'e');
    LowerIdentity(s);
    assert IndexOf(Lower(s), 'e') == -1;
    MantissaWithoutPoint(s);
  }

  lemma PlainDigits(s: string)
    requires |s| >= 1 && AllDigits(s)
    ensures SignedDecimal(s) == Finite(DigitsValue(s) as real)
  {
    assert IsDigit(s[0]);
    assert s != "Infinity";
    UnsignedDigits(s);
  }

  lemma MinusDigits(t: string)
    requires |t| >= 2 && t[0] == '-' && AllDigits(t[1..])
    ensures SignedDecimal(t) == Finite(-(DigitsValue(t[1..]) as real))
  {
    var s := t[1..];
    assert IsDigit(s[0]);
    assert s != "Infinity";
    UnsignedDigits(s);
  }

  /** A plain digit string (the shape `^\d+$`) converts to its decimal value. */
  lemma DigitStringValue(s: string)
    requires |s| >= 1 && AllDigits(s)
    ensures ToNumber(s) == Finite(DigitsValue(s) as real)
  {
    DigitsTrim(s);
    if |s| >= 2 {
      assert IsDigit(s[1]);
    }
    PlainDigits(s);
  }

  /** A minus sign followed by digits converts to the negated value. */
  lemma NegativeDigitStringValue(t: string)
    requires |t| >= 2 && t[0] == '-' && AllDigits(t[1..])
    ensures ToNumber(t) == Finite(-(DigitsValue(t[1..]) as real))
  {
    assert t[|t| - 1] == t[1..][|t| - 2];
    assert IsDigit(t[|t| - 1]);
    TrimIdentity(t);
    MinusDigits(t);
  }

  /** `Number(String(i)) === i` for every integer (exact arithmetic). */
  lemma IntSpellingRoundTrip(i: int)
    ensures ToNumber(IntToString(i)) == Finite(i as real)
  {
    if i >= 0 {
      NaturalSpelling(i);
    } else {
      NegativeSpelling(i);
    }
  }

  lemma NaturalSpelling(n: nat)
    ensures ToNumber(IntToString(n)) == Finite(n as real)
  {
    var s := NatToString(n);
    assert IntToString(n) == s;
    NatToStringValue(n);
    DigitStringValue(s);
  }

  lemma NegativeSpelling(i: int)
    requires i < 0
    ensures ToNumber(IntToString(i)) == Finite(i as real)
  {
    NegativeSpellingShape(i);
    NegativeValue(IntToString(i), i);
  }

  lemma NegativeSpellingShape(i: int)
    requires i < 0
    ensures var t := IntToString(i);
            |t| >= 2 && t[0] == '-' && AllDigits(t[1..]) && DigitsValue(t[1..]) == -i
  {
    var m: nat := -i;
    var d := NatToString(m);
    NatToStringValue(m);
    assert IntToString(i) == "-" + d;
    MinusPrefix(d, m);
  }

  /** A minus sign in front of a digit string of value `m`. */
  lemma MinusPrefix(d: string, m: nat)
    requires Canonical(d) && DigitsValue(d) == m
    ensures var t := "-" + d;
            |t| >= 2 && t[0] == '-' && AllDigits(t[1..]) && DigitsValue(t[1..]) == m
  {
    assert ("-" + d)[1..] == d;
  }

  lemma NegativeValue(t: string, i: int)
    requires |t| >= 2 && t[0] == '-' && AllDigits(t[1..]) && DigitsValue(t[1..]) == -i
    ensures ToNumber(t) == Finite(i as real)
  {
    NegativeDigitStringValue(t);
    NegatedCast(DigitsValue(t[1..]), i);
  }

  lemma NegatedCast(n: nat, i: int)
    requires n == -i
    ensures -(n as real) == i as real
  {
  }
}
