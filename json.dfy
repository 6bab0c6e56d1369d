/**
 * JSON values as both halves of the plugin see them, and the few rules of
 * each language that the core's guards rely on: JavaScript truthiness,
 * property reads and number conversion in comparisons; PHP falsiness,
 * `isset` and `intval`. Numbers are integers only.
 */
module Json {
  import opened Wrappers
  import opened Strings

  datatype Json =
    | JNull
    | JBool(b: bool)
    | JNum(n: int)
    | JStr(s: string)
    | JArr(items: seq<Json>)
    | JObj(fields: map<string, Json>)

  // ----- JavaScript -----

  /**
   * `v.key` for a value that is not null: the field of an object, and
   * `undefined` (None) for a missing field or a value of another kind.
   */
  function Prop(v: Json, key: string): (r: Option<Json>)
    ensures r.Some? <==> v.JObj? && key in v.fields
  {
    if v.JObj? && key in v.fields then Some(v.fields[key]) else None
  }

  /** `!!v`, with None standing for `undefined`. */
  predicate Truthy(v: Option<Json>) {
    match v
    case None => false
    case Some(JNull) => false
    case Some(JBool(b)) => b
    case Some(JNum(n)) => n != 0
    case Some(JStr(s)) => s != ""
    case Some(JArr(_)) => true
    case Some(JObj(_)) => true
  }

  /** A number a relational comparison can produce, other than NaN. */
  datatype Number = Finite(value: int) | PosInfinity | NegInfinity

  /** The radix a `0x`, `0o` or `0b` prefix selects; 0 for any other letter. */
  function PrefixRadix(c: char): nat {
    if c == 'x' || c == 'X' then 16
    else if c == 'o' || c == 'O' then 8
    else if c == 'b' || c == 'B' then 2
    else 0
  }

  /** A non-empty run of digits of `radix`. */
  predicate IsNumeral(s: string, radix: nat) {
    |s| >= 1 && forall i :: 0 <= i < |s| ==> IsDigitIn(s[i], radix)
  }

  /**
   * JavaScript's conversion of a string to a number, None for NaN: the
   * surrounding whitespace is dropped; then the empty string is 0, a decimal
   * integer may carry a sign, a `0x`/`0o`/`0b` numeral may not, and
   * `Infinity` may.
   */
  function StringToNumber(s: string): Option<Number> {
    var t := Trim(s);
    if t == "" then Some(Finite(0))
    else if t == "Infinity" || t == "+Infinity" then Some(PosInfinity)
    else if t == "-Infinity" then Some(NegInfinity)
    else if (t[0] == '-' || t[0] == '+') && IsNumeral(t[1..], 10) then
      var v: int := NumeralValue(t[1..], 10);
      Some(Finite(if t[0] == '-' then -v else v))
    else if IsNumeral(t, 10) then Some(Finite(NumeralValue(t, 10)))
    else if |t| >= 2 && t[0] == '0' && PrefixRadix(t[1]) > 0 && IsNumeral(t[2..], PrefixRadix(t[1])) then
      Some(Finite(NumeralValue(t[2..], PrefixRadix(t[1]))))
    else None
  }

  /**
   * An array converts through `join(",")`: no items give the empty string,
   * one item gives its own text (`null` gives the empty string, `true` the
   * word), and two or more give a text with a comma, which is NaN.
   */
  function ArrayToNumber(items: seq<Json>): Option<Number>
    decreases items
  {
    if items == [] then Some(Finite(0))
    else if |items| > 1 then None
    else match items[0]
      case JNull => Some(Finite(0))
      case JBool(_) => None
      case JNum(n) => Some(Finite(n))
      case JStr(s) => StringToNumber(s)
      case JArr(inner) => ArrayToNumber(inner)
      case JObj(_) => None
  }

  /**
   * The number a relational comparison converts `v` to, None for NaN:
   * `undefined` and objects are NaN, `null` is 0, booleans are 0 or 1.
   */
  function ToNumber(v: Option<Json>): Option<Number> {
    match v
    case None => None
    case Some(JNull) => Some(Finite(0))
    case Some(JBool(b)) => Some(Finite(if b then 1 else 0))
    case Some(JNum(n)) => Some(Finite(n))
    case Some(JStr(s)) => StringToNumber(s)
    case Some(JArr(items)) => ArrayToNumber(items)
    case Some(JObj(_)) => None
  }

  /** `x < v`: false whenever `v` converts to NaN. */
  predicate Below(x: int, v: Option<Json>) {
    match ToNumber(v)
    case Some(Finite(n)) => x < n
    case Some(PosInfinity) => true
    case _ => false
  }

  /** `x > v`: false whenever `v` converts to NaN. */
  predicate Above(x: int, v: Option<Json>) {
    match ToNumber(v)
    case Some(Finite(n)) => x > n
    case Some(NegInfinity) => true
    case _ => false
  }

  /** A decimal numeral, with or without a sign, converts to its value. */
  lemma {:induction false} SignedNumeralNumber(n: nat)
    ensures ToNumber(Some(JStr(NatToString(n)))) == Some(Finite(n))
    ensures ToNumber(Some(JStr("-" + NatToString(n)))) == Some(Finite(-(n as int)))
    ensures ToNumber(Some(JStr("+" + NatToString(n)))) == Some(Finite(n))
  {
    var d := NatToString(n);
    NatToStringValue(n);
    UnsignedNumeral(d);
    SignedNumeral('-', d);
    SignedNumeral('+', d);
    assert "-" + d == ['-'] + d;
    assert "+" + d == ['+'] + d;
  }

  lemma {:induction false} UnsignedNumeral(d: string)
    requires IsNumeral(d, 10)
    ensures StringToNumber(d) == Some(Finite(NumeralValue(d, 10)))
  {
    assert Trim(d) == d;
    NotInfinity(d);
  }

  lemma {:induction false} SignedNumeral(sign: char, d: string)
    requires (sign == '-' || sign == '+') && IsNumeral(d, 10)
    ensures var v: int := NumeralValue(d, 10);
      StringToNumber([sign] + d) == Some(Finite(if sign == '-' then -v else v))
  {
    var t := [sign] + d;
    assert t[1..] == d;
    assert Trim(t) == t;
    NotInfinity(t);
  }

  /** A text whose first or second character is a digit is none of the spellings of infinity. */
  lemma NotInfinity(t: string)
    requires |t| >= 1 && (IsDecimalDigit(t[0]) || (|t| >= 2 && IsDecimalDigit(t[1])))
    ensures t != "Infinity" && t != "+Infinity" && t != "-Infinity"
  {
    assert "Infinity"[0] == 'I' && "Infinity"[1] == 'n';
    assert "+Infinity"[0] == '+' && "+Infinity"[1] == 'I';
    assert "-Infinity"[0] == '-' && "-Infinity"[1] == 'I';
  }

  /** `"-5"` converts to -5. */
  lemma MinusFive()
    ensures StringToNumber("-5") == Some(Finite(-5))
  {
    SignedNumeral('-', "5");
    assert ['-'] + "5" == "-5";
  }

  /** `"0x3e8"` converts to 1000. */
  lemma HexThousand()
    ensures StringToNumber("0x3e8") == Some(Finite(1000))
  {
    var t := "0x3e8";
    assert Trim(t) == t;
    assert t[1] == 'x' && PrefixRadix(t[1]) == 16;
    assert t[2..] == "3e8" && IsNumeral(t[2..], 16);
    assert "3e8"[..2] == "3e" && "3e"[..1] == "3";
    assert NumeralValue("3e8", 16) == 1000;
    assert !IsNumeral(t, 10) by { assert !IsDigitIn(t[1], 10); }
    NotInfinity(t);
  }

  /** `"Infinity"` converts to positive infinity. */
  lemma InfinityNumber()
    ensures StringToNumber("Infinity") == Some(PosInfinity)
  {
    assert Trim("Infinity") == "Infinity";
  }

  /** A one-item array compares as its item, except that `true` and `false` become NaN. */
  lemma OneItemArrayNumber(v: Json)
    ensures !v.JBool? && !v.JNull? ==> ToNumber(Some(JArr([v]))) == ToNumber(Some(v))
    ensures v.JNull? ==> ToNumber(Some(JArr([v]))) == Some(Finite(0))
    ensures v.JBool? ==> ToNumber(Some(JArr([v]))) == None
  {
  }

  /** `a || b`: the first operand when it is truthy, else the second. */
  function JsOr(a: Option<Json>, b: Option<Json>): (r: Option<Json>)
    ensures Truthy(r) <==> Truthy(a) || Truthy(b)
  {
    if Truthy(a) then a else b
  }

  // ----- PHP -----

  /**
   * `!$v` for a decoded value; `objectsAsArrays` says whether JSON objects
   * were decoded into arrays (`json_decode($s, true)`), which are falsy when
   * empty, or into objects, which never are. None is PHP's null.
   */
  predicate PhpFalsy(v: Option<Json>, objectsAsArrays: bool) {
    match v
    case None => true
    case Some(JNull) => true
    case Some(JBool(b)) => !b
    case Some(JNum(n)) => n == 0
    case Some(JStr(s)) => s == "" || s == "0"
    case Some(JArr(items)) => items == []
    case Some(JObj(fields)) => objectsAsArrays && fields == map[]
  }

  /**
   * `isset($v['key'])` or `isset($v->key)` for a key that is not a numeral:
   * the value has that field and it is not null.
   */
  predicate PhpIsset(v: Option<Json>, key: string) {
    v.Some? && v.value.JObj? && key in v.value.fields && v.value.fields[key] != JNull
  }

  /**
   * `intval($v)`: integers as they are, booleans 0 or 1, strings by their
   * leading decimal integer (0 when there is none), arrays 0 when empty and
   * 1 otherwise.
   */
  function Intval(v: Json): int {
    match v
    case JNull => 0
    case JBool(b) => if b then 1 else 0
    case JNum(n) => n
    case JStr(s) => LeadingInteger(s)
    case JArr(items) => if items == [] then 0 else 1
    case JObj(fields) => if fields == map[] then 0 else 1
  }

  /** The longest prefix of `s` made of decimal digits. */
  function DigitRun(s: string): (d: string)
    ensures |d| <= |s| && d == s[..|d|]
    ensures forall i :: 0 <= i < |d| ==> IsDecimalDigit(d[i])
    ensures |d| < |s| ==> !IsDecimalDigit(s[|d|])
  {
    if s != [] && IsDecimalDigit(s[0]) then [s[0]] + DigitRun(s[1..]) else []
  }

  const PhpIntMax: int := 0x7FFF_FFFF_FFFF_FFFF
  const PhpIntMin: int := -0x8000_0000_0000_0000

  /** A value outside PHP's 64-bit integers is held at the nearer end of the range. */
  function Saturate(v: int): (r: int)
    ensures PhpIntMin <= r <= PhpIntMax
    ensures PhpIntMin <= v <= PhpIntMax ==> r == v
    ensures v > PhpIntMax ==> r == PhpIntMax
    ensures v < PhpIntMin ==> r == PhpIntMin
  {
    if v > PhpIntMax then PhpIntMax else if v < PhpIntMin then PhpIntMin else v
  }

  /**
   * PHP's reading of a string's leading integer: whitespace, a sign, digits;
   * a numeral too large for 64 bits gives `PHP_INT_MAX` or `PHP_INT_MIN`.
   */
  function LeadingInteger(s: string): int {
    var t := PhpTrimStart(s);
    if t != [] && (t[0] == '-' || t[0] == '+') then
      var v: int := NumeralValue(DigitRun(t[1..]), 10);
      Saturate(if t[0] == '-' then -v else v)
    else Saturate(NumeralValue(DigitRun(t), 10))
  }

  predicate IsPhpSpace(c: char) {
    c == ' ' || c == '\t' || c == '\n' || c == '\r' || c == '\U{B}' || c == '\U{C}'
  }

  function PhpTrimStart(s: string): string {
    if s != [] && IsPhpSpace(s[0]) then PhpTrimStart(s[1..]) else s
  }
}
