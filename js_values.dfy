/**
 * JavaScript scalars as they appear in the dashboard's raw records, and the
 * few built-in string and number conversions the pipeline relies on.
 *
 * A cell of a parsed CSV/XLSX/JSON row is `null`, a string or a finite number.
 * A key that is missing from a record reads as `undefined`, which is the
 * `None` of `Option<Value>`. Numbers are modelled as reals: no double
 * rounding, no NaN and no infinities inside a record.
 */
module JsValues {

  datatype Option<T> = None | Some(value: T)

  datatype Value = Null | Str(s: string) | Num(x: real)

  /** `v !== undefined && v !== null && v !== ""`: the "has a usable value" test of every resolver. */
  predicate Present(v: Value) {
    v != Null && v != Str("")
  }

  /** `v` is present and defined. */
  predicate PresentOpt(v: Option<Value>) {
    v.Some? && Present(v.value)
  }

  /** JavaScript truthiness of a cell (`v || fallback`, `filter(r => r.name)`). */
  predicate Truthy(v: Value) {
    match v
    case Null => false
    case Str(s) => s != ""
    case Num(x) => x != 0.0
  }

  /** A number as `parseFloat` or `parseInt` returns it: NaN, an infinity or a finite value. */
  datatype JsNumber = NaN | NegInf | PosInf | Finite(x: real)

  /** `a >= b`; every comparison with NaN is false. */
  predicate AtLeast(a: JsNumber, b: JsNumber) {
    match (a, b)
    case (NaN, _) => false
    case (_, NaN) => false
    case (PosInf, _) => true
    case (_, NegInf) => true
    case (NegInf, _) => false
    case (Finite(_), PosInf) => false
    case (Finite(x), Finite(y)) => x >= y
  }

  /** `a <= b` */
  predicate AtMost(a: JsNumber, b: JsNumber) {
    AtLeast(b, a)
  }

  // ---------------------------------------------------------------------------
  // Characters

  predicate IsDigit(c: char) {
    '0' <= c <= '9'
  }

  function DigitValue(c: char): (d: nat)
    requires IsDigit(c)
    ensures d < 10
  {
    (c as int) - ('0' as int)
  }

  function DigitChar(d: nat): (c: char)
    requires d < 10
    ensures IsDigit(c) && DigitValue(c) == d
  {
    ['0', '1', '2', '3', '4', '5', '6', '7', '8', '9'][d]
  }

  predicate AllDigits(s: string) {
    forall i :: 0 <= i < |s| ==> IsDigit(s[i])
  }

  /** The characters matched by `\s` in a JavaScript regular expression and removed by `String.prototype.trim`. */
  predicate IsJsSpace(c: char) {
    c == ' ' || c == '\t' || c == '\n' || c == '\U{000B}' || c == '\U{000C}' || c == '\r'
    || c == '\U{00A0}' || c == '\U{1680}' || ('\U{2000}' <= c <= '\U{200A}')
    || c == '\U{2028}' || c == '\U{2029}' || c == '\U{202F}' || c == '\U{205F}'
    || c == '\U{3000}' || c == '\U{FEFF}'
  }

  predicate IsUpperAscii(c: char) {
    'A' <= c <= 'Z'
  }

  predicate IsLowerAscii(c: char) {
    'a' <= c <= 'z'
  }

  function LowerChar(c: char): char {
    if IsUpperAscii(c) then (c as int + 32) as char else c
  }

  function UpperChar(c: char): char {
    if IsLowerAscii(c) then (c as int - 32) as char else c
  }

  // ---------------------------------------------------------------------------
  // Strings

  /** `s.toLowerCase()`, for the ASCII letters. */
  function ToLower(s: string): (r: string)
    ensures |r| == |s|
    ensures forall i :: 0 <= i < |s| ==> r[i] == LowerChar(s[i])
  {
    if s == [] then [] else [LowerChar(s[0])] + ToLower(s[1..])
  }

  /** `s.toUpperCase()`, for the ASCII letters. */
  function ToUpper(s: string): (r: string)
    ensures |r| == |s|
    ensures forall i :: 0 <= i < |s| ==> r[i] == UpperChar(s[i])
  {
    if s == [] then [] else [UpperChar(s[0])] + ToUpper(s[1..])
  }

  function TrimStart(s: string): (r: string)
    ensures r == [] || !IsJsSpace(r[0])
    ensures |r| <= |s| && r == s[|s| - |r|..]
    ensures forall i :: 0 <= i < |s| - |r| ==> IsJsSpace(s[i])
  {
    if s != [] && IsJsSpace(s[0]) then TrimStart(s[1..]) else s
  }

  function TrimEnd(s: string): (r: string)
    ensures r == [] || !IsJsSpace(r[|r| - 1])
    ensures |r| <= |s| && r == s[..|r|]
    ensures forall i :: |r| <= i < |s| ==> IsJsSpace(s[i])
  {
    if s != [] && IsJsSpace(s[|s| - 1]) then TrimEnd(s[..|s| - 1]) else s
  }

  /** `s.trim()`. */
  function Trim(s: string): (r: string)
    ensures r == [] || (!IsJsSpace(r[0]) && !IsJsSpace(r[|r| - 1]))
  {
    TrimEnd(TrimStart(s))
  }

  /** A text with no white space at either end is its own trim. */
  lemma {:induction false} TrimUnchanged(s: string)
    requires s != [] && !IsJsSpace(s[0]) && !IsJsSpace(s[|s| - 1])
    ensures Trim(s) == s
  {
    assert TrimStart(s) == s;
    assert TrimEnd(s) == s;
  }

  /** `s.replace(a, b)` with a one-character string pattern: only the first occurrence is replaced. */
  function ReplaceFirst(s: string, a: char, b: char): (r: string)
    ensures |r| == |s|
  {
    if s == [] then []
    else if s[0] == a then [b] + s[1..]
    else [s[0]] + ReplaceFirst(s[1..], a, b)
  }

  /** `replace` turns the first `a`, if there is one, into `b` and changes nothing else. */
  lemma {:induction false} ReplaceFirstSpec(s: string, a: char, b: char)
    ensures IndexOfChar(s, a) == |s| ==> ReplaceFirst(s, a, b) == s
    ensures IndexOfChar(s, a) < |s| ==>
      ReplaceFirst(s, a, b) == s[..IndexOfChar(s, a)] + [b] + s[IndexOfChar(s, a) + 1..]
  {
    if s != [] && s[0] != a {
      var k := IndexOfChar(s[1..], a);
      var t := ReplaceFirst(s[1..], a, b);
      ReplaceFirstSpec(s[1..], a, b);
      assert IndexOfChar(s, a) == k + 1;
      if k < |s| - 1 {
        assert [s[0]] + s[1..][..k] == s[..k + 1];
        assert s[1..][k + 1..] == s[k + 2..];
      } else {
        assert [s[0]] + s[1..] == s;
      }
    }
  }

  /** Without an occurrence of the pattern, `replace` leaves the text as it is. */
  lemma {:induction false} ReplaceFirstAbsent(s: string, a: char, b: char)
    requires a !in s
    ensures ReplaceFirst(s, a, b) == s
  {
    if s != [] {
      assert s == [s[0]] + s[1..];
      ReplaceFirstAbsent(s[1..], a, b);
    }
  }

  /** `s.startsWith(p)`. */
  predicate StartsWith(s: string, p: string) {
    |p| <= |s| && s[..|p|] == p
  }

  /** `s.includes(t)`. */
  predicate Contains(s: string, t: string)
    decreases |s|
  {
    StartsWith(s, t) || (s != [] && Contains(s[1..], t))
  }

  /** Index of the first `c` in `s`, or `|s|` when there is none. */
  function IndexOfChar(s: string, c: char): (k: nat)
    ensures k <= |s|
    ensures k < |s| ==> s[k] == c
    ensures forall i :: 0 <= i < k ==> s[i] != c
    ensures k < |s| <==> c in s
  {
    if s == [] then 0 else if s[0] == c then 0 else 1 + IndexOfChar(s[1..], c)
  }

  // ---------------------------------------------------------------------------
  // Numbers as text

  function Pow10(n: nat): (p: nat)
    ensures p >= 1
  {
    if n == 0 then 1 else 10 * Pow10(n - 1)
  }

  /** The integer written by a string of decimal digits (`parseInt(s, 10)` on such a string). */
  function DigitsValue(s: string): (v: nat)
    requires AllDigits(s)
    ensures v < Pow10(|s|)
  {
    if s == [] then 0 else DigitsValue(s[..|s| - 1]) * 10 + DigitValue(s[|s| - 1])
  }

  /** Decimal text of a natural number. */
  function NatToString(n: nat): (s: string)
    ensures |s| >= 1 && AllDigits(s)
    decreases n
  {
    if n < 10 then [DigitChar(n)] else NatToString(n / 10) + [DigitChar(n % 10)]
  }

  /** Decimal digits of a fraction in [0, 1), at most `fuel` of them. */
  function FractionDigits(f: real, fuel: nat): string
    requires 0.0 <= f < 1.0
    decreases fuel
  {
    if f == 0.0 || fuel == 0 then ""
    else
      var t := f * 10.0;
      var d := t.Floor;
      [DigitChar(d)] + FractionDigits(t - d as real, fuel - 1)
  }

  /**
   * `String(x)` for a number: the sign, the integer part and, when there is
   * one, the decimal fraction. A double has at most 1074 fraction digits.
   */
  function NumberToString(x: real): (s: string)
    ensures s != []
  {
    var a := if x < 0.0 then -x else x;
    var ip := a.Floor;
    var frac := a - ip as real;
    (if x < 0.0 then "-" else "") + NatToString(ip)
      + (if frac == 0.0 then "" else "." + FractionDigits(frac, 1074))
  }

  /** `String(v)` for a defined cell. */
  function ToJsString(v: Value): string {
    match v
    case Null => "null"
    case Str(s) => s
    case Num(x) => NumberToString(x)
  }

  /** `String(v)` for a possibly undefined property read. */
  function OptToJsString(v: Option<Value>): string {
    if v.None? then "undefined" else ToJsString(v.value)
  }

  /** An unsigned decimal literal: digits with an optional `.` fraction, at least one digit in all. */
  function ParseUnsigned(t: string): (r: Option<real>)
    ensures r.Some? ==> r.value >= 0.0
    ensures t != [] && AllDigits(t) ==> r == Some(DigitsValue(t) as real)
  {
    var k := IndexOfChar(t, '.');
    var whole := t[..k];
    var frac := if k < |t| then t[k + 1..] else "";
    assert AllDigits(t) ==> k == |t| && whole == t && frac == "";
    if AllDigits(whole) && AllDigits(frac) && |whole| + |frac| > 0 then
      Some(DigitsValue(whole) as real + DigitsValue(frac) as real / Pow10(|frac|) as real)
    else
      None
  }

  /** A digit string with a `.` between its whole and fraction digits reads as its decimal value. */
  lemma {:induction false} ParseDecimal(w: string, f: string)
    requires AllDigits(w) && AllDigits(f) && |w| + |f| > 0
    ensures ParseUnsigned(w + "." + f) ==
      Some(DigitsValue(w) as real + DigitsValue(f) as real / Pow10(|f|) as real)
  {
    var t := w + "." + f;
    var k := IndexOfChar(t, '.');
    assert t[|w|] == '.';
    assert forall i :: 0 <= i < |w| ==> t[i] == w[i] && IsDigit(t[i]);
    assert k == |w|;
    assert t[..k] == w;
    assert t[k + 1..] == f;
  }

  /** The decimal text of a natural number denotes that number. */
  lemma {:induction false} DigitsOfNat(n: nat)
    ensures DigitsValue(NatToString(n)) == n
    decreases n
  {
    if n >= 10 {
      var s := NatToString(n / 10);
      DigitsOfNat(n / 10);
      assert (s + [DigitChar(n % 10)])[..|s|] == s;
    }
  }

  /** `Number(String(n))` is `n` for a natural number `n`. */
  lemma {:induction false} ParseNat(n: nat)
    ensures ParseUnsigned(NatToString(n)) == Some(n as real)
  {
    DigitsOfNat(n);
  }

  /**
   * `Number(s)` followed by `Number.isFinite`: `Some(x)` for a finite result,
   * `None` for NaN or an infinity. Surrounding white space is ignored and a
   * blank string is 0. The literal forms with an exponent, a hexadecimal,
   * octal or binary prefix are outside this model and read as `None`.
   */
  function ParseNumber(s: string): Option<real> {
    var t := Trim(s);
    if t == "" then Some(0.0)
    else if t[0] == '-' then
      (match ParseUnsigned(t[1..]) case Some(x) => Some(-x) case None => None)
    else if t[0] == '+' then ParseUnsigned(t[1..])
    else ParseUnsigned(t)
  }

  /**
   * `Number(String(v).replace(",", "."))` followed by `Number.isFinite`.
   * A number cell is its own value: the text of a JavaScript number holds no comma
   * and reads back as the same number.
   */
  function CommaNumber(v: Option<Value>): (r: Option<real>)
    ensures v == Some(Str("")) ==> r == Some(0.0)
  {
    match v
    case Some(Num(x)) => Some(x)
    case Some(Str(s)) => ParseNumber(ReplaceFirst(s, ',', '.'))
    case _ => ParseNumber(OptToJsString(v))
  }

  /** A word that starts with a letter is not a number: `Number("null")` and `Number("undefined")` are NaN. */
  lemma {:induction false} WordIsNotNumber(s: string)
    requires s != [] && IsLowerAscii(s[0]) && !IsJsSpace(s[0])
    ensures ParseNumber(s) == None
  {
    var t := Trim(s);
    assert TrimStart(s) == s;
    assert t == s[..|t|] && t != [];
    assert !IsDigit(t[0]);
    var k := IndexOfChar(t, '.');
    assert k > 0 ==> !AllDigits(t[..k]);
  }

  /** A missing cell and a `null` cell never yield a sample: `String(x)` is "undefined" or "null". */
  lemma {:induction false} CommaNumberOfMissing(v: Option<Value>)
    requires v == None || v == Some(Null)
    ensures CommaNumber(v) == None
  {
    if v == None {
      WordIsNotNumber("undefined");
    } else {
      WordIsNotNumber("null");
    }
  }
}
