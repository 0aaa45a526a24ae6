/**
 * Typed coercion of resolved cells: `toNum` (app.js and alone.js), which is
 * the same function as `n` (ai-predict.js), and `toYear` (app.js).
 */
module Coercion {
  import opened JsValues

  /**
   * `toNum(v)` / `n(x)`: `null` and `""` are absent; otherwise the first comma
   * becomes a decimal point and the text is read as a number, and a result
   * that is not finite is absent.
   */
  function ToNum(v: Value): (r: Option<real>)
    ensures v == Null || v == Str("") ==> r == None
    ensures v.Num? ==> r == Some(v.x)
    ensures v.Str? && v.s != "" && ',' !in v.s ==> r == ParseNumber(v.s)
    ensures v.Str? && ',' in v.s ==>
      r == ParseNumber(v.s[..IndexOfChar(v.s, ',')] + "." + v.s[IndexOfChar(v.s, ',') + 1..])
  {
    match v
    case Str(s) =>
      ReplaceFirstSpec(s, ',', '.');
      if s == "" then None else CommaNumber(Some(v))
    case _ =>
      if v == Null then None else CommaNumber(Some(v))
  }

  /** Four decimal digits start at position `i` of `s`. */
  predicate RunAt(s: string, i: nat) {
    i + 4 <= |s| && AllDigits(s[i..i + 4])
  }

  /**
   * `s.match(/\d{4}/)` read with `parseInt(m[0], 10)`: the leftmost run of four
   * digits at or after `from`, as a number.
   */
  function FirstRun(s: string, from: nat): (r: Option<int>)
    ensures r.None? ==> forall k :: from <= k ==> !RunAt(s, k)
    ensures r.Some? ==> 0 <= r.value <= 9999
    ensures r.Some? ==>
      exists k :: from <= k && RunAt(s, k) && r.value == DigitsValue(s[k..k + 4]) &&
        forall m :: from <= m < k ==> !RunAt(s, m)
    decreases |s| - from
  {
    if from + 4 > |s| then None
    else if AllDigits(s[from..from + 4]) then
      assert RunAt(s, from);
      assert Pow10(4) == 10000;
      Some(DigitsValue(s[from..from + 4]))
    else FirstRun(s, from + 1)
  }

  /** `toYear(v)`: `null` and `""` are absent; otherwise the first four-digit run of `String(v)`. */
  function ToYear(v: Value): (r: Option<int>)
    ensures v == Null || v == Str("") ==> r == None
    ensures r.Some? ==> 0 <= r.value <= 9999
  {
    if v == Null || v == Str("") then None else FirstRun(ToJsString(v), 0)
  }

  // ---------------------------------------------------------------------------

  lemma ParseOnePointFive()
    ensures ParseNumber("1.5") == Some(1.5)
  {
    TrimUnchanged("1.5");
    UnsignedOnePointFive();
  }

  lemma UnsignedOnePointFive()
    ensures ParseUnsigned("1.5") == Some(1.5)
  {
    var t := "1.5";
    assert IndexOfChar(t, '.') == 1 by { assert t[1..] == ".5"; }
    assert t[..1] == "1" && t[2..] == "5";
    SingleDigit('1');
    SingleDigit('5');
  }

  lemma {:induction false} SingleDigit(c: char)
    requires IsDigit(c)
    ensures DigitsValue([c]) == DigitValue(c)
  {
    assert [c][..0] == "";
  }

  /** A decimal comma is read as a decimal point: "1,5" is 1.5. */
  lemma DecimalComma()
    ensures ToNum(Str("1,5")) == Some(1.5)
  {
    assert ReplaceFirst("1,5", ',', '.') == "1.5" by {
      assert "1,5"[0] == '1';
      assert "1,5"[1..] == ",5";
      assert ReplaceFirst(",5", ',', '.') == ".5";
    }
    ParseOnePointFive();
  }

  /** Only the first comma is a decimal point: "1,000,5" is not a number. */
  lemma SecondCommaIsNotDecimal()
    ensures ToNum(Str("1,000,5")) == None
  {
    assert ReplaceFirst("1,000,5", ',', '.') == "1.000,5" by {
      assert "1,000,5"[1..] == ",000,5";
      assert ",000,5"[1..] == "000,5";
    }
    SecondCommaRemains();
  }

  lemma SecondCommaRemains()
    ensures ParseNumber("1.000,5") == None
  {
    var t := "1.000,5";
    assert TrimStart(t) == t;
    assert TrimEnd(t) == t;
    assert Trim(t) == t;
    assert t[0] == '1';
    assert ParseUnsigned(t) == None by {
      assert IndexOfChar(t, '.') == 1 by { assert t[1..] == ".000,5"; }
      assert t[2..] == "000,5";
      assert !AllDigits(t[2..]) by { assert !IsDigit("000,5"[3]); }
    }
  }

  /** A word is not a number. */
  lemma WordsAreAbsent()
    ensures ToNum(Str("abc")) == None
  {
    assert Str("abc") != Null && Str("abc") != Str("");
    ReplaceFirstAbsent("abc", ',', '.');
    WordIsNotNumber("abc");
  }

  lemma DigitsOf2014()
    ensures DigitsValue("2014") == 2014
  {
    assert "2014"[..3] == "201";
    assert "201"[..2] == "20";
    assert "20"[..1] == "2";
    assert "2"[..0] == "";
  }

  /** The year is found anywhere in the text. */
  lemma YearInText()
    ensures ToYear(Str("Discovered 2014")) == Some(2014)
  {
    var s := "Discovered 2014";
    assert RunAt(s, 11) by { assert s[11..15] == "2014"; }
    forall k | 0 <= k < 11 ensures !RunAt(s, k) {
      assert !IsDigit(s[k..k + 4][0]);
    }
    assert s[11..15] == "2014";
    DigitsOf2014();
  }

  /** A longer run of digits yields its first four. */
  lemma YearOfLongRun()
    ensures ToYear(Str("12345")) == Some(1234)
  {
    assert "12345"[0..4] == "1234";
    assert DigitsValue("1234") == 1234 by {
      assert "1234"[..3] == "123";
      assert "123"[..2] == "12";
      assert "12"[..1] == "1";
      assert "1"[..0] == "";
    }
  }

  /** Fewer than four digits are no year. */
  lemma ShortNumberIsNoYear()
    ensures ToYear(Num(14.0)) == None
  {
    assert NumberToString(14.0) == "14" by {
      assert (14.0).Floor == 14;
      assert NatToString(14) == "14";
    }
  }
}
