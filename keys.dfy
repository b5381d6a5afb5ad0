/** Cell values as the spreadsheets deliver them, and the key normaliser
    (`normalize_id` / `normalize_code`, which are the same function) that turns
    any cell into the string key every join compares on. */
module Keys {

  datatype Option<T> = None | Some(value: T)

  /** A spreadsheet cell: an integer, an integral float such as 123.0, a text,
      or a missing value (NaN / None). */
  datatype Value = Int(i: int) | Float(f: int) | Str(s: string) | Missing

  // ---------------------------------------------------------------- text

  /** The characters Python's `str.isspace()` accepts, which `str.strip()`
      and `float()` remove from both ends of a text. */
  predicate IsSpace(c: char)
  {
    c == ' ' || '\t' <= c <= '\r' || '\U{1C}' <= c <= '\U{1F}' || c == '\U{85}' || c == '\U{A0}'
    || c == '\U{1680}' || '\U{2000}' <= c <= '\U{200A}' || c == '\U{2028}' || c == '\U{2029}'
    || c == '\U{202F}' || c == '\U{205F}' || c == '\U{3000}'
  }

  predicate IsDigit(c: char)
  {
    '0' <= c <= '9'
  }

  predicate AllDigits(s: string)
  {
    forall i :: 0 <= i < |s| ==> IsDigit(s[i])
  }

  /** No whitespace at either end. */
  predicate Trimmed(t: string)
  {
    t == [] || (!IsSpace(t[0]) && !IsSpace(t[|t| - 1]))
  }

  predicate AllSpace(s: string)
  {
    forall i :: 0 <= i < |s| ==> IsSpace(s[i])
  }

  function TrimLeft(s: string): (r: string)
    ensures |r| <= |s| && r == s[|s| - |r|..]
    ensures AllSpace(s[..|s| - |r|])
    ensures r == [] || !IsSpace(r[0])
  {
    if s != [] && IsSpace(s[0]) then
      var r := TrimLeft(s[1..]);
      assert s[..|s| - |r|] == [s[0]] + s[1..][..|s| - 1 - |r|];
      r
    else s
  }

  function TrimRight(s: string): (r: string)
    ensures |r| <= |s| && r == s[..|r|]
    ensures AllSpace(s[|r|..])
    ensures r == [] || !IsSpace(r[|r| - 1])
  {
    if s != [] && IsSpace(s[|s| - 1]) then
      var r := TrimRight(s[..|s| - 1]);
      assert s[|r|..] == s[..|s| - 1][|r|..] + [s[|s| - 1]];
      r
    else s
  }

  /** `str.strip()`: the text between the leading and the trailing whitespace. */
  function Trim(s: string): (r: string)
    ensures Trimmed(r) && |r| <= |s|
  {
    var l := TrimLeft(s);
    var r := TrimRight(l);
    assert r == [] || r[0] == l[0];
    r
  }

  /** What `strip()` keeps is one slice of the text, with only whitespace
      before it and after it. */
  lemma TrimSlice(s: string)
    ensures exists i, j :: 0 <= i <= j <= |s| && Trim(s) == s[i..j] && AllSpace(s[..i]) && AllSpace(s[j..])
  {
    var l := TrimLeft(s);
    var r := TrimRight(l);
    var i := |s| - |l|;
    assert r == s[i..i + |r|] && AllSpace(s[i + |r|..]) by {
      assert s[i + |r|..] == l[|r|..];
    }
  }

  lemma TrimOfTrimmed(t: string)
    requires Trimmed(t)
    ensures Trim(t) == t
  {
    if t != [] {
      assert TrimLeft(t) == t;
    }
  }

  function LowerChar(c: char): char
  {
    if 'A' <= c <= 'Z' then (c as int + 32) as char else c
  }

  /** `str.lower()` on ASCII letters; other characters are kept as they are. */
  function Lower(s: string): (r: string)
    ensures |r| == |s|
    ensures forall k :: 0 <= k < |s| ==> r[k] == LowerChar(s[k])
  {
    seq(|s|, k requires 0 <= k < |s| => LowerChar(s[k]))
  }

  /** Any-case spelling of "nan", as `code.lower() != 'nan'` tests it. */
  predicate IsNanText(s: string)
  {
    Lower(s) == "nan"
  }

  // ---------------------------------------------------------------- decimal integers

  function DigitChar(d: nat): (c: char)
    requires d < 10
    ensures IsDigit(c) && DigitVal(c) == d
  {
    ('0' as int + d) as char
  }

  function DigitVal(c: char): nat
    requires IsDigit(c)
  {
    c as int - '0' as int
  }

  /** Decimal digits of a natural number, without leading zeros. */
  function Digits(n: nat): (r: string)
    ensures |r| >= 1 && AllDigits(r)
  {
    if n < 10 then [DigitChar(n)] else Digits(n / 10) + [DigitChar(n % 10)]
  }

  /** Python's `str(n)` for an integer. */
  function DecimalString(n: int): (r: string)
    ensures r != [] && (IsDigit(r[0]) || r[0] == '-')
    ensures r[0] == '-' ==> |r| >= 2 && AllDigits(r[1..])
    ensures r[0] != '-' ==> AllDigits(r)
  {
    if n < 0 then "-" + Digits(-n) else Digits(n)
  }

  function DigitsValue(s: string): nat
    requires AllDigits(s)
  {
    if s == [] then 0 else DigitsValue(s[..|s| - 1]) * 10 + DigitVal(s[|s| - 1])
  }

  lemma {:induction false} DigitsRoundTrip(n: nat)
    ensures DigitsValue(Digits(n)) == n
  {
    if n >= 10 {
      var d := Digits(n / 10);
      var r := d + [DigitChar(n % 10)];
      assert r[..|r| - 1] == d;
      DigitsRoundTrip(n / 10);
    }
  }

  /** Number of leading decimal digits. */
  function DigitRun(t: string): (k: nat)
    ensures k <= |t| && AllDigits(t[..k])
    ensures k < |t| ==> !IsDigit(t[k])
  {
    if t != [] && IsDigit(t[0]) then
      var k := 1 + DigitRun(t[1..]);
      assert t[..k] == [t[0]] + t[1..][..k - 1];
      k
    else 0
  }

  /** `int(float(t))` for an unsigned decimal literal "ddd", "ddd.ddd",
      "ddd." or ".ddd": the integer part, the fraction truncated. */
  function ParseUnsigned(t: string): Option<nat>
  {
    var k := DigitRun(t);
    var rest := t[k..];
    if rest == [] then
      if k > 0 then Some(DigitsValue(t[..k])) else None
    else if rest[0] == '.' && AllDigits(rest[1..]) && (k > 0 || |rest| > 1) then
      Some(DigitsValue(t[..k]))
    else None
  }

  /** `int(float(t))` for a stripped text `t`, or None where Python raises. */
  function ParseNumeric(t: string): Option<int>
  {
    if t != [] && (t[0] == '-' || t[0] == '+') then
      match ParseUnsigned(t[1..])
      case Some(m) =>
        var x: int := m;
        Some(if t[0] == '-' then -x else x)
      case None => None
    else ParseUnsigned(t)
  }

  lemma ParseDigits(ds: string, frac: string)
    requires |ds| >= 1 && AllDigits(ds) && AllDigits(frac)
    ensures ParseUnsigned(ds) == Some(DigitsValue(ds))
    ensures ParseUnsigned(ds + "." + frac) == Some(DigitsValue(ds))
  {
    DigitRunAll(ds, []);
    assert ds + [] == ds;
    DigitRunAll(ds, "." + frac);
    assert ds + "." + frac == ds + ("." + frac);
    assert (ds + ("." + frac))[|ds|..] == "." + frac;
    assert (ds + ("." + frac))[..|ds|] == ds;
  }

  lemma {:induction false} DigitRunAll(ds: string, tail: string)
    requires AllDigits(ds)
    requires tail == [] || !IsDigit(tail[0])
    ensures DigitRun(ds + tail) == |ds|
  {
    if ds != [] {
      assert (ds + tail)[1..] == ds[1..] + tail;
      DigitRunAll(ds[1..], tail);
    }
  }

  /** Parsing Python's rendering of an integer gives the integer back, also
      with a ".0" fraction as pandas renders an integral float. */
  lemma ParseDecimalString(n: int)
    ensures ParseNumeric(DecimalString(n)) == Some(n)
    ensures ParseNumeric(DecimalString(n) + ".0") == Some(n)
  {
    var m: nat := if n < 0 then -n else n;
    var ds := Digits(m);
    DigitsRoundTrip(m);
    assert AllDigits("0");
    ParseDigits(ds, "0");
    var fs := ds + "." + "0";
    if n < 0 {
      assert DecimalString(n) == "-" + ds;
      ParseNegative(ds, m);
      assert DecimalString(n) + ".0" == "-" + fs;
      ParseNegative(fs, m);
    } else {
      assert DecimalString(n) == ds;
      ParseNonNegative(ds, m);
      assert DecimalString(n) + ".0" == fs;
      ParseNonNegative(fs, m);
    }
  }

  lemma ParseNonNegative(s: string, m: nat)
    requires s != [] && IsDigit(s[0]) && ParseUnsigned(s) == Some(m)
    ensures ParseNumeric(s) == Some(m)
  {
  }

  lemma ParseNegative(s: string, m: nat)
    requires ParseUnsigned(s) == Some(m)
    ensures ParseNumeric("-" + s) == Some(-(m as int))
  {
    assert ("-" + s)[1..] == s;
  }

  lemma DecimalStringTrimmed(n: int)
    ensures Trimmed(DecimalString(n))
    ensures Trim(DecimalString(n)) == DecimalString(n)
    ensures Trimmed(DecimalString(n) + ".0")
    ensures Trim(DecimalString(n) + ".0") == DecimalString(n) + ".0"
  {
    var r := DecimalString(n);
    assert IsDigit(r[|r| - 1]) by {
      if r[0] == '-' { assert r[|r| - 1] == r[1..][|r| - 2]; }
    }
    TrimOfTrimmed(r);
    TrimOfTrimmed(r + ".0");
  }

  // ---------------------------------------------------------------- cell conversions

  /** A cell that `int(float(val))` accepts. */
  predicate IsNumeric(v: Value)
  {
    match v
    case Int(_) => true
    case Float(_) => true
    case Str(s) => ParseNumeric(Trim(s)).Some?
    case Missing => false
  }

  function NumericValue(v: Value): int
    requires IsNumeric(v)
  {
    match v
    case Int(i) => i
    case Float(f) => f
    case Str(s) => ParseNumeric(Trim(s)).value
  }

  /** Python's `str(val)`: floats keep their ".0", NaN prints as "nan". */
  function PyStr(v: Value): string
  {
    match v
    case Int(i) => DecimalString(i)
    case Float(f) => DecimalString(f) + ".0"
    case Str(s) => s
    case Missing => "nan"
  }

  /** `normalize_id` and `normalize_code` (one function under two names in the
      source): `str(int(float(val))).strip()`, falling back to
      `str(val).strip()` where the numeric conversion raises. */
  function Normalize(v: Value): string
  {
    match v
    case Int(i) => DecimalString(i)
    case Float(f) => DecimalString(f)
    case Missing => "nan"
    case Str(s) =>
      var t := Trim(s);
      match ParseNumeric(t)
      case Some(n) => DecimalString(n)
      case None => t
  }

  /** A cell that the stricter conversion `str(int(float(x))) if pd.notna(x) else ''`
      accepts without raising. */
  predicate NumericOrMissing(v: Value)
  {
    v.Missing? || IsNumeric(v)
  }

  /** `str(int(float(x))) if pd.notna(x) else ''`, used by the stock check. */
  function StrictKey(v: Value): (r: string)
    requires NumericOrMissing(v)
    ensures v.Missing? <==> r == ""
  {
    if v.Missing? then "" else DecimalString(NumericValue(v))
  }

  // ---------------------------------------------------------------- properties of Normalize

  /** The normaliser is the try/except of the source applied to the text
      `str(val)`: where the stripped text parses as a number the key is that
      number's decimal text, otherwise it is the stripped text itself. */
  lemma NormalizeSpec(v: Value)
    ensures Normalize(v) == match ParseNumeric(Trim(PyStr(v)))
                            case Some(n) => DecimalString(n)
                            case None => Trim(PyStr(v))
    ensures IsNumeric(v) ==> Normalize(v) == DecimalString(NumericValue(v))
    ensures !IsNumeric(v) ==> Normalize(v) == Trim(PyStr(v))
  {
    match v
    case Int(i) =>
      assert ParseNumeric(Trim(PyStr(v))) == Some(i) by {
        RenderedInteger(i);
      }
    case Float(f) =>
      assert ParseNumeric(Trim(PyStr(v))) == Some(f) by {
        RenderedInteger(f);
      }
    case Str(_) =>
    case Missing =>
      assert Trim(PyStr(v)) == "nan" && ParseNumeric("nan") == None by {
        NanText();
      }
  }

  /** Both renderings of an integer strip to themselves and parse back to it. */
  lemma RenderedInteger(n: int)
    ensures ParseNumeric(Trim(DecimalString(n))) == Some(n)
    ensures ParseNumeric(Trim(DecimalString(n) + ".0")) == Some(n)
  {
    DecimalStringTrimmed(n);
    ParseDecimalString(n);
  }

  /** 123, 123.0, "123" and "123.0" all normalise to "123". */
  lemma NormalizeIntegral(n: int)
    ensures Normalize(Int(n)) == DecimalString(n)
    ensures Normalize(Float(n)) == DecimalString(n)
    ensures Normalize(Str(DecimalString(n))) == DecimalString(n)
    ensures Normalize(Str(DecimalString(n) + ".0")) == DecimalString(n)
  {
    DecimalTextNumeric(n);
    FloatTextNumeric(n);
  }

  lemma DecimalTextNumeric(n: int)
    ensures IsNumeric(Str(DecimalString(n))) && NumericValue(Str(DecimalString(n))) == n
  {
    DecimalStringTrimmed(n);
    ParseDecimalString(n);
    NumericText(DecimalString(n), n);
  }

  lemma FloatTextNumeric(n: int)
    ensures IsNumeric(Str(DecimalString(n) + ".0")) && NumericValue(Str(DecimalString(n) + ".0")) == n
  {
    TrimFloatText(n);
    ParseFloatText(n);
    NumericText(DecimalString(n) + ".0", n);
  }

  lemma TrimFloatText(n: int)
    ensures Trim(DecimalString(n) + ".0") == DecimalString(n) + ".0"
  {
    DecimalStringTrimmed(n);
  }

  lemma ParseFloatText(n: int)
    ensures ParseNumeric(DecimalString(n) + ".0") == Some(n)
  {
    ParseDecimalString(n);
  }

  lemma NumericText(t: string, n: int)
    requires Trim(t) == t && ParseNumeric(t) == Some(n)
    ensures IsNumeric(Str(t)) && NumericValue(Str(t)) == n
  {
  }

  /** Normalising a key again changes nothing. */
  lemma NormalizeIdempotent(v: Value)
    ensures Normalize(Str(Normalize(v))) == Normalize(v)
  {
    if IsNumeric(v) {
      NormalizeSpec(v);
      NormalizeIntegral(NumericValue(v));
    } else if v.Str? {
      var t := Trim(v.s);
      assert ParseNumeric(t) == None;
      assert Normalize(v) == t;
      TrimOfTrimmed(t);
      NormalizeFallback(t);
    } else {
      assert Normalize(v) == "nan";
      NanText();
      NormalizeFallback("nan");
    }
  }

  lemma NanText()
    ensures Trim("nan") == "nan" && ParseNumeric("nan") == None
  {
    assert Trim("nan") == "nan" by {
      TrimOfTrimmed("nan");
    }
    assert ParseNumeric("nan") == None by {
      assert DigitRun("nan") == 0;
    }
  }

  /** A stripped text that does not parse as a number is its own key. */
  lemma NormalizeFallback(t: string)
    requires Trim(t) == t && ParseNumeric(t) == None
    ensures Normalize(Str(t)) == t
  {
  }

  /** Normalising `str(val)` gives the same key as normalising `val`. */
  lemma NormalizeOfPyStr(v: Value)
    ensures Normalize(Str(PyStr(v))) == Normalize(v)
  {
    match v
    case Int(i) => NormalizeIntegral(i);
    case Float(f) => NormalizeIntegral(f);
    case Str(_) =>
    case Missing => NormalizeIdempotent(v);
  }

  /** On the cells the strict conversion accepts, it agrees with Normalize
      for numbers; a missing cell becomes "" there and "nan" under Normalize. */
  lemma StrictKeyAgrees(v: Value)
    requires NumericOrMissing(v)
    ensures IsNumeric(v) ==> StrictKey(v) == Normalize(v)
    ensures v.Missing? ==> Normalize(v) == "nan" && StrictKey(v) == ""
  {
  }

  /** A decimal key is never empty and is never a spelling of "nan". */
  lemma DecimalStringIsCode(n: int)
    ensures DecimalString(n) != "" && !IsNanText(DecimalString(n))
  {
    var r := DecimalString(n);
    assert Lower(r)[0] == LowerChar(r[0]) != 'n';
  }
}
