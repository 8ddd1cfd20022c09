/**
 * The numeric normalisers of the browser script (`parseIntOrNull`, `parseFloatOrNull`) and the
 * built-ins they and the filter evaluator lean on (`Number`, `parseInt(x, 10)`, `parseFloat`).
 * Numbers are mathematical: an integer is an `int`, a real is a `real`.
 */
module Numbers {
  import opened Wrappers
  import opened JsText

  /** `s.replace(/[, ]/g, '')`: drop every comma and every U+0020 space. */
  function StripSeparators(s: string): (r: string)
    ensures |r| <= |s|
    decreases |s|
  {
    if s == [] then []
    else (if s[0] == ',' || s[0] == ' ' then [] else [s[0]]) + StripSeparators(s[1..])
  }

  /** Exactly the characters of `s` other than commas and spaces survive. */
  lemma {:induction false} StripSeparatorsChars(s: string)
    ensures forall c :: c in StripSeparators(s) <==> c in s && c != ',' && c != ' '
  {
    if s != [] {
      StripSeparatorsChars(s[1..]);
      assert s == [s[0]] + s[1..];
    }
  }

  /** `String(v).replace(/[, ]/g, '').trim()`, the text both normalisers read. */
  function Cleaned(s: string): string {
    Trim(StripSeparators(s))
  }

  /** `parseIntOrNull(v)`: `None` for null or undefined; otherwise the cleaned text must be all decimal digits. */
  function ParseIntOrNull(v: Option<string>): (r: Option<nat>)
    ensures v.None? ==> r.None?
  {
    match v
    case None => None
    case Some(s) =>
      var t := Cleaned(s);
      if t != [] && AllDigits(t) then Some(DigitsValue(t)) else None
  }

  /** The longest prefix of `s` made of decimal digits. */
  function DigitPrefix(s: string): (r: string)
    ensures |r| <= |s| && r == s[..|r|] && AllDigits(r)
    ensures |r| < |s| ==> !IsDigit(s[|r|])
    decreases |s|
  {
    if s != [] && IsDigit(s[0]) then [s[0]] + DigitPrefix(s[1..]) else []
  }

  /** The value of the digits `fp` read as a decimal fraction `0.fp`. */
  function FractionValue(fp: string): (r: real)
    requires AllDigits(fp)
    ensures 0.0 <= r <= 1.0
    decreases |fp|
  {
    if fp == [] then 0.0 else (DigitValue(fp[0]) as real + FractionValue(fp[1..])) / 10.0
  }

  /** The value of `ip.fp` (either part may be empty). */
  function DecimalValue(ip: string, fp: string): real
    requires AllDigits(ip) && AllDigits(fp)
  {
    DigitsValue(ip) as real + FractionValue(fp)
  }

  /** An unsigned decimal literal `ddd`, `ddd.`, `ddd.ddd` or `.ddd`, read as a whole. */
  function UnsignedDecimal(u: string): Option<real> {
    var ip := DigitPrefix(u);
    var rest := u[|ip|..];
    if rest == [] then
      if ip == [] then None else Some(DigitsValue(ip) as real)
    else if rest[0] == '.' && AllDigits(rest[1..]) && (ip != [] || |rest| > 1) then
      Some(DecimalValue(ip, rest[1..]))
    else None
  }

  /**
   * `Number(t)` on an already trimmed text, when the result is finite: the empty text is 0,
   * otherwise an optionally signed decimal literal.
   */
  function NumberOfText(t: string): Option<real> {
    if t == [] then Some(0.0)
    else if t[0] == '-' then
      match UnsignedDecimal(t[1..])
      case Some(x) => Some(-x)
      case None => None
    else if t[0] == '+' then UnsignedDecimal(t[1..])
    else UnsignedDecimal(t)
  }

  /** `parseFloatOrNull(v)`: `None` for null or undefined, otherwise `Number` of the cleaned text when finite. */
  function ParseFloatOrNull(v: Option<string>): (r: Option<real>)
    ensures v.None? ==> r.None?
  {
    match v
    case None => None
    case Some(s) => NumberOfText(Cleaned(s))
  }

  /** The text after the leading whitespace and an optional sign, and whether the sign was `-`. */
  function SignedBody(x: string): (bool, string) {
    var t := x[LeadingSpaces(x)..];
    if t != [] && (t[0] == '-' || t[0] == '+') then (t[0] == '-', t[1..]) else (false, t)
  }

  /** `parseInt(x, 10)`: the optionally signed digits at the head of `x`; `None` stands for NaN. */
  function JsParseInt(x: string): Option<int> {
    var (neg, body) := SignedBody(x);
    var d := DigitPrefix(body);
    var m: int := if d == [] then 0 else DigitsValue(d);
    if d == [] then None else Some(if neg then -m else m)
  }

  /** `parseFloat(x)`: the optionally signed decimal literal at the head of `x`; `None` stands for NaN. */
  function JsParseFloat(x: string): Option<real> {
    var (neg, body) := SignedBody(x);
    var ip := DigitPrefix(body);
    var rest := body[|ip|..];
    var fp := if rest != [] && rest[0] == '.' then DigitPrefix(rest[1..]) else [];
    if ip == [] && fp == [] then None
    else
      var x := DecimalValue(ip, fp);
      Some(if neg then -x else x)
  }

  /** The decimal digits of `s`, in order. */
  function OnlyDigits(s: string): (r: string)
    ensures AllDigits(r)
    decreases |s|
  {
    if s == [] then [] else (if IsDigit(s[0]) then [s[0]] else []) + OnlyDigits(s[1..])
  }

  lemma {:induction false} OnlyDigitsAppend(a: string, b: string)
    ensures OnlyDigits(a + b) == OnlyDigits(a) + OnlyDigits(b)
  {
    if a == [] {
      assert a + b == b;
    } else {
      var h := if IsDigit(a[0]) then [a[0]] else [];
      assert (a + b)[0] == a[0];
      assert (a + b)[1..] == a[1..] + b;
      OnlyDigitsAppend(a[1..], b);
      assert OnlyDigits(a + b) == h + OnlyDigits(a[1..] + b);
      assert OnlyDigits(a) == h + OnlyDigits(a[1..]);
    }
  }

  lemma {:induction false} OnlyDigitsOfDigits(s: string)
    requires AllDigits(s)
    ensures OnlyDigits(s) == s
  {
    if s != [] {
      OnlyDigitsOfDigits(s[1..]);
    }
  }

  lemma {:induction false} OnlyDigitsOfSpaces(s: string)
    requires forall k :: 0 <= k < |s| ==> IsJsSpace(s[k])
    ensures OnlyDigits(s) == []
  {
    if s != [] {
      assert IsJsSpace(s[0]);
      OnlyDigitsOfSpaces(s[1..]);
    }
  }

  lemma {:induction false} OnlyDigitsStrip(s: string)
    ensures OnlyDigits(StripSeparators(s)) == OnlyDigits(s)
  {
    if s != [] {
      var head := if s[0] == ',' || s[0] == ' ' then [] else [s[0]];
      OnlyDigitsAppend(head, StripSeparators(s[1..]));
      OnlyDigitsStrip(s[1..]);
    }
  }

  /** Trimming removes whitespace only, so it keeps every digit. */
  lemma OnlyDigitsTrim(s: string)
    ensures OnlyDigits(Trim(s)) == OnlyDigits(s)
  {
    var i, r := LeadingSpaces(s), Trim(s);
    TrimShape(s);
    var a, c := s[..i], s[i + |r|..];
    assert s == a + r + c;
    OnlyDigitsPadded(a, r, c);
  }

  /** White space around a text adds no digit. */
  lemma OnlyDigitsPadded(a: string, r: string, c: string)
    requires forall k :: 0 <= k < |a| ==> IsJsSpace(a[k])
    requires forall k :: 0 <= k < |c| ==> IsJsSpace(c[k])
    ensures OnlyDigits(a + r + c) == OnlyDigits(r)
  {
    OnlyDigitsAppend(a + r, c);
    OnlyDigitsAppend(a, r);
    OnlyDigitsOfSpaces(a);
    OnlyDigitsOfSpaces(c);
  }

  lemma {:induction false} StripSeparatorsOfDigits(s: string)
    requires AllDigits(s)
    ensures StripSeparators(s) == s
  {
    if s != [] {
      StripSeparatorsOfDigits(s[1..]);
    }
  }

  /**
   * Thousands separators and spaces do not matter: any text that becomes the decimal text of `n`
   * once commas and spaces are dropped (`"1,200"`, `" 1 200 "`) parses to `n`.
   */
  lemma ParseIntOrNullSeparated(s: string, n: nat)
    requires StripSeparators(s) == NatStr(n)
    ensures ParseIntOrNull(Some(s)) == Some(n)
  {
    TrimUnpadded(NatStr(n));
  }

  /** The decimal text of every natural number parses back to it. */
  lemma {:induction false} ParseIntOrNullRoundTrip(n: nat)
    ensures ParseIntOrNull(Some(NatStr(n))) == Some(n)
  {
    StripSeparatorsOfDigits(NatStr(n));
    ParseIntOrNullSeparated(NatStr(n), n);
  }

  /** A parsed count is the number written by the digits of the input, read in order. */
  lemma ParseIntOrNullValue(s: string, n: nat)
    requires ParseIntOrNull(Some(s)) == Some(n)
    ensures OnlyDigits(s) != [] && n == DigitsValue(OnlyDigits(s))
  {
    var t := Cleaned(s);
    OnlyDigitsOfDigits(t);
    OnlyDigitsTrim(StripSeparators(s));
    OnlyDigitsStrip(s);
  }

  /**
   * Any character other than a digit, a comma or whitespace (a sign, a decimal point, a letter)
   * makes `parseIntOrNull` fail.
   */
  lemma ParseIntOrNullRejects(s: string, k: nat)
    requires k < |s| && !IsDigit(s[k]) && s[k] != ',' && !IsJsSpace(s[k])
    ensures ParseIntOrNull(Some(s)) == None
  {
    var c := s[k];
    StripSeparatorsChars(s);
    assert c in StripSeparators(s);
    var u := StripSeparators(s);
    var j :| 0 <= j < |u| && u[j] == c;
    TrimKeeps(u);
    assert c in Cleaned(s);
  }

  lemma {:induction false} StripSeparatorsAppend(a: string, b: string)
    ensures StripSeparators(a + b) == StripSeparators(a) + StripSeparators(b)
  {
    if a == [] {
      assert a + b == b;
    } else {
      var h := if a[0] == ',' || a[0] == ' ' then [] else [a[0]];
      assert (a + b)[0] == a[0];
      assert (a + b)[1..] == a[1..] + b;
      StripSeparatorsAppend(a[1..], b);
      assert StripSeparators(a + b) == h + StripSeparators(a[1..] + b);
      assert StripSeparators(a) == h + StripSeparators(a[1..]);
    }
  }

  lemma StripSeparatorsComma()
    ensures StripSeparators(",") == ""
  {
  }

  /** One thousands separator between two separator-free texts is dropped. */
  lemma StripComma(a: string, b: string)
    requires ',' !in a && ' ' !in a && ',' !in b && ' ' !in b
    ensures StripSeparators(a + "," + b) == a + b
  {
    StripSeparatorsAppend(a + ",", b);
    StripSeparatorsAppend(a, ",");
    StripSeparatorsNone(a);
    StripSeparatorsNone(b);
    StripSeparatorsComma();
    assert StripSeparators(a + ",") == a;
  }

  /** `"1,200"` reads as 1200: commas are thousands separators. */
  lemma ParseIntOrNullThousands(s: string)
    requires s == "1,200"
    ensures ParseIntOrNull(Some(s)) == Some(1200)
  {
    StrippedTwelveHundred(s);
    ParseIntOrNullSeparated(s, 1200);
  }

  lemma StrippedTwelveHundred(s: string)
    requires s == "1,200"
    ensures StripSeparators(s) == NatStr(1200)
  {
    assert NatStr(1200) == "1200" by {
      assert NatStr(1) == "1";
      assert NatStr(12) == "12";
      assert NatStr(120) == "120";
    }
    assert s == "1" + "," + "200";
    StripComma("1", "200");
    assert "1" + "200" == "1200";
  }

  /** `"12.5"`, `"+5"`, `"greenhouse"` and the empty text do not read as counts. */
  lemma ParseIntOrNullFailures(decimal: string, signed: string, word: string)
    requires decimal == "12.5" && signed == "+5" && word == "greenhouse"
    ensures ParseIntOrNull(Some(decimal)) == None
    ensures ParseIntOrNull(Some(signed)) == None
    ensures ParseIntOrNull(Some(word)) == None
    ensures ParseIntOrNull(Some("")) == None
  {
    ParseIntOrNullRejects(decimal, 2);
    ParseIntOrNullRejects(signed, 0);
    ParseIntOrNullRejects(word, 0);
  }

  /** A blank value, or one made only of commas and whitespace, reads as area 0 (`Number("")` is 0). */
  lemma ParseFloatOrNullBlank(s: string)
    requires forall k :: 0 <= k < |s| ==> s[k] == ',' || IsJsSpace(s[k])
    ensures ParseFloatOrNull(Some(s)) == Some(0.0)
  {
    var u := StripSeparators(s);
    StripSeparatorsChars(s);
    forall k | 0 <= k < |u| ensures IsJsSpace(u[k]) {
      assert u[k] in u;
    }
    TrimEmptyIffBlank(u);
  }

  lemma {:induction false} DigitPrefixOfDigits(s: string)
    requires AllDigits(s)
    ensures DigitPrefix(s) == s
  {
    if s != [] {
      DigitPrefixOfDigits(s[1..]);
    }
  }

  /** Wherever `parseIntOrNull` succeeds, `parseFloatOrNull` gives the same number. */
  lemma ParseFloatAgreesWithParseInt(v: Option<string>, n: nat)
    requires ParseIntOrNull(v) == Some(n)
    ensures ParseFloatOrNull(v) == Some(n as real)
  {
    var t := Cleaned(v.value);
    assert IsDigit(t[0]);
    DigitPrefixOfDigits(t);
    assert t[|t|..] == [];
  }

  /** A minus sign negates: `"-x"` reads as the negation of `"x"` when `x` is an unsigned literal. */
  lemma ParseFloatNegative(s: string)
    requires s != [] && s[0] != '-' && s[0] != '+' && UnsignedDecimal(s).Some?
    requires !IsJsSpace(s[|s| - 1]) && ',' !in s && ' ' !in s
    ensures ParseFloatOrNull(Some("-" + s)) == Some(-UnsignedDecimal(s).value)
  {
    var m := "-" + s;
    assert ',' !in m && ' ' !in m;
    assert m[|m| - 1] == s[|s| - 1];
    CleanedUnpadded(m);
    NumberOfNegative(s);
  }

  lemma NumberOfNegative(s: string)
    ensures NumberOfText("-" + s) == if UnsignedDecimal(s).Some? then Some(-UnsignedDecimal(s).value) else None
  {
    var m := "-" + s;
    assert m[0] == '-' && m[1..] == s;
  }

  /** A text without separators and without padding is already clean. */
  lemma CleanedUnpadded(m: string)
    requires ',' !in m && ' ' !in m
    requires m == [] || (!IsJsSpace(m[0]) && !IsJsSpace(m[|m| - 1]))
    ensures Cleaned(m) == m
  {
    StripSeparatorsNone(m);
    TrimUnpadded(m);
  }

  lemma {:induction false} StripSeparatorsNone(s: string)
    requires ',' !in s && ' ' !in s
    ensures StripSeparators(s) == s
  {
    if s != [] {
      assert s == [s[0]] + s[1..];
      StripSeparatorsNone(s[1..]);
    }
  }

  /** The digit prefix of digits followed by a non-digit is those digits. */
  lemma {:induction false} DigitPrefixAppend(ip: string, rest: string)
    requires AllDigits(ip) && (rest == [] || !IsDigit(rest[0]))
    ensures DigitPrefix(ip + rest) == ip
  {
    if ip != [] {
      assert (ip + rest)[1..] == ip[1..] + rest;
      DigitPrefixAppend(ip[1..], rest);
    }
  }

  /** A literal `ip.fp` with a non-empty integer part is read as the value of its two parts. */
  lemma UnsignedDecimalParts(ip: string, fp: string)
    requires AllDigits(ip) && AllDigits(fp) && ip != []
    ensures UnsignedDecimal(ip + "." + fp) == Some(DecimalValue(ip, fp))
  {
    var u := ip + "." + fp;
    assert u == ip + ("." + fp);
    DigitPrefixAppend(ip, "." + fp);
    assert u[|ip|..] == "." + fp;
    assert ("." + fp)[1..] == fp;
  }

  /** A literal `ip.fp` has no separators and no padding, so cleaning leaves it as it is. */
  lemma CleanedDecimal(ip: string, fp: string)
    requires AllDigits(ip) && AllDigits(fp) && ip != []
    ensures StripSeparators(ip + "." + fp) == ip + "." + fp
    ensures Cleaned(ip + "." + fp) == ip + "." + fp
  {
    var t := ip + "." + fp;
    DecimalTextChars(ip, fp);
    StripSeparatorsNone(t);
    CleanedUnpadded(t);
  }

  /** A literal `ip.fp` holds only digits and the point, and starts and ends with neither space nor separator. */
  lemma DecimalTextChars(ip: string, fp: string)
    requires AllDigits(ip) && AllDigits(fp) && ip != []
    ensures var t := ip + "." + fp;
      && ',' !in t && ' ' !in t
      && !IsJsSpace(t[0]) && !IsJsSpace(t[|t| - 1])
  {
    var t := ip + "." + fp;
    assert forall k :: 0 <= k < |t| ==> t[k] == '.' || IsDigit(t[k]);
    assert t[0] == ip[0];
  }

  /** `Number` reads an unsigned literal `ip.fp` as the value of its two parts. */
  lemma NumberOfDecimal(ip: string, fp: string)
    requires AllDigits(ip) && AllDigits(fp) && ip != []
    ensures NumberOfText(ip + "." + fp) == Some(DecimalValue(ip, fp))
  {
    var t := ip + "." + fp;
    assert t[0] == ip[0];
    UnsignedDecimalParts(ip, fp);
  }

  lemma DigitsValue12And50()
    ensures DigitsValue("12") == 12 && DigitsValue("50") == 50
  {
    assert "12"[..1] == "1";
    assert "50"[..1] == "5";
  }

  /** `parseFloatOrNull` reads an unsigned literal `ip.fp` as the value of its two parts. */
  lemma ParseFloatOrNullLiteral(ip: string, fp: string)
    requires AllDigits(ip) && AllDigits(fp) && ip != []
    ensures ParseFloatOrNull(Some(ip + "." + fp)) == Some(DecimalValue(ip, fp))
  {
    CleanedDecimal(ip, fp);
    NumberOfDecimal(ip, fp);
  }

  /** `"12.50"` reads as 12.5: trailing zeros of the fraction add nothing. */
  lemma ParseFloatOrNullDecimal(t: string)
    requires t == "12.50"
    ensures ParseFloatOrNull(Some(t)) == Some(12.5)
  {
    assert t == "12" + "." + "50";
    ParseFloatOrNullLiteral("12", "50");
    DecimalValue12And50();
  }

  lemma DecimalValue12And50()
    ensures AllDigits("12") && AllDigits("50") && DecimalValue("12", "50") == 12.5
  {
    DigitsValue12And50();
    assert FractionValue("50") == 0.5 by { assert "50"[1..] == "0"; assert "0"[1..] == ""; }
  }

  lemma DigitsValue1234And5()
    ensures DigitsValue("1234") == 1234 && DigitsValue("5") == 5
  {
    assert "1234"[..3] == "123";
    assert "123"[..2] == "12";
    assert "12"[..1] == "1";
    assert "5"[..0] == "";
  }

  /** `"1,234.5"` reads as 1234.5: the comma is dropped before the decimal is read. */
  lemma ParseFloatOrNullThousands(s: string, t: string)
    requires s == "1,234.5" && t == "1234.5"
    ensures ParseFloatOrNull(Some(s)) == Some(1234.5)
  {
    StrippedThousands(s);
    ParseFloatOrNullStripped(s, "1234", "5");
    DecimalValue1234And5();
  }

  lemma StrippedThousands(s: string)
    requires s == "1,234.5"
    ensures StripSeparators(s) == "1234" + "." + "5"
  {
    assert s == "1" + "," + "234.5";
    assert ',' !in "234.5" && ' ' !in "234.5";
    StripComma("1", "234.5");
    assert "1" + "234.5" == "1234" + "." + "5";
  }

  lemma DecimalValue1234And5()
    ensures AllDigits("1234") && AllDigits("5") && DecimalValue("1234", "5") == 1234.5
  {
    DigitsValue1234And5();
    assert FractionValue("5") == 0.5 by { assert "5"[1..] == ""; }
  }

  /** Whatever text strips to an unsigned literal `ip.fp` reads as the value of its two parts. */
  lemma ParseFloatOrNullStripped(s: string, ip: string, fp: string)
    requires AllDigits(ip) && AllDigits(fp) && ip != []
    requires StripSeparators(s) == ip + "." + fp
    ensures ParseFloatOrNull(Some(s)) == Some(DecimalValue(ip, fp))
  {
    CleanedDecimal(ip, fp);
    NumberOfDecimal(ip, fp);
  }

  /** `"n/a"` does not read as an area, and the empty text reads as 0. */
  lemma ParseFloatOrNullOthers(s: string)
    requires s == "n/a"
    ensures ParseFloatOrNull(Some(s)) == None
    ensures ParseFloatOrNull(Some("")) == Some(0.0)
  {
    CleanedUnpadded(s);
    assert DigitPrefix(s) == "";
  }

  /** `parseInt` and `parseFloat` both read the decimal text of a natural number back exactly. */
  lemma BuiltinsReadNatStr(n: nat)
    ensures JsParseInt(NatStr(n)) == Some(n)
    ensures JsParseFloat(NatStr(n)) == Some(n as real)
  {
    var s := NatStr(n);
    assert LeadingSpaces(s) == 0 by { assert IsDigit(s[0]); }
    assert s[0..] == s;
    DigitPrefixOfDigits(s);
    assert s[|s|..] == [];
  }

  /** Both built-ins give NaN on empty text. */
  lemma BuiltinsEmpty()
    ensures JsParseInt("") == None && JsParseFloat("") == None
  {
  }
}
