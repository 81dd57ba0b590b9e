/**
 * JavaScript number parsing and formatting over exact reals: `parseFloat` on
 * decimal text, `Number.prototype.toFixed` (rounding half away from zero), the
 * short `toString` of a two-decimal value, and the `NaN`/`Infinity` values that
 * the arithmetic of the application can produce.
 */
module JsNumber {
  import opened Wrappers
  import opened JsText

  function Pow10(d: nat): (p: nat)
    ensures p >= 1
  {
    if d == 0 then 1 else 10 * Pow10(d - 1)
  }

  function Abs(x: real): (a: real)
    ensures a >= 0.0 && (a == x || a == -x)
  {
    if x < 0.0 then -x else x
  }

  // ---------------------------------------------------------------------------
  // parseFloat
  // ---------------------------------------------------------------------------

  /** The longest prefix of `s` made of decimal digits. */
  function LeadingDigits(s: string): (r: string)
    ensures |r| <= |s|
  {
    if s == [] || !IsDigit(s[0]) then [] else [s[0]] + LeadingDigits(s[1..])
  }

  /**
   * The digits of a decimal number before and after its point, and the power
   * of ten its exponent part names.
   */
  datatype Decimal = Decimal(intDigits: string, fracDigits: string, exponent: int)
  {
    /** The number the digits alone denote. */
    function Mantissa(): real
    {
      (DigitsValue(intDigits) as real) + (DigitsValue(fracDigits) as real) / (Pow10(|fracDigits|) as real)
    }

    /** The number the digits and the exponent denote. */
    function Value(): real
    {
      if exponent >= 0 then Mantissa() * (Pow10(exponent) as real) else Mantissa() / (Pow10(-exponent) as real)
    }
  }

  /**
   * The exponent part `[eE][+-]?digits` at the start of `u`, or 0 when `u`
   * does not start with one: an `e` without digits ends the number before it.
   */
  function ScanExponent(u: string): int
  {
    if u == [] || (u[0] != 'e' && u[0] != 'E') then 0
    else
      var v := u[1..];
      var w := if v != [] && (v[0] == '-' || v[0] == '+') then v[1..] else v;
      var ds := LeadingDigits(w);
      if ds == [] then 0
      else if v[0] == '-' then -(DigitsValue(ds) as int)
      else DigitsValue(ds)
  }

  /** The unsigned decimal number at the start of `u`, if `u` starts with one. */
  function ScanDecimal(u: string): (r: Option<Decimal>)
  {
    var ip := LeadingDigits(u);
    var rest := u[|ip|..];
    var hasPoint := rest != [] && rest[0] == '.';
    var fp := if hasPoint then LeadingDigits(rest[1..]) else [];
    var after := if hasPoint then rest[1 + |fp|..] else rest;
    if ip == [] && fp == [] then None else Some(Decimal(ip, fp, ScanExponent(after)))
  }

  /** The text after the white space and the sign that `parseFloat` skips. */
  function Unsigned(s: string): string {
    var t := TrimStart(s);
    if t != [] && (t[0] == '-' || t[0] == '+') then t[1..] else t
  }

  /** Whether the number `parseFloat` reads carries a minus sign. */
  predicate NegativeSign(s: string) {
    var t := TrimStart(s);
    t != [] && t[0] == '-'
  }

  /**
   * `parseFloat(s)`: leading white space is skipped, then the longest prefix of
   * the form `[+-]? digits? ('.' digits?)? ([eE] [+-]? digits)?` with at least
   * one digit before the exponent is read; `None` is `NaN` (no digit where a
   * number should start).
   */
  function ParseFloat(s: string): (r: Option<real>)
  {
    var dec := ScanDecimal(Unsigned(s));
    if dec.None? then None
    else if NegativeSign(s) then Some(-dec.value.Value())
    else Some(dec.value.Value())
  }

  /** `isNaN(parseFloat(s))` is false: the text starts with a number. */
  predicate IsNumeric(s: string) {
    ParseFloat(s).Some?
  }

  /** A number that starts with a digit-free text is rejected, whatever follows. */
  lemma ParseFloatNaN(s: string)
    requires s != [] && !IsSpace(s[0]) && !IsDigit(s[0]) && s[0] !in "+-."
    ensures ParseFloat(s) == None
  {
  }

  /**
   * The exponent part scales the number: "2e1" is 20 and "1.5E-1" is 0.15,
   * while an `e` without digits after it ends the number, so "2e" and "2e+"
   * are 2.
   */
  lemma ExponentExamples()
    ensures ParseFloat("2e1") == Some(20.0)
    ensures ParseFloat("1.5E-1") == Some(0.15)
    ensures ParseFloat("2e") == Some(2.0)
    ensures ParseFloat("2e+") == Some(2.0)
  {
    ExponentPositive();
    ExponentNegative();
    ExponentWithoutDigits("e");
    assert "2" + "e" == "2e";
    ExponentWithoutDigits("e+");
    assert "2" + "e+" == "2e+";
  }

  lemma ExponentPositive()
    ensures ParseFloat("2e1") == Some(20.0)
  {
    var u := "2e1";
    TrimStartNonSpace(u);
    assert "2" + "e1" == u;
    LeadingDigitsAppend("2", "e1");
    assert "1" + "" == "1";
    LeadingDigitsAppend("1", "");
    assert ScanExponent("e1") == 1;
    assert ScanDecimal(u) == Some(Decimal("2", "", 1));
  }

  lemma ExponentNegative()
    ensures ParseFloat("1.5E-1") == Some(0.15)
  {
    var u := "1.5E-1";
    var dec := Decimal("1", "5", -1);
    assert Unsigned(u) == u && !NegativeSign(u) by {
      TrimStartNonSpace(u);
    }
    ScanNegativeExponent();
    NegativeExponentValue();
    ParseFromScan(u, dec);
  }

  lemma NegativeExponentValue()
    ensures Decimal("1", "5", -1).Value() == 0.15
  {
    assert Decimal("1", "5", -1).Mantissa() == 1.5;
  }

  lemma ScanNegativeExponent()
    ensures ScanDecimal("1.5E-1") == Some(Decimal("1", "5", -1))
  {
    var u := "1.5E-1";
    assert "1" + ".5E-1" == u;
    LeadingDigitsAppend("1", ".5E-1");
    assert u[1..] == ".5E-1";
    assert u[2..] == "5" + "E-1";
    LeadingDigitsAppend("5", "E-1");
    assert u[3..] == "E-1";
    assert "1" + "" == "1";
    LeadingDigitsAppend("1", "");
    assert ScanExponent("E-1") == -1;
  }

  /** "2" followed by an `e`, and a sign or nothing, reads as 2. */
  lemma ExponentWithoutDigits(tail: string)
    requires tail == "e" || tail == "e+"
    ensures ParseFloat("2" + tail) == Some(2.0)
  {
    var u := "2" + tail;
    TrimStartNonSpace(u);
    LeadingDigitsAppend("2", tail);
    assert ScanExponent(tail) == 0;
    assert ScanDecimal(u) == Some(Decimal("2", "", 0));
  }

  /** `parseFloat` stops at the first character that cannot continue the number. */
  lemma {:induction false} LeadingDigitsAppend(a: string, b: string)
    requires AllDigits(a)
    requires b == [] || !IsDigit(b[0])
    ensures LeadingDigits(a + b) == a
    decreases |a|
  {
    if a != [] {
      assert (a + b)[1..] == a[1..] + b;
      LeadingDigitsAppend(a[1..], b);
    }
  }

  // ---------------------------------------------------------------------------
  // toFixed
  // ---------------------------------------------------------------------------

  /** `|x|` scaled to `d` decimals and rounded to the nearest integer, ties upwards. */
  function ScaledMagnitude(x: real, d: nat): nat {
    var y := Abs(x) * (Pow10(d) as real) + 0.5;
    assert y >= 0.0;
    y.Floor
  }

  /** `x` rounded to `d` decimals, halves away from zero: the number `x.toFixed(d)` denotes. */
  function Round(x: real, d: nat): real {
    Unscale(x < 0.0, ScaledMagnitude(x, d), d)
  }

  /** The signed number a scaled magnitude `n` with `d` decimals stands for. */
  function Unscale(negative: bool, n: nat, d: nat): real {
    var m := (n as real) / (Pow10(d) as real);
    if negative then -m else m
  }

  /** Exactly `d` digits of `n`, the least significant ones, with leading zeros. */
  function FixedDigits(n: nat, d: nat): (s: string)
    ensures |s| == d && AllDigits(s)
  {
    if d == 0 then [] else FixedDigits(n / 10, d - 1) + [DigitChar(n % 10)]
  }

  /** `n` with its last `d` decimal digits dropped. */
  function DropDigits(n: nat, d: nat): nat {
    if d == 0 then n else DropDigits(n / 10, d - 1)
  }

  /** The text of the scaled magnitude `n` with `d` decimals and an optional minus sign. */
  function FormatScaled(negative: bool, n: nat, d: nat): (s: string)
  {
    var fd := FixedDigits(n, d);
    var body := NatToString(DropDigits(n, d)) + (if fd == [] then "" else "." + fd);
    if negative then "-" + body else body
  }

  /** `x.toFixed(d)`: an optional minus sign, the integer part, and `d` fraction digits. */
  function FormatFixed(x: real, d: nat): (s: string)
  {
    FormatScaled(x < 0.0, ScaledMagnitude(x, d), d)
  }

  /** `parseFloat(x.toFixed(d))`, the rounding idiom used for every stored statistic. */
  function RoundTrip(x: real, d: nat): Option<real> {
    ParseFloat(FormatFixed(x, d))
  }

  /** The dropped digits and the kept ones recompose the number. */
  lemma {:induction false} DigitsRecompose(n: nat, d: nat)
    ensures DropDigits(n, d) * Pow10(d) + DigitsValue(FixedDigits(n, d)) == n
  {
    if d > 0 {
      var m := n / 10;
      DigitsRecompose(m, d - 1);
      var t := FixedDigits(m, d - 1);
      DigitsValueSnoc(t, DigitChar(n % 10));
      ScaleByTen(DropDigits(m, d - 1), Pow10(d - 1), DigitsValue(t), m);
    }
  }

  lemma DigitsValueSnoc(t: string, c: char)
    requires AllDigits(t) && IsDigit(c)
    ensures AllDigits(t + [c])
    ensures DigitsValue(t + [c]) == 10 * DigitsValue(t) + DigitValue(c)
  {
    var s := t + [c];
    assert s[..|s| - 1] == t;
  }

  lemma ScaleByTen(q: nat, p: nat, v: nat, m: nat)
    requires q * p + v == m
    ensures q * (10 * p) + (10 * v) == 10 * m
  {
  }

  /** Integer part plus fraction over the scale is the scaled integer over the scale. */
  lemma SplitScaled(q: nat, f: nat, n: nat, p: nat)
    requires p >= 1 && q * p + f == n
    ensures (q as real) + (f as real) / (p as real) == (n as real) / (p as real)
  {
    assert (n as real) == (q as real) * (p as real) + (f as real);
  }

  /** An integer part alone is scanned as a number without fraction. */
  lemma ScanInteger(ip: string)
    requires AllDigits(ip) && ip != []
    ensures ScanDecimal(ip) == Some(Decimal(ip, "", 0))
  {
    LeadingDigitsAppend(ip, "");
    assert ip + "" == ip;
  }

  /** An integer part, a point and a fraction are scanned as those two digit strings. */
  lemma ScanFraction(ip: string, fd: string)
    requires AllDigits(ip) && AllDigits(fd) && ip != [] && fd != []
    ensures ScanDecimal(ip + "." + fd) == Some(Decimal(ip, fd, 0))
  {
    var tail := "." + fd;
    var u := ip + tail;
    assert u == ip + "." + fd;
    LeadingDigitsAppend(ip, tail);
    var rest := u[|ip|..];
    assert rest == tail;
    assert rest[1..] == fd + "";
    LeadingDigitsAppend(fd, "");
  }

  /** A text starting with a digit has no sign to skip. */
  lemma UnsignedDigit(body: string)
    requires body != [] && IsDigit(body[0])
    ensures Unsigned(body) == body && !NegativeSign(body)
  {
    assert !IsSpace(body[0]);
    TrimStartNonSpace(body);
  }

  /** A minus sign before a digit is skipped and remembered. */
  lemma UnsignedMinus(body: string)
    requires body != [] && IsDigit(body[0])
    ensures Unsigned("-" + body) == body && NegativeSign("-" + body)
  {
    var s := "-" + body;
    TrimStartNonSpace(s);
    assert s[1..] == body;
  }

  /** `parseFloat` returns the value of the digits it scans, with the sign it skipped. */
  lemma ParseFromScan(s: string, dec: Decimal)
    requires ScanDecimal(Unsigned(s)) == Some(dec)
    ensures ParseFloat(s) == Some(if NegativeSign(s) then -dec.Value() else dec.Value())
  {
  }

  /** The digits `FormatScaled` writes for the scaled magnitude `n`. */
  function ScaledDecimal(n: nat, d: nat): (dec: Decimal)
    ensures dec.intDigits != [] && |dec.fracDigits| == d
  {
    Decimal(NatToString(DropDigits(n, d)), FixedDigits(n, d), 0)
  }

  /** `FormatScaled` writes the sign and the digits of `ScaledDecimal`. */
  lemma ScanFormatScaled(negative: bool, n: nat, d: nat)
    ensures var s := FormatScaled(negative, n, d);
      ScanDecimal(Unsigned(s)) == Some(ScaledDecimal(n, d)) && NegativeSign(s) == negative
  {
    var ip := NatToString(DropDigits(n, d));
    var fd := FixedDigits(n, d);
    var body := ip + (if fd == [] then "" else "." + fd);
    assert body[0] == ip[0];
    if fd == [] {
      ScanInteger(ip);
      assert body == ip;
    } else {
      ScanFraction(ip, fd);
      assert body == ip + "." + fd;
    }
    var s := FormatScaled(negative, n, d);
    if negative {
      assert s == "-" + body;
      UnsignedMinus(body);
    } else {
      assert s == body;
      UnsignedDigit(body);
    }
    assert ScanDecimal(body) == Some(Decimal(ip, fd, 0));
  }

  /** The digits of `ScaledDecimal` denote the scaled magnitude divided by the scale. */
  lemma ScaledDecimalValue(n: nat, d: nat)
    ensures ScaledDecimal(n, d).Value() == (n as real) / (Pow10(d) as real)
  {
    var dec := ScaledDecimal(n, d);
    assert dec.Value() == dec.Mantissa();
    NatToStringValue(DropDigits(n, d));
    DigitsRecompose(n, d);
    SplitScaled(DropDigits(n, d), DigitsValue(dec.fracDigits), n, Pow10(d));
  }

  /** Reading back the text of a scaled magnitude gives its value. */
  lemma FormatScaledValue(negative: bool, n: nat, d: nat)
    ensures ParseFloat(FormatScaled(negative, n, d)) == Some(Unscale(negative, n, d))
  {
    var s := FormatScaled(negative, n, d);
    var dec := ScaledDecimal(n, d);
    ScanFormatScaled(negative, n, d);
    ParseFromScan(s, dec);
    ScaledDecimalValue(n, d);
    ParsedUnscale(negative, n, d, s, dec);
  }

  lemma ParsedUnscale(negative: bool, n: nat, d: nat, s: string, dec: Decimal)
    requires NegativeSign(s) == negative
    requires dec.Value() == (n as real) / (Pow10(d) as real)
    requires ParseFloat(s) == Some(if NegativeSign(s) then -dec.Value() else dec.Value())
    ensures ParseFloat(s) == Some(Unscale(negative, n, d))
  {
  }

  /** Reading back what `toFixed` wrote gives the rounded number: `toFixed` and `parseFloat` are inverse. */
  lemma FormatFixedRoundTrip(x: real, d: nat)
    ensures ParseFloat(FormatFixed(x, d)) == Some(Round(x, d))
  {
    FormatScaledValue(x < 0.0, ScaledMagnitude(x, d), d);
  }

  /** `parseFloat(x.toFixed(d))` is `x` rounded to `d` decimals. */
  lemma RoundTripIsRound(x: real, d: nat)
    ensures RoundTrip(x, d) == Some(Round(x, d))
  {
    FormatFixedRoundTrip(x, d);
  }

  /** Rounding moves a number by at most half a unit of the last kept decimal. */
  lemma RoundError(x: real, d: nat)
    ensures Abs(Round(x, d) - x) <= 0.5 / (Pow10(d) as real)
  {
    var m := RoundedMagnitude(x, d);
    SignedError(Round(x, d), x, m, 0.5 / (Pow10(d) as real));
  }

  /** The magnitude of the rounded number, within half a unit of `|x|`. */
  lemma RoundedMagnitude(x: real, d: nat) returns (m: real)
    ensures Round(x, d) == (if x < 0.0 then -m else m)
    ensures Abs(m - Abs(x)) <= 0.5 / (Pow10(d) as real)
  {
    var p := Pow10(d) as real;
    var n := ScaledMagnitude(x, d);
    m := (n as real) / p;
    assert Abs(m - Abs(x)) <= 0.5 / p by {
      FloorBounds(Abs(x) * p + 0.5, n);
      DivBounds(Abs(x), n as real, p);
    }
  }

  lemma FloorBounds(y: real, n: int)
    requires n == y.Floor
    ensures y - 1.0 < n as real <= y
  {
  }

  lemma DivBounds(a: real, n: real, p: real)
    requires p >= 1.0
    requires a * p - 0.5 < n <= a * p + 0.5
    ensures Abs(n / p - a) <= 0.5 / p
  {
    var e := n - a * p;
    assert -0.5 < e <= 0.5;
    assert n / p - a == e / p;
  }

  /** Giving the rounded magnitude the sign of `x` keeps its distance to `x`. */
  lemma SignedError(r: real, x: real, m: real, bound: real)
    requires r == (if x < 0.0 then -m else m)
    requires Abs(m - Abs(x)) <= bound
    ensures Abs(r - x) <= bound
  {
  }

  /** Rounding does not change the sign. */
  lemma RoundSign(x: real, d: nat)
    ensures x >= 0.0 ==> Round(x, d) >= 0.0
    ensures x <= 0.0 ==> Round(x, d) <= 0.0
  {
  }

  /** Rounding a number twice to the same precision changes nothing more. */
  lemma RoundIdempotent(x: real, d: nat)
    ensures Round(Round(x, d), d) == Round(x, d)
  {
    var p := Pow10(d) as real;
    var n := ScaledMagnitude(x, d);
    var r := Round(x, d);
    assert Abs(r) == (n as real) / p;
    assert Abs(r) * p == n as real;
    assert ScaledMagnitude(r, d) == n by {
      assert Abs(r) * p + 0.5 == (n as real) + 0.5;
    }
    if x < 0.0 && n > 0 {
      assert r < 0.0;
    }
  }

  // ---------------------------------------------------------------------------
  // Number.prototype.toString for two-decimal values
  // ---------------------------------------------------------------------------

  /** Drops trailing fraction zeros and a then-bare decimal point. */
  function StripZeros(s: string): (r: string)
    ensures |r| <= |s| && r == s[..|r|]
  {
    if s != [] && s[|s| - 1] == '0' && HasChar(s, '.') then StripZeros(s[..|s| - 1])
    else if s != [] && s[|s| - 1] == '.' then s[..|s| - 1]
    else s
  }

  /**
   * `String(x)` for a number that has at most two decimals (the result of a
   * `parseFloat(v.toFixed(2))`): the shortest decimal text that denotes it.
   */
  function ShortString(x: real): string {
    StripZeros(FormatFixed(x, 2))
  }

  /**
   * A magnitude whose last digit is zero is written with one more decimal
   * than the magnitude a tenth of it: the same text followed by "0", or by
   * ".0" when the smaller one has no decimals.
   */
  lemma FormatScaledZero(negative: bool, n: nat, d: nat)
    requires n % 10 == 0
    ensures d >= 1 ==> FormatScaled(negative, n, d + 1) == FormatScaled(negative, n / 10, d) + "0"
    ensures d == 0 ==> FormatScaled(negative, n, d + 1) == FormatScaled(negative, n / 10, d) + "." + "0"
  {
    assert DigitChar(n % 10) == '0';
    assert FixedDigits(n, d + 1) == FixedDigits(n / 10, d) + "0";
    assert DropDigits(n, d + 1) == DropDigits(n / 10, d);
  }

  /** The value of a magnitude with a zero last digit does not change when both the magnitude and its decimals shrink by one. */
  lemma UnscaleZero(negative: bool, n: nat, d: nat)
    requires n % 10 == 0
    ensures Unscale(negative, n, d + 1) == Unscale(negative, n / 10, d)
  {
    var p := Pow10(d) as real;
    assert Pow10(d + 1) as real == 10.0 * p;
    assert (n as real) == 10.0 * ((n / 10) as real);
    assert (n as real) / (10.0 * p) == ((n / 10) as real) / p;
  }

  /** A trailing zero after a point is dropped. */
  lemma StripLastZero(t: string)
    requires HasChar(t, '.')
    ensures StripZeros(t + "0") == StripZeros(t)
  {
    assert HasChar(t + "0", '.') by {
      var i :| 0 <= i < |t| && t[i] == '.';
      assert (t + "0")[i] == '.';
    }
    assert (t + "0")[..|t + "0"| - 1] == t;
  }

  /** A bare trailing point is dropped. */
  lemma StripPoint(u: string)
    ensures StripZeros(u + ".") == u
  {
    assert (u + ".")[..|u + "."| - 1] == u;
  }

  /** The text of a magnitude with decimals holds a point and ends with its last digit. */
  lemma FormatScaledShape(negative: bool, n: nat, d: nat)
    requires d >= 1
    ensures var s := FormatScaled(negative, n, d);
      HasChar(s, '.') && s[|s| - 1] == DigitChar(n % 10)
  {
    var s := FormatScaled(negative, n, d);
    var ip := NatToString(DropDigits(n, d));
    var fd := FixedDigits(n, d);
    var sign := if negative then "-" else "";
    assert s == sign + ip + "." + fd;
    assert s[|sign| + |ip|] == '.';
    assert fd == FixedDigits(n / 10, d - 1) + [DigitChar(n % 10)];
  }

  /** Text that does not end with a zero or a point keeps its length. */
  lemma StripKeeps(s: string)
    requires s != [] && s[|s| - 1] != '0' && s[|s| - 1] != '.'
    ensures StripZeros(s) == s
  {
  }

  /** Without a trailing zero the text of `toFixed(2)` is already the shortest. */
  lemma ShortNoZero(negative: bool, n: nat)
    requires n % 10 != 0
    ensures StripZeros(FormatScaled(negative, n, 2)) == FormatScaled(negative, n, 2)
  {
    FormatScaledShape(negative, n, 2);
    assert DigitChar(n % 10) != '0';
    StripKeeps(FormatScaled(negative, n, 2));
  }

  /** One trailing zero: the short text is that of `toFixed(1)` on a tenth of the magnitude. */
  lemma ShortOneZero(negative: bool, n: nat)
    requires n % 10 == 0 && (n / 10) % 10 != 0
    ensures StripZeros(FormatScaled(negative, n, 2)) == FormatScaled(negative, n / 10, 1)
  {
    var t := FormatScaled(negative, n / 10, 1);
    FormatScaledZero(negative, n, 1);
    FormatScaledShape(negative, n / 10, 1);
    StripLastZero(t);
    assert DigitChar((n / 10) % 10) != '0';
    StripKeeps(t);
  }

  /** Two trailing zeros: the short text is the integer text of a hundredth of the magnitude. */
  lemma ShortTwoZeros(negative: bool, n: nat)
    requires n % 10 == 0 && (n / 10) % 10 == 0
    ensures StripZeros(FormatScaled(negative, n, 2)) == FormatScaled(negative, n / 100, 0)
  {
    var u := FormatScaled(negative, n / 100, 0);
    var t := FormatScaled(negative, n / 10, 1);
    FormatScaledZero(negative, n, 1);
    FormatScaledZero(negative, n / 10, 0);
    assert n / 10 / 10 == n / 100;
    assert t == u + "." + "0";
    FormatScaledShape(negative, n / 10, 1);
    StripLastZero(t);
    assert HasChar(u + ".", '.') by {
      assert (u + ".")[|u|] == '.';
    }
    assert t == (u + ".") + "0";
    StripLastZero(u + ".");
    StripPoint(u);
  }

  /** Text that shortens to a text denoting `v` denotes `v` once shortened. */
  lemma ShortensTo(s: string, t: string, v: real)
    requires StripZeros(s) == t && ParseFloat(t) == Some(v)
    ensures ParseFloat(StripZeros(s)) == Some(v)
  {
  }

  /** The short text of a scaled magnitude with two decimals denotes its value. */
  lemma ShortScaled(negative: bool, n: nat)
    ensures ParseFloat(StripZeros(FormatScaled(negative, n, 2))) == Some(Unscale(negative, n, 2))
  {
    if n % 10 != 0 {
      ShortScaledNoZero(negative, n);
    } else if (n / 10) % 10 != 0 {
      ShortScaledOneZero(negative, n);
    } else {
      ShortScaledTwoZeros(negative, n);
    }
  }

  lemma ShortScaledNoZero(negative: bool, n: nat)
    requires n % 10 != 0
    ensures ParseFloat(StripZeros(FormatScaled(negative, n, 2))) == Some(Unscale(negative, n, 2))
  {
    var s := FormatScaled(negative, n, 2);
    ShortNoZero(negative, n);
    FormatScaledValue(negative, n, 2);
    ShortensTo(s, s, Unscale(negative, n, 2));
  }

  lemma ShortScaledOneZero(negative: bool, n: nat)
    requires n % 10 == 0 && (n / 10) % 10 != 0
    ensures ParseFloat(StripZeros(FormatScaled(negative, n, 2))) == Some(Unscale(negative, n, 2))
  {
    var s := FormatScaled(negative, n, 2);
    ShortOneZero(negative, n);
    FormatScaledValue(negative, n / 10, 1);
    UnscaleZero(negative, n, 1);
    ShortensTo(s, FormatScaled(negative, n / 10, 1), Unscale(negative, n, 2));
  }

  lemma ShortScaledTwoZeros(negative: bool, n: nat)
    requires n % 10 == 0 && (n / 10) % 10 == 0
    ensures ParseFloat(StripZeros(FormatScaled(negative, n, 2))) == Some(Unscale(negative, n, 2))
  {
    var s := FormatScaled(negative, n, 2);
    var t := FormatScaled(negative, n / 100, 0);
    var v := Unscale(negative, n / 100, 0);
    assert Unscale(negative, n, 2) == v by {
      UnscaleZero(negative, n, 1);
      UnscaleZero(negative, n / 10, 0);
      assert n / 10 / 10 == n / 100;
    }
    ShortTwoZeros(negative, n);
    FormatScaledValue(negative, n / 100, 0);
    ShortensTo(s, t, v);
  }

  /** `toString` of a two-decimal value: the text of `toFixed(2)` without its trailing zeros denotes the same value. */
  lemma ShortStringRoundTrip(x: real)
    ensures ParseFloat(ShortString(x)) == Some(Round(x, 2))
  {
    ShortScaled(x < 0.0, ScaledMagnitude(x, 2));
  }

  // ---------------------------------------------------------------------------
  // NaN, Infinity and null
  // ---------------------------------------------------------------------------

  /** A JavaScript numeric value as stored in a calibration point, or `null`. */
  datatype Value = Null | Num(v: real) | NaN | Inf(positive: bool)

  /** `parseFloat(v.toFixed(2))` lifted to every value (`null` stays `null`). */
  function RoundValue(x: Value, d: nat): (r: Value)
    ensures x.Num? <==> r.Num?
    ensures x.Num? ==> r.v == Round(x.v, d)
    ensures !x.Num? ==> r == x
  {
    if x.Num? then Num(Round(x.v, d)) else x
  }

  /** `a / b` in IEEE arithmetic on finite operands. */
  function Div(a: real, b: real): (r: Value)
    ensures b != 0.0 ==> r == Num(a / b)
    ensures b == 0.0 && a == 0.0 ==> r == NaN
    ensures b == 0.0 && a != 0.0 ==> r == Inf(a > 0.0)
  {
    if b != 0.0 then Num(a / b) else if a == 0.0 then NaN else Inf(a > 0.0)
  }

  /** `parseFloat(s) || 0`: both `NaN` and zero fall back to zero. */
  function ParseOrZero(s: string): (r: real)
    ensures ParseFloat(s).Some? ==> r == ParseFloat(s).value
    ensures ParseFloat(s).None? ==> r == 0.0
  {
    ParseFloat(s).GetOr(0.0)
  }
}
