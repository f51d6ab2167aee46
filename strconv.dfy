/**
  The parts of Go's strconv and strings packages that the series package
  relies on: base-10 integer parsing and formatting, float parsing, the
  fixed six-decimal float format, ASCII lower-casing and string order.
*/
module Strconv {
  import opened GoTypes

  predicate IsDigit(c: char) {
    '0' <= c <= '9'
  }

  predicate AllDigits(s: string) {
    forall k :: 0 <= k < |s| ==> IsDigit(s[k])
  }

  function DigitChar(d: nat): (c: char)
    requires d < 10
    ensures IsDigit(c) && c as int - '0' as int == d
  {
    (d + '0' as int) as char
  }

  /** The number a run of decimal digits denotes, most significant digit first. */
  function DecimalValue(s: string): nat
    requires AllDigits(s)
  {
    if s == [] then 0 else DecimalValue(s[..|s| - 1]) * 10 + (s[|s| - 1] as int - '0' as int)
  }

  /** The length of the longest prefix of s made of decimal digits. */
  function DigitRun(s: string): (n: nat)
    ensures n <= |s| && AllDigits(s[..n])
    ensures n < |s| ==> !IsDigit(s[n])
  {
    if s == [] || !IsDigit(s[0]) then 0
    else
      var n := 1 + DigitRun(s[1..]);
      assert s[..n] == [s[0]] + s[1..][..n - 1];
      n
  }

  /** The shortest decimal text of n (no sign, no leading zeros). */
  function FormatNat(n: nat): (r: string)
    ensures 0 < |r| && AllDigits(r) && DecimalValue(r) == n
    ensures |r| > 1 ==> r[0] != '0'
  {
    if n < 10 then [DigitChar(n)]
    else
      var r := FormatNat(n / 10) + [DigitChar(n % 10)];
      assert r[..|r| - 1] == FormatNat(n / 10);
      r
  }

  /** strconv.FormatUint(u, 10). */
  function FormatUint(u: uint64): string {
    FormatNat(u)
  }

  /** strconv.FormatInt(i, 10), also what fmt.Sprint and strconv.Itoa print for an integer. */
  function FormatInt(i: int): string {
    if i < 0 then "-" + FormatNat(-i) else FormatNat(i)
  }

  /** strconv.ParseUint(s, 10, 64): digits only, no sign, at most 2^64 - 1.
      An overflow is reported as soon as the digits read so far exceed the range,
      so it wins over a later invalid character. */
  function ParseUint(s: string): (r: Result<uint64>)
    ensures r.Ok? <==> s != "" && AllDigits(s) && DecimalValue(s) < TwoTo64
    ensures r.Ok? ==> r.value == DecimalValue(s)
    ensures r.Err? ==> r.error.NumError? && r.error.fn == "ParseUint"
  {
    if s == "" then Err(NumError("ParseUint", s, ErrSyntax))
    else
      var k := DigitRun(s);
      DigitRunOfDigits(s);
      assert AllDigits(s) ==> s[..k] == s;
      if DecimalValue(s[..k]) >= TwoTo64 then Err(NumError("ParseUint", s, ErrRange))
      else if k < |s| then Err(NumError("ParseUint", s, ErrSyntax))
      else
        assert s[..k] == s;
        Ok(DecimalValue(s))
  }

  /** The text after an optional leading '+' or '-'. */
  function Unsigned(s: string): string {
    if s != [] && (s[0] == '+' || s[0] == '-') then s[1..] else s
  }

  /** The integer an optionally signed run of digits denotes. */
  function SignedValue(s: string): int
    requires AllDigits(Unsigned(s))
  {
    var v: int := DecimalValue(Unsigned(s));
    if s != [] && s[0] == '-' then -v else v
  }

  /** strconv.ParseInt(s, 10, 64): an optional sign, then what ParseUint accepts,
      within [-2^63, 2^63 - 1]. */
  function ParseInt(s: string): (r: Result<int64>)
    ensures r.Ok? <==> Unsigned(s) != "" && AllDigits(Unsigned(s))
                        && -TwoTo63 <= SignedValue(s) < TwoTo63
    ensures r.Ok? ==> r.value == SignedValue(s)
    ensures r.Err? ==> r.error.NumError? && r.error.fn == "ParseInt"
  {
    if s == "" then Err(NumError("ParseInt", s, ErrSyntax))
    else
      var neg := s[0] == '-';
      var un := ParseUint(Unsigned(s));
      if un.Err? && un.error.err == ErrSyntax then Err(NumError("ParseInt", s, ErrSyntax))
      else
        var u := if un.Ok? then un.value else TwoTo64 - 1;
        if !neg && u >= TwoTo63 then Err(NumError("ParseInt", s, ErrRange))
        else if neg && u > TwoTo63 then Err(NumError("ParseInt", s, ErrRange))
        else Ok(if neg then -u else u)
  }

  lemma {:induction false} DigitRunOfDigits(s: string)
    ensures AllDigits(s) ==> DigitRun(s) == |s|
  {
    if s != [] && AllDigits(s) {
      DigitRunOfDigits(s[1..]);
    }
  }

  /** Parsing the formatted text of an unsigned value gives the value back. */
  lemma ParseUintFormatUint(u: uint64)
    ensures ParseUint(FormatUint(u)) == Ok(u)
  {
    DigitRunOfDigits(FormatNat(u));
  }

  /** Parsing the formatted text of a signed value gives the value back. */
  lemma ParseIntFormatInt(i: int64)
    ensures ParseInt(FormatInt(i)) == Ok(i)
  {
    var s := FormatInt(i);
    var n: nat := if i < 0 then -(i as int) else i;
    var f := FormatNat(n);
    if i < 0 {
      assert s[0] == '-' && s[1..] == f;
    } else {
      assert IsDigit(s[0]);
    }
    assert Unsigned(s) == f;
    var v := SignedValue(s);
    assert v == i;
    assert Unsigned(s) != "" && AllDigits(Unsigned(s)) && -TwoTo63 <= v < TwoTo63;
  }

  /** The decimal text of an integer starts with a digit or '-', so it is never
      empty and never the "NaN" sentinel. */
  lemma FormatIntShape(i: int)
    ensures FormatInt(i) != "" && FormatInt(i) != "NaN"
    ensures FormatInt(i)[0] == '-' || IsDigit(FormatInt(i)[0])
  {
  }

  /** FormatInt is one-to-one. */
  lemma FormatIntInjective(i: int64, j: int64)
    requires FormatInt(i) == FormatInt(j)
    ensures i == j
  {
    ParseIntFormatInt(i);
    ParseIntFormatInt(j);
  }

  /** 10^n as a real, for any integer n. */
  function Pow10(n: int): (r: real)
    ensures r > 0.0
    decreases if n < 0 then -n else n
  {
    if n == 0 then 1.0
    else if n > 0 then 10.0 * Pow10(n - 1)
    else Pow10(n + 1) / 10.0
  }

  function LowerChar(c: char): char {
    if 'A' <= c <= 'Z' then (c as int + 32) as char else c
  }

  /** strings.ToLower, for ASCII letters. */
  function ToLower(s: string): (r: string)
    ensures |r| == |s|
    ensures forall k :: 0 <= k < |s| ==> r[k] == LowerChar(s[k])
  {
    if s == [] then [] else [LowerChar(s[0])] + ToLower(s[1..])
  }

  /** The exponent part of a decimal float: empty, or 'e'/'E', an optional sign and digits. */
  function Exponent(t: string): Option<int> {
    if t == [] then Some(0)
    else if t[0] == 'e' || t[0] == 'E' then
      var d := Unsigned(t[1..]);
      if d != [] && AllDigits(d) then Some(SignedValue(t[1..])) else None
    else None
  }

  /** The value of a decimal float without its sign: digits, an optional '.'
      with more digits (at least one digit in all), then an optional exponent. */
  function DecimalFloat(body: string): Option<real> {
    var i := DigitRun(body);
    var intDigits, rest := body[..i], body[i..];
    var hasDot := rest != [] && rest[0] == '.';
    var j := if hasDot then DigitRun(rest[1..]) else 0;
    var frac := if hasDot then rest[1..][..j] else "";
    var tail := if hasDot then rest[1..][j..] else rest;
    if |intDigits| + |frac| == 0 then None
    else
      match Exponent(tail)
      case None => None
      case Some(e) => Some(DecimalValue(intDigits + frac) as real * Pow10(e - |frac|))
  }

  /** An optional sign followed by "inf" or "infinity" in any letter case. */
  predicate IsInfText(s: string) {
    ToLower(Unsigned(s)) == "inf" || ToLower(Unsigned(s)) == "infinity"
  }

  /** strconv.ParseFloat(s, 64) for decimal text, infinities and NaN; the value is the
      exact decimal, without rounding to 53 bits. */
  function ParseFloat(s: string): (r: Result<Float>)
    ensures r == Ok(NaN) <==> ToLower(s) == "nan"
    ensures r.Ok? && r.value.IsInf(0) <==> IsInfText(s)
    ensures r.Err? ==> r.error == NumError("ParseFloat", s, ErrSyntax)
  {
    if IsInfText(s) then Ok(if s[0] == '-' then NegInf else PosInf)
    else if ToLower(s) == "nan" then Ok(NaN)
    else
      match DecimalFloat(Unsigned(s))
      case Some(x) => Ok(Finite(if s != [] && s[0] == '-' then -x else x))
      case None => Err(NumError("ParseFloat", s, ErrSyntax))
  }

  /** Text that ParseInt or ParseUint accepts parses as the same finite float. */
  lemma ParseFloatOfInteger(s: string)
    requires Unsigned(s) != "" && AllDigits(Unsigned(s))
    ensures ParseFloat(s) == Ok(Finite(SignedValue(s) as real))
  {
    NotSpecialText(s);
    DecimalFloatOfDigits(Unsigned(s));
  }

  /** Text whose unsigned part starts with a digit is neither an infinity nor NaN. */
  lemma NotSpecialText(s: string)
    requires Unsigned(s) != "" && IsDigit(Unsigned(s)[0])
    ensures !IsInfText(s) && ToLower(s) != "nan"
  {
    var u := Unsigned(s);
    assert ToLower(u)[0] == u[0];
    assert ToLower(s)[0] == s[0];
  }

  /** A run of digits is a decimal float with no fraction and no exponent. */
  lemma DecimalFloatOfDigits(u: string)
    requires u != "" && AllDigits(u)
    ensures DecimalFloat(u) == Some(DecimalValue(u) as real)
  {
    DigitRunOfDigits(u);
    assert u[..|u|] == u && u + "" == u && u[|u|..] == "";
  }

  /** Rounds a non-negative real to the nearest integer, ties to even. */
  function RoundHalfEven(x: real): (n: nat)
    requires x >= 0.0
    ensures n as real - 0.5 <= x <= n as real + 0.5
  {
    var fl := x.Floor;
    var d := x - fl as real;
    if d < 0.5 then fl
    else if d > 0.5 then fl + 1
    else if fl % 2 == 0 then fl
    else fl + 1
  }

  /** The last w decimal digits of m, with leading zeros. */
  function FixedDigits(m: nat, w: nat): (r: string)
    ensures |r| == w && AllDigits(r)
  {
    if w == 0 then "" else FixedDigits(m / 10, w - 1) + [DigitChar(m % 10)]
  }

  /** strconv.FormatFloat(f, 'f', 6, 64), which is also what fmt's %f prints:
      "NaN", "+Inf", "-Inf", or a signed decimal with exactly six fraction digits. */
  function FormatFloat(f: Float): (r: string)
    ensures r == "NaN" <==> f.NaN?
    ensures f.Finite? ==> |r| >= 8 && r[|r| - 7] == '.'
  {
    match f
    case NaN => "NaN"
    case PosInf => "+Inf"
    case NegInf => "-Inf"
    case Finite(x) =>
      var n := RoundHalfEven((if x < 0.0 then -x else x) * 1000000.0);
      var digits := FormatNat(n / 1000000) + "." + FixedDigits(n, 6);
      var r := (if x < 0.0 then "-" else "") + digits;
      assert r[0] == '-' || IsDigit(r[0]);
      r
  }

  /** Go's `<` on strings, which compares bytes: for valid UTF-8 text, comparing the
      characters gives the same order as comparing their UTF-8 bytes. */
  predicate StrLess(a: string, b: string) {
    if a == [] then b != []
    else if b == [] then false
    else if a[0] != b[0] then a[0] < b[0]
    else StrLess(a[1..], b[1..])
  }

  lemma {:induction false} StrLessIrreflexive(a: string)
    ensures !StrLess(a, a)
  {
    if a != [] {
      StrLessIrreflexive(a[1..]);
    }
  }

  lemma {:induction false} StrLessTransitive(a: string, b: string, c: string)
    requires StrLess(a, b) && StrLess(b, c)
    ensures StrLess(a, c)
  {
    if a != [] && b != [] && c != [] && a[0] == b[0] && b[0] == c[0] {
      StrLessTransitive(a[1..], b[1..], c[1..]);
    }
  }

  /** Any two different strings are ordered one way or the other. */
  lemma {:induction false} StrLessTotal(a: string, b: string)
    requires a != b
    ensures StrLess(a, b) || StrLess(b, a)
  {
    if a != [] && b != [] && a[0] == b[0] {
      assert a == [a[0]] + a[1..] && b == [b[0]] + b[1..];
      StrLessTotal(a[1..], b[1..]);
    }
  }
}
