/** The ECMAScript string-to-number conversions the two rating fields use:
    `parseInt(s)` with no radix argument and `parseFloat(s)`. Both skip
    leading white space, accept a sign and read the longest numeric prefix;
    values are exact (integers and reals), not IEEE doubles. */
module JsNumber {
  import opened Optional
  import opened JsString

  predicate IsDecimalDigit(c: char) {
    '0' <= c <= '9'
  }

  predicate IsHexDigit(c: char) {
    IsDecimalDigit(c) || 'a' <= c <= 'f' || 'A' <= c <= 'F'
  }

  /** The numeric value of a hexadecimal (or decimal) digit. */
  function DigitValue(c: char): (v: nat)
    requires IsHexDigit(c)
    ensures v < 16
    ensures IsDecimalDigit(c) <==> v < 10
  {
    if IsDecimalDigit(c) then c as int - '0' as int
    else if 'a' <= c <= 'f' then c as int - 'a' as int + 10
    else c as int - 'A' as int + 10
  }

  /** The two bases `parseInt` reads without a radix argument. */
  datatype Base = Decimal | Hexadecimal {
    function Radix(): nat {
      if Decimal? then 10 else 16
    }

    /** `v` times this base. */
    function Times(v: nat): nat {
      if Decimal? then 10 * v else 16 * v
    }
  }

  /** `c` is a digit of base `base`. */
  predicate IsRadixDigit(c: char, base: Base) {
    IsHexDigit(c) && DigitValue(c) < base.Radix()
  }

  /** Length of the longest prefix of `s` made of base-`base` digits. */
  function DigitRun(s: string, base: Base): (n: nat)
    ensures n <= |s|
    ensures forall i :: 0 <= i < n ==> IsRadixDigit(s[i], base)
    ensures n < |s| ==> !IsRadixDigit(s[n], base)
  {
    if s != [] && IsRadixDigit(s[0], base) then 1 + DigitRun(s[1..], base) else 0
  }

  /** The number a string of base-`base` digits denotes, most significant first. */
  function DigitsValue(d: string, base: Base): nat
    requires forall i :: 0 <= i < |d| ==> IsRadixDigit(d[i], base)
  {
    if d == [] then 0
    else
      var last := d[|d| - 1];
      assert IsRadixDigit(last, base);
      base.Times(DigitsValue(d[..|d| - 1], base)) + DigitValue(last)
  }

  function Pow10(n: nat): (p: nat)
    ensures p >= 1
  {
    if n == 0 then 1 else 10 * Pow10(n - 1)
  }

  /** `s` with leading white space and then one sign character removed,
      and whether that sign was a minus. */
  function SkipSign(s: string): (string, bool) {
    var t := TrimStart(s);
    if t != [] && (t[0] == '-' || t[0] == '+') then (t[1..], t[0] == '-') else (t, false)
  }

  /** `parseInt(s)`: None stands for NaN. The sign found before the
      digits is applied to the unsigned value that follows it. */
  function ParseInt(s: string): (r: Option<int>)
    ensures r.Some? ==> SkipSign(s).0 != [] && IsDecimalDigit(SkipSign(s).0[0])
    ensures r.Some? && r.value < 0 ==> SkipSign(s).1
  {
    var (u, negative) := SkipSign(s);
    match ParseUnsignedInt(u)
    case Some(v) => Some(if negative then -v else v)
    case None => None
  }

  /** The digits at the head of `u`: a `0x` or `0X` prefix selects base 16,
      otherwise the base is 10; None when no digit follows. */
  function ParseUnsignedInt(u: string): Option<int> {
    var hex := |u| >= 2 && u[0] == '0' && (u[1] == 'x' || u[1] == 'X');
    var base := if hex then Hexadecimal else Decimal;
    var body := if hex then u[2..] else u;
    var n := DigitRun(body, base);
    if n == 0 then None else Some(DigitsValue(body[..n], base))
  }

  /** The result of `parseFloat`: NaN, a finite value, or an infinity. */
  datatype Number = NaN | Finite(value: real) | Infinity(negative: bool)

  /** The exponent an `ExponentPart` at the head of `s` denotes (`e`, an
      optional sign, at least one digit), or 0 when there is none. */
  function Exponent(s: string): int {
    if s != [] && (s[0] == 'e' || s[0] == 'E') then
      var t := s[1..];
      var negative := t != [] && t[0] == '-';
      var digits := if t != [] && (t[0] == '-' || t[0] == '+') then t[1..] else t;
      var n := DigitRun(digits, Decimal);
      if n == 0 then 0
      else
        var v: int := DigitsValue(digits[..n], Decimal);
        if negative then -v else v
    else 0
  }

  /** `m` times ten to the power `e`. */
  function Scale(m: real, e: int): real {
    if e >= 0 then Shift(m, e) else Unshift(m, -e)
  }

  /** `x` multiplied by ten, `k` times. */
  function Shift(x: real, k: nat): real {
    if k == 0 then x else 10.0 * Shift(x, k - 1)
  }

  /** `x` divided by ten, `k` times. */
  function Unshift(x: real, k: nat): real {
    if k == 0 then x else Unshift(x, k - 1) / 10.0
  }

  /** `parseFloat(s)`: the longest prefix of the trimmed string that is a
      decimal literal, with its sign applied. */
  function ParseFloat(s: string): (r: Number)
    ensures r != NaN ==> var u := SkipSign(s).0;
      u != [] && (IsDecimalDigit(u[0]) || u[0] == '.' || StartsWith(u, "Infinity"))
    ensures r.Infinity? ==> r.negative == SkipSign(s).1
  {
    var (u, negative) := SkipSign(s);
    match ParseUnsignedFloat(u)
    case Finite(m) => Finite(if negative then -m else m)
    case Infinity(_) => Infinity(negative)
    case NaN => NaN
  }

  /** The unsigned literal at the head of `u`: `Infinity` or a decimal
      literal; NaN when there is none. */
  function ParseUnsignedFloat(u: string): Number {
    if StartsWithInfinity(u) then Infinity(false) else ParseDecimalLiteral(u)
  }

  predicate StartsWithInfinity(u: string) {
    StartsWith(u, "Infinity")
  }

  /** Digits with an optional `.` fraction and an optional exponent, with at
      least one digit before or after the point; NaN when there is none. */
  function ParseDecimalLiteral(u: string): Number {
    var a := DigitRun(u, Decimal);
    var afterInt := u[a..];
    if afterInt != [] && afterInt[0] == '.' then
      var fraction := afterInt[1..];
      var b := DigitRun(fraction, Decimal);
      if a == 0 && b == 0 then NaN
      else Finite(Scale(Mantissa(u[..a], fraction[..b]), Exponent(fraction[b..])))
    else if a == 0 then NaN
    else Finite(Scale(DigitsValue(u[..a], Decimal) as real, Exponent(afterInt)))
  }

  /** The value of the decimal numeral `ip.fp`. */
  function Mantissa(ip: string, fp: string): real
    requires forall i :: 0 <= i < |ip| ==> IsRadixDigit(ip[i], Decimal)
    requires forall i :: 0 <= i < |fp| ==> IsRadixDigit(fp[i], Decimal)
  {
    DigitsValue(ip, Decimal) as real + Unshift(DigitsValue(fp, Decimal) as real, |fp|)
  }

  /** The decimal digit for `d`. */
  function DigitChar(d: nat): (c: char)
    requires d < 10
    ensures IsDecimalDigit(c) && DigitValue(c) == d
  {
    ('0' as int + d) as char
  }

  /** The numeral of `f` written with exactly `k` digits, zero-padded on
      the left: the fraction digits of a decimal literal. */
  function PaddedDecimal(f: nat, k: nat): (s: string)
    requires f < Pow10(k)
    ensures |s| == k
    ensures forall i :: 0 <= i < |s| ==> IsDecimalDigit(s[i])
    ensures DigitsValue(s, Decimal) == f
  {
    if k == 0 then []
    else
      var p := PaddedDecimal(f / 10, k - 1);
      var s := p + [DigitChar(f % 10)];
      assert s[..|s| - 1] == p;
      s
  }

  /** The shortest decimal numeral of `n` (`String(n)` for a natural number). */
  function NatToDecimal(n: nat): (s: string)
    ensures |s| >= 1
    ensures forall i :: 0 <= i < |s| ==> IsDecimalDigit(s[i])
    ensures DigitsValue(s, Decimal) == n
    ensures s[0] == '0' ==> n == 0
  {
    if n < 10 then [DigitChar(n)]
    else
      var p := NatToDecimal(n / 10);
      var s := p + [DigitChar(n % 10)];
      assert s[..|s| - 1] == p;
      s
  }

  /** A digit string followed by a non-digit is read up to its end. */
  lemma DigitRunOfNumeral(d: string, rest: string, base: Base)
    requires forall i :: 0 <= i < |d| ==> IsRadixDigit(d[i], base)
    requires rest == [] || !IsRadixDigit(rest[0], base)
    ensures DigitRun(d + rest, base) == |d|
    ensures (d + rest)[..|d|] == d
  {
  }

  lemma DecimalDigitIsRadix10(d: string)
    requires forall i :: 0 <= i < |d| ==> IsDecimalDigit(d[i])
    ensures forall i :: 0 <= i < |d| ==> IsRadixDigit(d[i], Decimal)
  {
  }

  /** How a numeral may be signed: no sign, `+` or `-`. */
  datatype Sign = Unsigned | Plus | Minus {
    function Text(): string {
      match this
      case Unsigned => []
      case Plus => ['+']
      case Minus => ['-']
    }

    /** `v` with this sign applied. */
    function Apply(v: int): int {
      if Minus? then -v else v
    }
  }

  /** `SkipSign` strips leading white space and one sign character. */
  lemma SkipSignOf(w: string, sign: Sign, x: string)
    requires AllWhiteSpace(w)
    requires x != [] && (IsDecimalDigit(x[0]) || x[0] == '.')
    ensures SkipSign(w + sign.Text() + x) == (x, sign.Minus?)
  {
    if sign.Unsigned? {
      assert w + sign.Text() + x == w + x;
      SkipNoSign(w, x);
    } else {
      var c := if sign.Minus? then '-' else '+';
      assert w + sign.Text() + x == w + ([c] + x);
      SkipOneSign(w, c, x);
    }
  }

  lemma SkipNoSign(w: string, x: string)
    requires AllWhiteSpace(w)
    requires x != [] && (IsDecimalDigit(x[0]) || x[0] == '.')
    ensures SkipSign(w + x) == (x, false)
  {
    TrimStartPadded(w, x);
  }

  lemma SkipOneSign(w: string, c: char, x: string)
    requires AllWhiteSpace(w)
    requires c == '+' || c == '-'
    ensures SkipSign(w + ([c] + x)) == (x, c == '-')
  {
    TrimStartPadded(w, [c] + x);
    assert ([c] + x)[1..] == x;
  }

  /** Round trip of `parseInt` with the decimal numeral of `n`: white space,
      a sign and any tail that does not continue the number are ignored. */
  lemma ParseIntDecimal(w: string, sign: Sign, n: nat, rest: string)
    requires AllWhiteSpace(w)
    requires rest == [] || !IsDecimalDigit(rest[0])
    requires n == 0 ==> rest == [] || (rest[0] != 'x' && rest[0] != 'X')
    ensures ParseInt(w + sign.Text() + (NatToDecimal(n) + rest)) == Some(sign.Apply(n))
  {
    UnsignedIntOf(n, rest);
    SkipSignOf(w, sign, NatToDecimal(n) + rest);
  }

  /** The bare decimal numeral of `n`, followed by anything that does not
      continue it, reads back as `n`. */
  lemma ParseIntNumeral(n: nat, rest: string)
    requires rest == [] || !IsDecimalDigit(rest[0])
    requires n == 0 ==> rest == [] || (rest[0] != 'x' && rest[0] != 'X')
    ensures ParseInt(NatToDecimal(n) + rest) == Some(n)
  {
    var u := NatToDecimal(n) + rest;
    UnsignedIntOf(n, rest);
    assert [] + u == u;
    SkipNoSign([], u);
  }

  /** The unsigned decimal numeral of `n` reads back as `n`. */
  lemma UnsignedIntOf(n: nat, rest: string)
    requires rest == [] || !IsDecimalDigit(rest[0])
    requires n == 0 ==> rest == [] || (rest[0] != 'x' && rest[0] != 'X')
    ensures ParseUnsignedInt(NatToDecimal(n) + rest) == Some(n)
  {
    var d := NatToDecimal(n);
    var u := d + rest;
    if n == 0 {
      assert d == "0";
    }
    assert !(|u| >= 2 && u[0] == '0' && (u[1] == 'x' || u[1] == 'X'));
    DecimalDigitIsRadix10(d);
    DigitRunOfNumeral(d, rest, Decimal);
  }

  /** Dividing by ten `k` times is dividing by ten to the power `k`. */
  lemma {:induction false} UnshiftIsDivision(x: real, k: nat)
    ensures Unshift(x, k) == x / Pow10(k) as real
  {
    if k > 0 {
      UnshiftIsDivision(x, k - 1);
      var p := Pow10(k - 1) as real;
      assert Pow10(k) as real == 10.0 * p;
      assert (x / p) / 10.0 == x / (10.0 * p);
    }
  }

  /** `parseFloat` gives NaN when, after leading white space, the text
      starts with neither a digit, a sign, a point nor `Infinity`. */
  lemma ParseFloatNaN(w: string, x: string)
    requires AllWhiteSpace(w)
    requires x != [] && !IsWhiteSpace(x[0]) && !IsDecimalDigit(x[0])
    requires x[0] != '+' && x[0] != '-' && x[0] != '.' && !StartsWith(x, "Infinity")
    ensures ParseFloat(w + x) == NaN
  {
    TrimStartPadded(w, x);
    assert SkipSign(w + x) == (x, false);
    assert !IsRadixDigit(x[0], Decimal);
    assert DigitRun(x, Decimal) == 0;
  }

  /** Round trip of `parseFloat` with the decimal literal `n.f`, where the
      fraction is written with exactly `k` digits: its value is `n + f / 10^k`,
      `Unshift(f, k)` being `f / 10^k`. White space and a sign in front are
      covered by `ParseFloatOf`. */
  lemma ParseFloatDecimal(n: nat, f: nat, k: nat, rest: string)
    requires f < Pow10(k)
    requires rest == [] || (!IsDecimalDigit(rest[0]) && rest[0] != 'e' && rest[0] != 'E')
    ensures ParseFloat(NatToDecimal(n) + "." + PaddedDecimal(f, k) + rest)
      == Finite(n as real + Unshift(f as real, k))
  {
    var u := NatToDecimal(n) + "." + PaddedDecimal(f, k) + rest;
    UnsignedDecimalOf(n, f, k, rest);
    ParseFloatOf([], Unsigned, u, n as real + Unshift(f as real, k));
    assert [] + Unsigned.Text() + u == u;
  }

  /** The unsigned literal `n.f` reads as `n + f / 10^k`. */
  lemma UnsignedDecimalOf(n: nat, f: nat, k: nat, rest: string)
    requires f < Pow10(k)
    requires rest == [] || (!IsDecimalDigit(rest[0]) && rest[0] != 'e' && rest[0] != 'E')
    ensures var u := NatToDecimal(n) + "." + PaddedDecimal(f, k) + rest;
      && IsDecimalDigit(u[0])
      && ParseUnsignedFloat(u) == Finite(n as real + Unshift(f as real, k))
  {
    var ip, fp := NatToDecimal(n), PaddedDecimal(f, k);
    DecimalDigitIsRadix10(ip);
    DecimalDigitIsRadix10(fp);
    assert Mantissa(ip, fp) == n as real + Unshift(f as real, k);
    UnsignedDecimal(ip, fp, rest);
  }

  /** Round trip of `parseFloat` with the numeral of `n` and no fraction. */
  lemma ParseFloatInteger(w: string, sign: Sign, n: nat, rest: string)
    requires AllWhiteSpace(w)
    requires rest == [] || (!IsDecimalDigit(rest[0]) && rest[0] != '.' && rest[0] != 'e' && rest[0] != 'E')
    ensures ParseFloat(w + sign.Text() + (NatToDecimal(n) + rest))
      == Finite(if sign.Minus? then -(n as real) else n as real)
  {
    var ip := NatToDecimal(n);
    UnsignedInteger(ip, rest);
    assert (ip + rest)[0] == ip[0];
    ParseFloatOf(w, sign, ip + rest, n as real);
  }

  /** `parseFloat` skips white space and a sign, then applies the sign to
      the unsigned literal that follows. */
  lemma ParseFloatOf(w: string, sign: Sign, u: string, m: real)
    requires AllWhiteSpace(w)
    requires u != [] && (IsDecimalDigit(u[0]) || u[0] == '.')
    requires ParseUnsignedFloat(u) == Finite(m)
    ensures ParseFloat(w + sign.Text() + u) == Finite(if sign.Minus? then -m else m)
  {
    SkipSignOf(w, sign, u);
    ParseFloatFromParts(w + sign.Text() + u, u, sign.Minus?, m);
  }

  lemma ParseFloatFromParts(s: string, u: string, negative: bool, m: real)
    requires SkipSign(s) == (u, negative)
    requires ParseUnsignedFloat(u) == Finite(m)
    ensures ParseFloat(s) == Finite(if negative then -m else m)
  {
  }

  lemma UnsignedDecimal(ip: string, fp: string, rest: string)
    requires ip != []
    requires forall i :: 0 <= i < |ip| ==> IsDecimalDigit(ip[i])
    requires forall i :: 0 <= i < |fp| ==> IsDecimalDigit(fp[i])
    requires rest == [] || (!IsDecimalDigit(rest[0]) && rest[0] != 'e' && rest[0] != 'E')
    ensures ParseUnsignedFloat(ip + "." + fp + rest) == Finite(Mantissa(ip, fp))
    ensures IsDecimalDigit((ip + "." + fp + rest)[0])
  {
    var tail := ['.'] + (fp + rest);
    assert ip + "." + fp + rest == ip + tail;
    NotInfinity(ip + tail);
    IntegerPartOf(ip, tail);
    assert tail[1..] == fp + rest;
    DigitRunOfNumeral(fp, rest, Decimal);
    assert (fp + rest)[|fp|..] == rest;
    NoExponent(rest);
  }

  /** A literal with integer part `ip` followed by a `.` parses as the
      fraction that follows the `.`. */
  lemma IntegerPartOf(ip: string, tail: string)
    requires ip != []
    requires forall i :: 0 <= i < |ip| ==> IsDecimalDigit(ip[i])
    requires tail != [] && tail[0] == '.'
    ensures var fraction := tail[1..];
            var b := DigitRun(fraction, Decimal);
            ParseDecimalLiteral(ip + tail)
              == Finite(Scale(Mantissa(ip, fraction[..b]), Exponent(fraction[b..])))
  {
    DigitRunOfNumeral(ip, tail, Decimal);
    assert (ip + tail)[|ip|..] == tail;
  }

  lemma UnsignedInteger(ip: string, rest: string)
    requires ip != []
    requires forall i :: 0 <= i < |ip| ==> IsDecimalDigit(ip[i])
    requires rest == [] || (!IsDecimalDigit(rest[0]) && rest[0] != '.' && rest[0] != 'e' && rest[0] != 'E')
    ensures ParseUnsignedFloat(ip + rest) == Finite(DigitsValue(ip, Decimal) as real)
  {
    var u := ip + rest;
    DecimalDigitIsRadix10(ip);
    NotInfinity(u);
    DigitRunOfNumeral(ip, rest, Decimal);
    assert u[|ip|..] == rest;
    NoExponent(rest);
  }

  /** A literal with no integer part: `.d` reads as d tenths. */
  lemma PointDigit(d: nat)
    requires d < 10
    ensures ParseUnsignedFloat(['.', DigitChar(d)]) == Finite(d as real / 10.0)
  {
    var u := ['.', DigitChar(d)];
    assert !StartsWithInfinity(u);
    assert DigitRun(u, Decimal) == 0 && DigitRun(u[1..], Decimal) == 1;
    assert u[..0] == [] && u[1..][..1] == [DigitChar(d)] && u[1..][1..] == [];
    assert DigitsValue([DigitChar(d)], Decimal) == d;
    var m := Mantissa([], [DigitChar(d)]);
    assert m == Unshift(d as real, 1) == d as real / 10.0;
    assert Exponent([]) == 0 && Scale(m, 0) == m;
    assert ParseDecimalLiteral(u) == Finite(Scale(m, Exponent([])));
  }

  lemma NotInfinity(u: string)
    requires u != [] && IsDecimalDigit(u[0])
    ensures !StartsWithInfinity(u)
  {
  }

  lemma NoExponent(rest: string)
    requires rest == [] || (rest[0] != 'e' && rest[0] != 'E')
    ensures Exponent(rest) == 0
    ensures forall m :: Scale(m, Exponent(rest)) == m
  {
  }
}
