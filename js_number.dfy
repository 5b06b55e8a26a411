/**
 * JavaScript's `Number(s)` applied to a string, with `Number.isFinite` as the
 * predicate `Finite?`. The input is trimmed; an empty remainder is 0; otherwise
 * it must be a StringNumericLiteral of ECMAScript: `Infinity` with an optional
 * sign, a decimal literal with optional sign, fraction and exponent, or an
 * unsigned `0x`/`0o`/`0b` integer. Anything else is NaN.
 *
 * A finite result holds the literal's exact decimal value rather than its
 * nearest binary64 neighbour; whether the result is finite is decided exactly,
 * because round-to-nearest sends a magnitude to infinity exactly when it is at
 * least `OverflowBound`.
 */
module JsNumbers {
  import opened Wrappers
  import opened JsString

  /** A JavaScript number, as far as its finiteness and value matter here. */
  datatype JsNum = Finite(value: real) | PositiveInfinity | NegativeInfinity | NaN

  /** 2^1024 - 2^970: the largest binary64 value plus half a unit in its last place. */
  const OverflowBound: real := 179769313486231580793728971405303415079934132710037826936173778980444968292764750946649017977587207096330286416692887910946555547851940402630657488671505820681908902000708383676273854845817711531764475730270069855571366959622842914819860834936475292719074168444365510704342711559699508093042880177904174497792.0

  /** 2^53: every integer from 0 up to it is a binary64 value. */
  const ExactIntegerLimit: nat := 9007199254740992

  /** Value of a digit of radix up to 36; 36 for a character that is no digit. */
  function DigitValue(c: char): (d: nat)
    ensures d <= 36
    ensures '0' <= c <= '9' <==> d < 10
  {
    if '0' <= c <= '9' then c as nat - '0' as nat
    else if 'a' <= c <= 'z' then c as nat - 'a' as nat + 10
    else if 'A' <= c <= 'Z' then c as nat - 'A' as nat + 10
    else 36
  }

  predicate AllDigits(s: string, radix: nat) {
    forall i :: 0 <= i < |s| ==> DigitValue(s[i]) < radix
  }

  /** The value of the digit string `s` read in base `radix`, most significant first. */
  function DigitsValue(s: string, radix: nat): nat
    requires AllDigits(s, radix)
  {
    if s == [] then 0 else DigitsValue(s[..|s| - 1], radix) * radix + DigitValue(s[|s| - 1])
  }

  function Pow10(e: nat): (r: nat)
    ensures r >= 1
  {
    if e == 0 then 1 else 10 * Pow10(e - 1)
  }

  /** m * 10^e as an exact real. */
  function Scale(m: nat, e: int): (r: real)
    ensures r >= 0.0
  {
    if e >= 0 then (m * Pow10(e)) as real else m as real / Pow10(-e) as real
  }

  /** The number a literal of magnitude `x` and the given sign denotes: infinite from `OverflowBound` on. */
  function FromMagnitude(x: real, negative: bool): (r: JsNum)
    requires x >= 0.0
    ensures r.Finite? <==> x < OverflowBound
    ensures r.Finite? ==> r.value == if negative then -x else x
    ensures r.PositiveInfinity? <==> !negative && x >= OverflowBound
    ensures r.NegativeInfinity? <==> negative && x >= OverflowBound
  {
    if x >= OverflowBound then (if negative then NegativeInfinity else PositiveInfinity)
    else Finite(if negative then -x else x)
  }

  /** A SignedInteger (the exponent after `e`/`E`): optional sign, then at least one decimal digit. */
  function ExponentValue(x: string): (r: Option<int>)
    ensures r.Some? ==> x != []
  {
    if |x| > 0 && (x[0] == '+' || x[0] == '-') then
      var d := x[1..];
      if d != [] && AllDigits(d, 10) then
        var v: int := DigitsValue(d, 10);
        Some(if x[0] == '-' then -v else v)
      else None
    else if x != [] && AllDigits(x, 10) then Some(DigitsValue(x, 10))
    else None
  }

  /** The digits before and after the point of a decimal mantissa; at least one of the two is non-empty. */
  function MantissaParts(m: string): (r: Option<(string, string)>)
    ensures r.Some? ==> AllDigits(r.value.0, 10) && AllDigits(r.value.1, 10)
    ensures r.Some? ==> r.value.0 != [] || r.value.1 != []
  {
    match FirstIndexIn(m, {'.'})
    case None =>
      if m != [] && AllDigits(m, 10) then Some((m, "")) else None
    case Some(j) =>
      var whole, fraction := m[..j], m[j + 1..];
      if (whole != [] || fraction != []) && AllDigits(whole, 10) && AllDigits(fraction, 10)
      then Some((whole, fraction))
      else None
  }

  /** The mantissa before `e`/`E` and the exponent after it; no exponent part is exponent 0. */
  function ExponentSplit(u: string): (string, Option<int>) {
    match FirstIndexIn(u, {'e', 'E'})
    case None => (u, Some(0))
    case Some(k) => (u[..k], ExponentValue(u[k + 1..]))
  }

  /** `whole.fraction` times 10^e, as an exact real. */
  function DecimalValue(whole: string, fraction: string, e: int): (x: real)
    requires AllDigits(whole, 10) && AllDigits(fraction, 10)
    ensures x >= 0.0
  {
    Scale(DigitsValue(whole, 10) * Pow10(|fraction|) + DigitsValue(fraction, 10), e - |fraction|)
  }

  /** A StrUnsignedDecimalLiteral, negated when `negative`. */
  function UnsignedDecimal(u: string, negative: bool): JsNum {
    if u == "Infinity" then (if negative then NegativeInfinity else PositiveInfinity)
    else
      var (mantissa, exponent) := ExponentSplit(u);
      match MantissaParts(mantissa)
      case None => NaN
      case Some((whole, fraction)) =>
        match exponent
        case None => NaN
        case Some(e) => FromMagnitude(DecimalValue(whole, fraction, e), negative)
  }

  /** Radix of an `0x`/`0o`/`0b` prefix letter. */
  function PrefixRadix(c: char): Option<nat> {
    if c == 'x' || c == 'X' then Some(16)
    else if c == 'o' || c == 'O' then Some(8)
    else if c == 'b' || c == 'B' then Some(2)
    else None
  }

  /** A StrNumericLiteral: the trimmed, non-empty input of `Number`. */
  function NumericLiteral(t: string): JsNum
    requires t != []
  {
    if |t| >= 2 && t[0] == '0' && PrefixRadix(t[1]).Some? then
      var radix, digits := PrefixRadix(t[1]).value, t[2..];
      if digits != [] && AllDigits(digits, radix) then FromMagnitude(DigitsValue(digits, radix) as real, false)
      else NaN
    else
      var signed := t[0] == '+' || t[0] == '-';
      UnsignedDecimal(if signed then t[1..] else t, t[0] == '-')
  }

  /**
   * `Number(s)`. A string that is empty or all white space converts to 0;
   * a finite result is strictly inside (-OverflowBound, OverflowBound).
   */
  function Number(s: string): (r: JsNum)
    ensures Trim(s) == [] ==> r == Finite(0.0)
    ensures r.Finite? ==> -OverflowBound < r.value < OverflowBound
  {
    var t := Trim(s);
    if t == [] then Finite(0.0) else NumericLiteral(t)
  }

  /** `Number` ignores white space around its input, so `Number(s.trim())` is `Number(s)`. */
  lemma {:induction false} NumberIgnoresTrim(s: string)
    ensures Number(Trim(s)) == Number(s)
  {
    TrimIdempotent(s);
  }

  /** The decimal digit for 0..9. */
  function DecimalDigit(d: nat): (c: char)
    requires d < 10
    ensures DigitValue(c) == d
  {
    ('0' as int + d) as char
  }

  /** The shortest decimal numeral of `n`, as `String(n)` writes a small integer. */
  function NatToDecimal(n: nat): (s: string)
    ensures s != [] && AllDigits(s, 10)
    ensures DigitsValue(s, 10) == n
  {
    if n < 10 then [DecimalDigit(n)]
    else
      var s := NatToDecimal(n / 10) + [DecimalDigit(n % 10)];
      assert s[..|s| - 1] == NatToDecimal(n / 10);
      s
  }

  /** An unsigned run of decimal digits is a decimal literal with neither point nor exponent. */
  lemma {:induction false} UnsignedDecimalOfDigits(s: string)
    requires s != [] && forall i :: 0 <= i < |s| ==> '0' <= s[i] <= '9'
    ensures UnsignedDecimal(s, false) == FromMagnitude(DigitsValue(s, 10) as real, false)
  {
    assert s != "Infinity" by { assert '0' <= s[0] <= '9'; }
    assert FirstIndexIn(s, {'e', 'E'}).None?;
    assert FirstIndexIn(s, {'.'}).None?;
    assert MantissaParts(s) == Some((s, ""));
  }

  /** A run of decimal digits converts to its value, or to infinity from the overflow bound on. */
  lemma {:induction false} NumberOfDigits(s: string)
    requires s != [] && forall i :: 0 <= i < |s| ==> '0' <= s[i] <= '9'
    ensures AllDigits(s, 10)
    ensures Number(s) == FromMagnitude(DigitsValue(s, 10) as real, false)
  {
    assert !IsWhiteSpace(s[0]) && !IsWhiteSpace(s[|s| - 1]);
    TrimUnchanged(s);
    assert |s| >= 2 ==> PrefixRadix(s[1]).None?;
    assert NumericLiteral(s) == UnsignedDecimal(s, false);
    UnsignedDecimalOfDigits(s);
  }

  /**
   * Conversion reads a decimal numeral back as its integer, for every integer
   * up to 2^53, all of which are binary64 values, so rounding leaves them as they are.
   */
  lemma {:induction false} NumberOfDecimal(n: nat)
    requires n <= ExactIntegerLimit
    ensures Number(NatToDecimal(n)) == Finite(n as real)
  {
    assert (ExactIntegerLimit as real) < OverflowBound;
    var s := NatToDecimal(n);
    forall i | 0 <= i < |s| ensures '0' <= s[i] <= '9' {
      assert DigitValue(s[i]) < 10;
    }
    NumberOfDigits(s);
  }

  /** A mantissa that is empty or starts with neither a digit nor a point is malformed. */
  lemma NonDigitMantissa(m: string)
    requires m == [] || (!('0' <= m[0] <= '9') && m[0] != '.')
    ensures MantissaParts(m).None?
  {
    if m != [] {
      assert DigitValue(m[0]) >= 10;
      match FirstIndexIn(m, {'.'})
      case None =>
      case Some(j) =>
        assert j > 0;
        assert m[..j][0] == m[0];
    }
  }

  /** A literal that starts with anything but a digit, a point or a sign, and is not `Infinity`, is NaN. */
  lemma NonNumericLiteral(t: string)
    requires t != [] && t != "Infinity"
    requires !('0' <= t[0] <= '9') && t[0] !in {'.', '+', '-'}
    ensures NumericLiteral(t) == NaN
  {
    assert NumericLiteral(t) == UnsignedDecimal(t, false);
    var mantissa := ExponentSplit(t).0;
    assert mantissa == [] || mantissa[0] == t[0];
    NonDigitMantissa(mantissa);
  }

  /**
   * Text whose trimmed form starts with anything but a digit, a point or a
   * sign, and is not `Infinity`, converts to NaN.
   */
  lemma NumberOfNonNumeric(s: string)
    requires Trim(s) != [] && Trim(s) != "Infinity"
    requires !('0' <= Trim(s)[0] <= '9') && Trim(s)[0] !in {'.', '+', '-'}
    ensures Number(s) == NaN
  {
    NonNumericLiteral(Trim(s));
  }
}
