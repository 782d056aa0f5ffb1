/** The JavaScript built-ins the grading and form code relies on, restricted
    to the values they meet there: `Math.round`, `parseInt` (no radix
    argument), the `|| 0` fallback and `Number.prototype.toString` on
    integral numbers. A JavaScript number is an integer or NaN here. */
module JsBuiltins {

  /** An integral JavaScript number, or NaN. */
  datatype Num = Finite(value: int) | NaN {

    /** What string interpolation and `toString` print for the number. */
    function Text(): (s: string)
      ensures s != []
      ensures s == "NaN" <==> this.NaN?
    {
      match this
      case Finite(n) => DecimalString(n)
      case NaN => "NaN"
    }
  }

  // ---------------------------------------------------------------------
  // Math.round

  /** `Math.round(x)`: the nearest integer, a tie going toward +infinity. */
  function MathRound(x: real): (r: int)
    ensures x - 0.5 < r as real <= x + 0.5
  {
    (x + 0.5).Floor
  }

  /** The floor of a real is pinned down by the two bounds it sits between. */
  lemma FloorUnique(x: real, k: int)
    requires k as real <= x < k as real + 1.0
    ensures x.Floor == k
  {
  }

  /** A product of reals is zero only when a factor is. */
  lemma ZeroFactor(u: real, v: real)
    requires v != 0.0 && u * v == 0.0
    ensures u == 0.0
  {
  }

  /** The real quotient `n / d` lies in `[q, q + 1)` when the integer bounds
      `q * d <= n < (q + 1) * d` hold. */
  lemma RatioBounds(n: int, d: int, q: int)
    requires d > 0 && q * d <= n < (q + 1) * d
    ensures q as real <= n as real / d as real < (q + 1) as real
  {
    var x := n as real / d as real;
    assert x * d as real == n as real;
    assert (q as real) * (d as real) <= x * (d as real);
    assert x * (d as real) < (q + 1) as real * d as real;
  }

  /** Adding one half to `a / b` gives `(2a + b) / 2b`. */
  lemma HalfShift(a: int, b: int)
    requires b > 0
    ensures a as real / b as real + 0.5 == (2 * a + b) as real / (2 * b) as real
  {
    var y := a as real / b as real;
    var z := (2 * a + b) as real / (2 * b) as real;
    assert y * b as real == a as real;
    assert z * (2 * b) as real == (2 * a + b) as real;
    assert (y + 0.5) * (2 * b) as real == (2 * a + b) as real;
    assert (y + 0.5 - z) * (2 * b) as real == 0.0;
    ZeroFactor(y + 0.5 - z, (2 * b) as real);
  }

  /** Rounding an exact ratio of integers is integer arithmetic:
      `Math.round(a / b) == (2a + b) div 2b` for every integer `a` and every
      positive `b` (Dafny's `/` on int is floor division here, since the
      divisor is positive). */
  lemma RoundOfRatio(a: int, b: int)
    requires b > 0
    ensures MathRound(a as real / b as real) == (2 * a + b) / (2 * b)
  {
    var n, d := 2 * a + b, 2 * b;
    var q := n / d;
    assert q * d <= n < (q + 1) * d;
    RatioBounds(n, d, q);
    HalfShift(a, b);
    FloorUnique(a as real / b as real + 0.5, q);
  }

  // ---------------------------------------------------------------------
  // parseInt(string) with no radix argument

  /** The characters `parseInt` skips at the front: the white space and line
      terminators of ECMAScript (StrWhiteSpaceChar). */
  predicate IsStrWhiteSpace(c: char)
  {
    || c == '\t' || c == '\n' || c == '\U{000B}' || c == '\U{000C}' || c == '\r'
    || c == ' ' || c == '\U{00A0}' || c == '\U{1680}'
    || ('\U{2000}' <= c <= '\U{200A}')
    || c == '\U{2028}' || c == '\U{2029}' || c == '\U{202F}' || c == '\U{205F}'
    || c == '\U{3000}' || c == '\U{FEFF}'
  }

  /** The string with its leading white space removed. */
  function TrimStart(s: string): (t: string)
    ensures |t| <= |s| && t == s[|s| - |t|..]
    ensures forall i :: 0 <= i < |s| - |t| ==> IsStrWhiteSpace(s[i])
    ensures t == [] || !IsStrWhiteSpace(t[0])
  {
    if s != [] && IsStrWhiteSpace(s[0]) then TrimStart(s[1..]) else s
  }

  /** `c` is a digit in base `radix` (10 or 16; letters in either case). */
  predicate IsDigit(c: char, radix: nat)
  {
    || ('0' <= c <= '9')
    || (radix == 16 && ('a' <= c <= 'f' || 'A' <= c <= 'F'))
  }

  /** The value of a single digit character. */
  function DigitValue(c: char): nat
  {
    if '0' <= c <= '9' then c as int - '0' as int
    else if 'a' <= c <= 'f' then c as int - 'a' as int + 10
    else if 'A' <= c <= 'F' then c as int - 'A' as int + 10
    else 0
  }

  /** The longest prefix of `s` made of base-`radix` digits. */
  function DigitPrefix(s: string, radix: nat): (p: string)
    ensures |p| <= |s| && p == s[..|p|]
    ensures forall i :: 0 <= i < |p| ==> IsDigit(p[i], radix)
    ensures |p| < |s| ==> !IsDigit(s[|p|], radix)
  {
    if s != [] && IsDigit(s[0], radix) then [s[0]] + DigitPrefix(s[1..], radix) else []
  }

  /** The number a digit string denotes, read most significant digit first. */
  function DigitsValue(ds: string, radix: nat): nat
  {
    if ds == [] then 0
    else DigitsValue(ds[..|ds| - 1], radix) * radix + DigitValue(ds[|ds| - 1])
  }

  /** `parseInt(s)`: skip leading white space, take an optional sign, and
      read the magnitude that follows. */
  function ParseInt(s: string): (n: Num)
    ensures TrimStart(s) == [] ==> n == NaN
    ensures n.Finite? && n.value < 0 ==> TrimStart(s)[0] == '-'
  {
    var t := TrimStart(s);
    if t != [] && t[0] == '-' then Negate(ParseMagnitude(t[1..]))
    else if t != [] && t[0] == '+' then ParseMagnitude(t[1..])
    else ParseMagnitude(t)
  }

  /** The unsigned part of `parseInt`: a `0x`/`0X` prefix selects base 16,
      otherwise base 10; the longest run of digits is read and whatever
      follows it is ignored; an empty run is NaN. */
  function ParseMagnitude(u: string): (n: Num)
    ensures n.Finite? ==> n.value >= 0
    ensures u != [] && '0' <= u[0] <= '9' && !(|u| >= 2 && (u[1] == 'x' || u[1] == 'X')) ==> n.Finite?
  {
    if |u| >= 2 && u[0] == '0' && (u[1] == 'x' || u[1] == 'X')
    then DigitsNum(DigitPrefix(u[2..], 16), 16)
    else DigitsNum(DigitPrefix(u, 10), 10)
  }

  /** The number a run of digits denotes; NaN for the empty run. */
  function DigitsNum(ds: string, radix: nat): (n: Num)
  {
    if ds == [] then NaN else Finite(DigitsValue(ds, radix))
  }

  /** Unary minus (NaN stays NaN). */
  function Negate(n: Num): (m: Num)
  {
    match n
    case Finite(v) => Finite(-v)
    case NaN => NaN
  }

  /** `n || 0`: NaN and zero are falsy, so both give 0; any other number is kept. */
  function OrZero(n: Num): (r: int)
    ensures n.Finite? ==> r == n.value
    ensures n.NaN? ==> r == 0
  {
    match n
    case Finite(v) => if v == 0 then 0 else v
    case NaN => 0
  }

  /** Text that does not begin with a decimal digit has no magnitude. */
  lemma MagnitudeNaN(u: string)
    requires u == [] || !('0' <= u[0] <= '9')
    ensures ParseMagnitude(u) == NaN
  {
  }

  /** A string whose text, once white space and sign are skipped, does not
      begin with a decimal digit parses to NaN, which `|| 0` turns into 0. */
  lemma NoLeadingDigitGivesZero(s: string)
    requires var t := TrimStart(s);
             var u := if t != [] && (t[0] == '-' || t[0] == '+') then t[1..] else t;
             u == [] || !('0' <= u[0] <= '9')
    ensures ParseInt(s) == NaN
    ensures OrZero(ParseInt(s)) == 0
  {
    var t := TrimStart(s);
    var u := if t != [] && (t[0] == '-' || t[0] == '+') then t[1..] else t;
    MagnitudeNaN(u);
  }

  // ---------------------------------------------------------------------
  // Number.prototype.toString on integral numbers

  /** The decimal digit for `d`. */
  function DigitChar(d: nat): (c: char)
    requires d < 10
    ensures '0' <= c <= '9' && DigitValue(c) == d
  {
    ['0', '1', '2', '3', '4', '5', '6', '7', '8', '9'][d]
  }

  /** The decimal numeral of a natural number, without leading zeros. */
  function NatString(n: nat): (s: string)
    ensures s != []
    ensures forall i :: 0 <= i < |s| ==> '0' <= s[i] <= '9'
    ensures s[0] == '0' ==> n == 0
  {
    if n < 10 then [DigitChar(n)] else NatString(n / 10) + [DigitChar(n % 10)]
  }

  /** `String(n)` for an integral number: a minus sign for negatives, then the
      decimal numeral of the magnitude. */
  function DecimalString(n: int): (s: string)
    ensures s != [] && (s[0] == '-' <==> n < 0)
  {
    if n < 0 then "-" + NatString(-n) else NatString(n)
  }

  /** Reading back the numeral of `n` gives `n`. */
  lemma {:induction false} NatStringValue(n: nat)
    ensures DigitsValue(NatString(n), 10) == n
  {
    if n >= 10 {
      var s := NatString(n);
      assert s[..|s| - 1] == NatString(n / 10);
      NatStringValue(n / 10);
    }
  }

  /** A string of decimal digits is its own longest digit prefix. */
  lemma {:induction false} AllDigitsPrefix(s: string)
    requires forall i :: 0 <= i < |s| ==> '0' <= s[i] <= '9'
    ensures DigitPrefix(s, 10) == s
  {
    if s != [] {
      AllDigitsPrefix(s[1..]);
    }
  }

  /** A run of decimal digits is read in base 10 as the number it denotes. */
  lemma MagnitudeOfDigits(digits: string)
    requires digits != []
    requires forall i :: 0 <= i < |digits| ==> '0' <= digits[i] <= '9'
    ensures ParseMagnitude(digits) == Finite(DigitsValue(digits, 10))
  {
    AllDigitsPrefix(digits);
  }

  /** Nothing is trimmed from a string that starts with a visible character. */
  lemma TrimStartKeeps(s: string)
    requires s != [] && !IsStrWhiteSpace(s[0])
    ensures TrimStart(s) == s
  {
  }

  /** A plain run of decimal digits parses to the number it denotes. */
  lemma ParseDigits(digits: string)
    requires digits != []
    requires forall i :: 0 <= i < |digits| ==> '0' <= digits[i] <= '9'
    ensures ParseInt(digits) == Finite(DigitsValue(digits, 10))
  {
    TrimStartKeeps(digits);
    MagnitudeOfDigits(digits);
  }

  /** A leading minus sign negates what follows it. */
  lemma ParseMinus(u: string)
    ensures ParseInt("-" + u) == Negate(ParseMagnitude(u))
  {
    var s := "-" + u;
    TrimStartKeeps(s);
    assert s[1..] == u;
  }

  /** The numeral of a natural number parses back to it. */
  lemma ParseNatString(m: nat)
    ensures ParseInt(NatString(m)) == Finite(m)
  {
    var digits := NatString(m);
    NatStringValue(m);
    ParseDigits(digits);
  }

  /** The numeral of a natural number behind a minus sign parses back to its
      negation. */
  lemma ParseMinusNatString(m: nat)
    ensures ParseInt("-" + NatString(m)) == Finite(-(m as int))
  {
    var digits := NatString(m);
    NatStringValue(m);
    MagnitudeOfDigits(digits);
    ParseMinus(digits);
    var v := DigitsValue(digits, 10);
    assert ParseMagnitude(digits) == Finite(v);
    assert v == m;
  }

  /** `parseInt` inverts `toString` on integers: what a mark prints as is what
      typing it back stores. */
  lemma ParseIntInvertsDecimal(n: int)
    ensures ParseInt(DecimalString(n)) == Finite(n)
  {
    if n < 0 {
      ParseMinusNatString(-n);
      assert DecimalString(n) == "-" + NatString(-n);
    } else {
      ParseNatString(n);
      assert DecimalString(n) == NatString(n);
    }
  }
}
