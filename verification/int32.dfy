/** Java's 32-bit `int`: its range, two's-complement wrap-around of `*`, and
    the decimal conversions `Integer.parseInt` and `Integer.toString`. */
module Int32 {
  import opened Wrappers

  const MIN: int := -0x8000_0000
  const MAX: int := 0x7FFF_FFFF
  const MODULUS: int := 0x1_0000_0000

  predicate InRange(x: int) {
    MIN <= x <= MAX
  }

  /** A value of Java type `int`. */
  type int32 = x: int | InRange(x)

  /** The `int` that Java's arithmetic yields for the mathematical value `x`:
      the unique value of the range congruent to `x` modulo 2^32. */
  function Wrap(x: int): (r: int32)
  {
    (x - MIN) % MODULUS + MIN
  }

  /** Java's `a * b` on two `int` operands. */
  function Mul(a: int32, b: int32): int32 {
    Wrap(a * b)
  }

  /** Wrapping only sees the value modulo 2^32. */
  lemma {:induction false} WrapCongruent(x: int, k: int)
    ensures Wrap(x + k * MODULUS) == Wrap(x)
  {
    var a := x - MIN;
    assert a + k * MODULUS - MODULUS * (a / MODULUS + k) == a % MODULUS;
  }

  /** `Wrap` leaves a value that is already an `int` alone, and the wrapped
      value differs from `x` by a multiple of 2^32. */
  lemma WrapSpec(x: int) returns (k: int)
    ensures Wrap(x) == x + k * MODULUS
    ensures InRange(x) ==> Wrap(x) == x
  {
    var a := x - MIN;
    k := -(a / MODULUS);
    assert a == (a / MODULUS) * MODULUS + a % MODULUS;
  }

  /** `a * b * c` evaluated left to right in `int` arithmetic equals the
      exact product wrapped once. */
  lemma {:induction false} MulMulWrap(a: int32, b: int32, c: int32)
    ensures Mul(Mul(a, b), c) == Wrap(a * b * c)
  {
    var k := WrapSpec(a * b);
    assert Mul(a, b) == a * b + k * MODULUS;
    assert Mul(a, b) * c == a * b * c + (k * c) * MODULUS;
    WrapCongruent(a * b * c, k * c);
  }

  // ---------------------------------------------------------------------------
  // Decimal text

  predicate IsDigit(c: char) {
    '0' <= c <= '9'
  }

  predicate AllDigits(s: string) {
    forall i :: 0 <= i < |s| ==> IsDigit(s[i])
  }

  function DigitValue(c: char): nat
    requires IsDigit(c)
  {
    c as int - '0' as int
  }

  function DigitChar(d: nat): (c: char)
    requires d < 10
    ensures IsDigit(c) && DigitValue(c) == d
  {
    ('0' as int + d) as char
  }

  /** The number a non-empty run of decimal digits denotes (most significant
      digit first; leading zeros allowed). */
  function DigitsValue(s: string): nat
    requires AllDigits(s)
    decreases |s|
  {
    if s == [] then 0 else DigitsValue(s[..|s| - 1]) * 10 + DigitValue(s[|s| - 1])
  }

  /** `Integer.parseInt(s)`: an optional single `-` or `+`, then at least one
      decimal digit, and the signed value must fit in an `int`; every other
      string throws `NumberFormatException`, which is `None` here. */
  function ParseInt(s: string): (r: Option<int32>)
    ensures r.Some? ==> 0 < |s| && AllDigits(s[1..])
    ensures r.Some? ==> IsDigit(s[0]) || (1 < |s| && (s[0] == '-' || s[0] == '+'))
    ensures r.Some? && r.value < 0 ==> s[0] == '-'
  {
    if |s| == 0 then None
    else
      var signed := s[0] == '-' || s[0] == '+';
      var digits := if signed then s[1..] else s;
      if |digits| == 0 || !AllDigits(digits) then None
      else
        var magnitude: int := DigitsValue(digits);
        var value := if s[0] == '-' then -magnitude else magnitude;
        if InRange(value) then Some(value) else None
  }

  /** Shortest decimal digits of `n`. */
  function Decimal(n: nat): (s: string)
    ensures 0 < |s| && AllDigits(s)
    ensures DigitsValue(s) == n
    ensures s[0] == '0' <==> n == 0
  {
    if n < 10 then [DigitChar(n)]
    else
      var prefix := Decimal(n / 10);
      var s := prefix + [DigitChar(n % 10)];
      assert s[..|s| - 1] == prefix;
      s
  }

  /** `Integer.toString(n)`: a `-` exactly for negative numbers, then the
      decimal digits of the magnitude without leading zeros. */
  function ToString(n: int32): (r: string)
    ensures 0 < |r| && (r[0] == '-' <==> n < 0)
    ensures n < 0 ==> 1 < |r| && AllDigits(r[1..]) && r[1] != '0'
    ensures 0 <= n ==> AllDigits(r) && (r[0] == '0' <==> n == 0)
  {
    if n < 0 then "-" + Decimal(-(n as int)) else Decimal(n)
  }

  /** `Integer.parseInt` reads back every `int` that `Integer.toString`
      writes. */
  lemma ParseToString(n: int32)
    ensures ParseInt(ToString(n)) == Some(n)
  {
    var s := ToString(n);
    if n < 0 {
      assert s[1..] == Decimal(-(n as int));
    } else {
      var d := Decimal(n);
      assert IsDigit(d[0]);
    }
  }

  /** A lone sign, the empty string, a doubled sign and a stray character
      are all rejected; a leading `+` and leading zeros are accepted. */
  lemma ParseIntSyntax()
    ensures ParseInt("") == None && ParseInt("-") == None && ParseInt("+") == None
    ensures ParseInt("+7") == Some(7) && ParseInt("-07") == Some(-7)
    ensures ParseInt("1a") == None && ParseInt(" 1") == None && ParseInt("--1") == None
  {
    assert "+7"[1..] == "7";
    assert "-07"[1..] == "07";
    assert "07"[..1] == "0";
    assert !IsDigit("1a"[1]);
    assert !IsDigit(" 1"[0]);
    assert !IsDigit("--1"[1..][0]);
  }

  /** A run of digits parses exactly when its value is at most 2^31 - 1,
      and then to that value. */
  lemma ParseUnsigned(d: string)
    requires 0 < |d| && AllDigits(d)
    ensures ParseInt(d) == (if DigitsValue(d) <= MAX then Some(DigitsValue(d)) else None)
  {
    assert IsDigit(d[0]);
  }

  /** A leading `+` changes nothing. */
  lemma ParsePlus(d: string)
    requires 0 < |d| && AllDigits(d)
    ensures ParseInt("+" + d) == ParseInt(d)
  {
    assert IsDigit(d[0]);
    assert ("+" + d)[1..] == d;
  }

  /** A leading `-` negates, and the magnitude may reach 2^31. */
  lemma ParseMinus(d: string)
    requires 0 < |d| && AllDigits(d)
    ensures ParseInt("-" + d) == (if DigitsValue(d) <= -MIN then Some(-(DigitsValue(d) as int)) else None)
  {
    assert ("-" + d)[1..] == d;
  }
}
