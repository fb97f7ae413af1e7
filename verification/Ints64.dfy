/** 64-bit arithmetic as the shell does it. */
module Ints64 {
  const MIN: int := -0x8000_0000_0000_0000
  const MAX: int := 0x7FFF_FFFF_FFFF_FFFF
  const SPAN: int := 0x1_0000_0000_0000_0000

  type I64 = x: int | MIN <= x <= MAX

  /** Whether the program was built to check its arithmetic: of a debug build and a
      release one, either. */
  const CHECKED: bool

  /** `x` modulo 2^64, read as signed. */
  function Wrap(x: int): (w: I64) {
    (x - MIN) % SPAN + MIN
  }

  lemma WrapIsCongruent(x: int) returns (turns: int)
    ensures Wrap(x) == x + turns * SPAN
  {
    turns := -((x - MIN) / SPAN);
  }

  lemma WrapPeriodic(x: int, turns: int)
    ensures Wrap(x + turns * SPAN) == Wrap(x)
  {
    var y := x - MIN;
    var q, r := y / SPAN, y % SPAN;
    assert y + turns * SPAN == (q + turns) * SPAN + r;
    assert (y + turns * SPAN) % SPAN == r;
  }

  lemma WrapMul(x: int, y: int)
    ensures Wrap(Wrap(x) * y) == Wrap(x * y)
  {
    var turns := WrapIsCongruent(x);
    assert Wrap(x) * y == x * y + (turns * y) * SPAN;
    WrapPeriodic(x * y, turns * y);
  }

  lemma WrapAdd(x: int, y: int)
    ensures Wrap(Wrap(x) + y) == Wrap(x + y)
  {
    var turns := WrapIsCongruent(x);
    WrapPeriodic(x + y, turns);
  }

  function Power(b: int, e: nat): int {
    if e == 0 then 1 else b * Power(b, e - 1)
  }

  lemma {:induction false} PowerDoubles(b: int, e: nat)
    ensures Power(b * b, e) == Power(b, 2 * e)
  {
    if e > 0 {
      PowerDoubles(b, e - 1);
      var p := Power(b, 2 * e - 2);
      assert Power(b, 2 * e) == b * Power(b, 2 * e - 1) == b * (b * p);
    }
  }

  lemma {:induction false} WrapPower(b: int, e: nat)
    ensures Wrap(Power(Wrap(b), e)) == Wrap(Power(b, e))
  {
    if e > 0 {
      WrapPower(b, e - 1);
      var p, q := Power(b, e - 1), Power(Wrap(b), e - 1);
      calc {
        Wrap(Wrap(b) * q);
        { WrapMul(b, q); }
        Wrap(b * q);
        { WrapMul(q, b); }
        Wrap(Wrap(q) * b);
        Wrap(Wrap(p) * b);
        { WrapMul(p, b); }
        Wrap(p * b);
      }
    }
  }

  /** One round of squaring. */
  lemma PowRound(result: int, b: int, exp: nat)
    requires exp > 0
    ensures exp % 2 == 1 ==> Wrap(Wrap(result * b) * Power(Wrap(b * b), exp / 2)) == Wrap(result * Power(b, exp))
    ensures exp % 2 == 0 ==> Wrap(result * Power(Wrap(b * b), exp / 2)) == Wrap(result * Power(b, exp))
  {
    hide Power, Wrap;
    var half := exp / 2;
    var p, q := Power(Wrap(b * b), half), Power(b * b, half);
    WrapPower(b * b, half);
    PowerDoubles(b, half);
    if exp % 2 == 1 {
      ScaledCongruent(result * b, p, q);
      WrapMul(result * b, p);
      OneMoreFactor(b, exp, result, q);
    } else {
      ScaledCongruent(result, p, q);
    }
  }

  lemma OneMoreFactor(b: int, exp: nat, result: int, q: int)
    requires exp > 0 && q == Power(b, exp - 1)
    ensures (result * b) * q == result * Power(b, exp)
  {
    assert (result * b) * q == result * (b * q);
  }

  lemma ScaledCongruent(x: int, p: int, q: int)
    requires Wrap(p) == Wrap(q)
    ensures Wrap(x * p) == Wrap(x * q)
  {
    WrapMul(p, x);
    WrapMul(q, x);
    assert p * x == x * p && q * x == x * q;
  }

  /** Fast exponentiation, wrapping at every multiplication: the wrapped power. */
  method Ipow(base: I64, exponent: nat) returns (result: I64)
    ensures result == Wrap(Power(base, exponent))
  {
    result := 1;
    var b: I64, exp := base, exponent;
    while exp > 0
      invariant Wrap(result * Power(b, exp)) == Wrap(Power(base, exponent))
    {
      PowRound(result, b, exp);
      if exp % 2 == 1 {
        result := Wrap(result * b);
      }
      b := Wrap(b * b);
      exp := exp / 2;
    }
  }
}
