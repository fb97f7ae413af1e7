/** Bits of 64-bit integers in two's complement, and the operators that work on them. */
module Bits64 {
  import opened Ints64

  lemma {:induction false} PowerIsPositive(e: nat)
    ensures Power(2, e) > 0
  {
    if e > 0 {
      PowerIsPositive(e - 1);
    }
  }

  /** Bit `i`, bit 0 being the lowest; a negative number has ones all the way up. */
  predicate Bit(x: int, i: nat) {
    PowerIsPositive(i);
    x / Power(2, i) % 2 == 1
  }

  predicate Both(p: bool, q: bool) { p && q }

  predicate Either(p: bool, q: bool) { p || q }

  predicate Differ(p: bool, q: bool) { p != q }

  /** The lowest `n` bits combined one by one. */
  function Bitwise(f: (bool, bool) -> bool, l: int, r: int, n: nat): nat
    decreases n
  {
    if n == 0 then 0
    else (if f(l % 2 == 1, r % 2 == 1) then 1 else 0) + 2 * Bitwise(f, l / 2, r / 2, n - 1)
  }

  function Or64(l: I64, r: I64): I64 { Wrap(Bitwise(Either, l, r, 64)) }

  function Xor64(l: I64, r: I64): I64 { Wrap(Bitwise(Differ, l, r, 64)) }

  function And64(l: I64, r: I64): I64 { Wrap(Bitwise(Both, l, r, 64)) }

  function Not64(x: I64): I64 {
    var n: int := x;
    -n - 1
  }

  function ShiftLeft(x: I64, places: nat): I64 {
    Wrap(x * Power(2, places))
  }

  /** To the right the sign comes in from above. */
  function ShiftRight(x: I64, places: nat): I64 {
    PowerIsPositive(places);
    Wrap(x / Power(2, places))
  }

  // Dividing by powers of two

  lemma DivisionIs(x: int, p: int, q: int, m: int)
    requires p > 0 && x == p * q + m && 0 <= m < p
    ensures x / p == q
  {
    var d := x / p - q;
    assert x == p * (x / p) + x % p;
    assert p * d == m - x % p;
    if d >= 1 {
      AtLeastOnce(p, d);
    } else if d <= -1 {
      assert p * -d == -(p * d);
      AtLeastOnce(p, -d);
    }
  }

  lemma AtLeastOnce(p: int, d: int)
    requires p > 0 && d >= 1
    ensures p * d >= p
  {
    assert p * d == p + p * (d - 1);
    NotNegative(p, d - 1);
  }

  lemma NotNegative(p: int, d: int)
    requires p >= 0 && d >= 0
    ensures p * d >= 0
  {
  }

  lemma DividedTwice(x: int, a: int, b: int)
    requires a > 0 && b > 0
    ensures a * b > 0 && x / (a * b) == x / a / b
  {
    var q, m := x / a / b, x / a % b;
    var low := x % a;
    assert x == a * (x / a) + low;
    assert x / a == b * q + m;
    assert a * (b * q + m) == a * b * q + a * m;
    NotNegative(a, m);
    NotNegative(a, b - 1 - m);
    assert a * (b - 1 - m) == a * b - a - a * m;
    AtLeastOnce(a, b);
    DivisionIs(x, a * b, q, a * m + low);
  }

  lemma {:induction false} PowerAdds(d: nat, e: nat)
    ensures Power(2, d + e) == Power(2, d) * Power(2, e)
  {
    if d > 0 {
      PowerAdds(d - 1, e);
      assert 2 * (Power(2, d - 1) * Power(2, e)) == Power(2, d) * Power(2, e);
    }
  }

  lemma PowerIsSpan()
    ensures Power(2, 64) == SPAN && Power(2, 63) == SPAN / 2
  {
    PowerDoubles(2, 32);
    PowerDoubles(4, 16);
    PowerDoubles(16, 8);
    PowerDoubles(0x100, 4);
    PowerDoubles(0x1_0000, 2);
    PowerDoubles(0x1_0000_0000, 1);
    assert Power(SPAN, 1) == SPAN * Power(SPAN, 0) == SPAN;
    assert Power(2, 64) == 2 * Power(2, 63);
  }

  /** A bit of a quotient is a bit further up. */
  lemma BitOfQuotient(x: int, k: nat, i: nat)
    ensures Power(2, k) > 0 && (Bit(x / Power(2, k), i) <==> Bit(x, k + i))
  {
    hide Power;
    PowerIsPositive(k);
    PowerIsPositive(i);
    PowerAdds(k, i);
    DividedTwice(x, Power(2, k), Power(2, i));
  }

  lemma LowestBit(x: int)
    ensures Bit(x, 0) <==> x % 2 == 1
  {
  }

  lemma BitOfHalf(x: int, i: nat)
    ensures Bit(x / 2, i) <==> Bit(x, i + 1)
  {
    BitOfQuotient(x, 1, i);
    assert Power(2, 1) == 2 * Power(2, 0) == 2;
  }

  // What the operators do to bits

  lemma {:induction false} BitwiseHas(f: (bool, bool) -> bool, l: int, r: int, n: nat, i: nat)
    requires i < n
    ensures Bit(Bitwise(f, l, r, n), i) <==> f(Bit(l, i), Bit(r, i))
    decreases n
  {
    hide Bit;
    var x := Bitwise(f, l, r, n);
    var rest := Bitwise(f, l / 2, r / 2, n - 1);
    assert x / 2 == rest && (x % 2 == 1 <==> f(l % 2 == 1, r % 2 == 1));
    if i == 0 {
      LowestBit(x);
      LowestBit(l);
      LowestBit(r);
    } else {
      BitwiseHas(f, l / 2, r / 2, n - 1, i - 1);
      BitOfHalf(x, i - 1);
      BitOfHalf(l, i - 1);
      BitOfHalf(r, i - 1);
    }
  }

  /** Whole turns of 2^64 leave the lower 64 bits alone. */
  lemma BitOfTurned(x: int, turns: int, i: nat)
    requires i < 64
    ensures Bit(x + turns * SPAN, i) <==> Bit(x, i)
  {
    hide Power;
    PowerIsSpan();
    PowerIsPositive(i);
    PowerAdds(i, 64 - i);
    EvenPower(63 - i);
    var p, half := Power(2, i), Power(2, 63 - i);
    var q, m := x / p, x % p;
    var more := turns * half;
    assert turns * SPAN == turns * (p * (2 * half)) == p * (2 * more);
    assert x + turns * SPAN == p * q + m + p * (2 * more) == p * (q + 2 * more) + m;
    DivisionIs(x + turns * SPAN, p, q + 2 * more, m);
  }

  lemma EvenPower(e: nat)
    ensures Power(2, e + 1) == 2 * Power(2, e)
  {
  }

  lemma BitOfWrapped(x: int, i: nat)
    requires i < 64
    ensures Bit(Wrap(x), i) <==> Bit(x, i)
  {
    hide Bit, Wrap;
    var turns := WrapIsCongruent(x);
    BitOfTurned(x, turns, i);
  }

  /** The operators on bits work bit by bit. */
  lemma BitsCombine(l: I64, r: I64, i: nat)
    requires i < 64
    ensures Bit(Or64(l, r), i) <==> Bit(l, i) || Bit(r, i)
    ensures Bit(Xor64(l, r), i) <==> Bit(l, i) != Bit(r, i)
    ensures Bit(And64(l, r), i) <==> Bit(l, i) && Bit(r, i)
  {
    hide Bit, Bitwise, Wrap;
    BitwiseHas(Either, l, r, 64, i);
    BitwiseHas(Differ, l, r, 64, i);
    BitwiseHas(Both, l, r, 64, i);
    BitOfWrapped(Bitwise(Either, l, r, 64), i);
    BitOfWrapped(Bitwise(Differ, l, r, 64), i);
    BitOfWrapped(Bitwise(Both, l, r, 64), i);
  }

  lemma BitsTurnOver(x: I64, i: nat)
    ensures Bit(Not64(x), i) <==> !Bit(x, i)
  {
    hide Power;
    PowerIsPositive(i);
    var p := Power(2, i);
    var q, m := x / p, x % p;
    assert x == p * q + m;
    assert p * (-q - 1) == -(p * q) - p;
    DivisionIs(-(x as int) - 1, p, -q - 1, p - 1 - m);
  }

  /** A shift moves every bit by its places: zeros come in from below, and from above
      the sign. */
  lemma BitsMove(x: I64, places: nat, i: nat)
    requires places < 64 && i < 64
    ensures Bit(ShiftLeft(x, places), i) <==> places <= i && Bit(x, i - places)
    ensures Bit(ShiftRight(x, places), i) <==> if places + i < 64 then Bit(x, places + i) else x < 0
  {
    hide Bit, Power, Wrap;
    BitOfWrapped(x * Power(2, places), i);
    BitOfProduct(x, places, i);
    BitOfQuotient(x, places, i);
    BitOfWrapped(x / Power(2, places), i);
    if places + i >= 63 {
      BitsAbove(x, places + i);
    }
  }

  lemma BitOfProduct(x: int, k: nat, i: nat)
    ensures Bit(x * Power(2, k), i) <==> k <= i && Bit(x, i - k)
  {
    hide Power;
    var p := Power(2, k);
    PowerIsPositive(k);
    PowerIsPositive(i);
    if k <= i {
      BitOfQuotient(x * p, k, i - k);
      DivisionIs(x * p, p, x, 0);
    } else {
      BelowProduct(x, k, i);
    }
  }

  lemma BelowProduct(x: int, k: nat, i: nat)
    requires i < k
    ensures !Bit(x * Power(2, k), i)
  {
    hide Power;
    PowerIsPositive(i);
    var low, half := Power(2, i), Power(2, k - i - 1);
    PowerAdds(i, k - i);
    EvenPower(k - i - 1);
    var more := x * half;
    assert x * Power(2, k) == low * (2 * more);
    DivisionIs(x * Power(2, k), low, 2 * more, 0);
  }

  lemma BitsAbove(x: I64, j: nat)
    requires j >= 63
    ensures Bit(x, j) <==> x < 0
  {
    hide Power;
    PowerIsSpan();
    PowerIsPositive(j - 63);
    PowerAdds(63, j - 63);
    AtLeastOnce(Power(2, 63), Power(2, j - 63));
    var p := Power(2, j);
    if x < 0 {
      DivisionIs(x, p, -1, x + p);
    } else {
      DivisionIs(x, p, 0, x);
    }
  }

  /** Sixty-four bits are all there is to a number. */
  lemma BitsDetermine(x: I64, y: I64)
    requires forall i: nat | i < 64 :: Bit(x, i) <==> Bit(y, i)
    ensures x == y
  {
    PowerIsSpan();
    var k := SameLowBits(x, y, 64);
    if k >= 1 {
      AtLeastOnce(SPAN, k);
    } else if k <= -1 {
      AtLeastOnce(SPAN, -k);
    }
  }

  lemma {:induction false} SameLowBits(x: int, y: int, n: nat) returns (k: int)
    requires forall i: nat | i < n :: Bit(x, i) <==> Bit(y, i)
    ensures x - y == k * Power(2, n)
    decreases n
  {
    if n == 0 {
      k := x - y;
    } else {
      hide Bit;
      LowestBit(x);
      LowestBit(y);
      assert Bit(x, 0) <==> Bit(y, 0);
      forall i: nat | i < n - 1 ensures Bit(x / 2, i) <==> Bit(y / 2, i) {
        BitOfHalf(x, i);
        BitOfHalf(y, i);
      }
      k := SameLowBits(x / 2, y / 2, n - 1);
      assert x - y == 2 * (x / 2 - y / 2);
    }
  }
}
