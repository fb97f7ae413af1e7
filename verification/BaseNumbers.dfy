/** Numbers in any base, as the shell spells them. */
module BaseNumbers {
  import opened Options
  import opened Ints64

  datatype NumberError = InvalidNumber | InvalidBase | InvalidConstant | TooGreat

  /** The value of a digit character: capitals stand for ten and up until base 36,
      and for thirty-six and up beyond it. */
  function DigitValue(base: nat, c: char): Option<nat> {
    if '0' <= c <= '9' then Some(c as int - '0' as int)
    else if 'a' <= c <= 'z' then Some(c as int - 'a' as int + 10)
    else if 'A' <= c <= 'Z' then Some(if base <= 36 then c as int - 'A' as int + 10 else c as int - 'A' as int + 36)
    else if c == '@' then Some(62)
    else if c == '_' then Some(63)
    else None
  }

  /** The digit worth `i`: ciphers, small letters, capitals, and two signs. */
  function DigitFor(i: nat): char
    requires i < 64
  {
    if i < 10 then '0' + i as char else if i < 36 then 'a' + (i - 10) as char
    else if i < 62 then 'A' + (i - 36) as char else if i == 62 then '@' else '_'
  }

  /** Beyond base 36 each value has one digit; up to there a capital is worth what its
      small letter is. */
  lemma DigitsHaveValues(base: nat, c: char, i: nat)
    requires i < 64
    ensures base > 36 ==> (DigitValue(base, c) == Some(i) <==> c == DigitFor(i))
    ensures base <= 36 && i < 36 ==> (DigitValue(base, c) == Some(i) <==> c == DigitFor(i) || (i >= 10 && c == DigitFor(i + 26)))
  {
  }

  predicate GoodDigit(base: nat, c: char) {
    DigitValue(base, c).Some? && DigitValue(base, c).value < base
  }

  predicate AllDigits(base: nat, digits: string) {
    forall i | 0 <= i < |digits| :: GoodDigit(base, digits[i])
  }

  /** Positional value. */
  function Positional(base: nat, digits: string): nat
    requires AllDigits(base, digits)
  {
    if digits == [] then 0
    else
      var n := |digits| - 1;
      Positional(base, digits[..n]) * base + DigitValue(base, digits[n]).value
  }

  /** Character `i` is the first that is no digit, and `why` says in which way. */
  predicate FirstBad(base: nat, digits: string, i: nat, why: NumberError) {
    && i < |digits| && AllDigits(base, digits[..i]) && !GoodDigit(base, digits[i])
    && why == if DigitValue(base, digits[i]).None? then InvalidConstant else TooGreat
  }

  /** A digit is one of the base exactly when its value is below the base. */
  lemma DigitsFit(base: nat, i: nat)
    requires 2 <= base <= 64 && i < 64
    ensures GoodDigit(base, DigitFor(i)) <==> (if base <= 36 && 36 <= i < 62 then i - 26 else i) < base
  {
  }

  /** A character that is a digit of some base is too great for this one; any other is
      none at all. */
  lemma BadIsNamed(base: nat, digits: string, i: nat, why: NumberError)
    requires FirstBad(base, digits, i, why)
    ensures why == if exists k: nat | k < 64 :: digits[i] == DigitFor(k) then TooGreat else InvalidConstant
  {
    var c, found := digits[i], DigitValue(64, digits[i]);
    if found.Some? {
      DigitsHaveValues(64, c, found.value);
      assert c == DigitFor(found.value);
    }
    forall k: nat | k < 64 && c == DigitFor(k) ensures DigitValue(base, c).Some? {
      DigitsHaveValues(64, c, k);
    }
  }

  lemma Divided(n: nat, base: nat)
    requires base >= 2
    ensures n == n / base * base + n % base && n % base < base
    ensures n > 0 ==> n / base < n
  {
    QuotientIsLess(n / base, base, n % base);
  }

  lemma QuotientIsLess(q: nat, base: nat, rest: nat)
    requires base >= 2
    ensures q * base + rest > 0 ==> q < q * base + rest
  {
    var more := base - 2;
    assert q * base == q * 2 + q * more;
  }

  /** A number spelled in a base, by dividing. */
  function Spelled(n: nat, base: nat): string
    requires 2 <= base <= 64
  {
    Divided(n, base);
    var q, d := n / base, n % base;
    if q == 0 then [DigitFor(d)] else Spelled(q, base) + [DigitFor(d)]
  }

  lemma DigitAppended(base: nat, before: string, d: nat)
    requires 2 <= base <= 64 && d < base && AllDigits(base, before)
    ensures var digits := before + [DigitFor(d)];
            AllDigits(base, digits) && Positional(base, digits) == Positional(base, before) * base + d
  {
    hide DigitValue, DigitFor;
    DigitsFit(base, d);
    DigitsHaveValues(base, DigitFor(d), d);
    assert (before + [DigitFor(d)])[..|before|] == before;
  }

  /** Read back, it is that number. */
  lemma {:induction false} SpelledReads(n: nat, base: nat)
    requires 2 <= base <= 64
    ensures AllDigits(base, Spelled(n, base)) && Positional(base, Spelled(n, base)) == n
  {
    hide DigitFor, Positional, AllDigits;
    Divided(n, base);
    var q, d := n / base, n % base;
    if q == 0 {
      EmptyIsZero(base);
      DigitAppended(base, [], d);
      assert [] + [DigitFor(d)] == [DigitFor(d)];
    } else {
      SpelledReads(q, base);
      DigitAppended(base, Spelled(q, base), d);
    }
  }

  lemma EmptyIsZero(base: nat)
    ensures AllDigits(base, []) && Positional(base, []) == 0
  {
  }

  lemma NextDigit(base: nat, digits: string, i: nat, value: I64)
    requires i < |digits| && AllDigits(base, digits[..i]) && GoodDigit(base, digits[i])
    requires value == Wrap(Positional(base, digits[..i]))
    ensures AllDigits(base, digits[..i + 1])
    ensures Wrap(Wrap(value * base) + DigitValue(base, digits[i]).value) == Wrap(Positional(base, digits[..i + 1]))
  {
    hide Wrap, DigitValue;
    var v, d := Positional(base, digits[..i]), DigitValue(base, digits[i]).value;
    assert digits[..i + 1][..i] == digits[..i];
    WrapMul(v, base);
    WrapAdd(v * base, d);
  }

  /** Reads `digits` in `base`: the positional value modulo 2^64, exactly when the
      base is one there is and every character is a digit of it; otherwise what is
      wrong with the first thing wrong. */
  method BaseNumber(base: nat, digits: string) returns (r: Result<I64, NumberError>)
    ensures r.Ok? <==> 2 <= base <= 64 && digits != [] && AllDigits(base, digits)
    ensures r.Ok? ==> r.value == Wrap(Positional(base, digits))
    ensures base == 0 ==> r == Err(InvalidNumber)
    ensures base == 1 || 64 < base ==> r == Err(InvalidBase)
    ensures 2 <= base <= 64 && digits == [] ==> r == Err(InvalidConstant)
    ensures 2 <= base <= 64 && digits != [] && r.Err? ==> exists i: nat :: FirstBad(base, digits, i, r.error)
  {
    hide Wrap, Positional, DigitValue;
    if base == 0 {
      return Err(InvalidNumber);
    }
    if base == 1 || base > 64 {
      return Err(InvalidBase);
    }
    if digits == [] {
      return Err(InvalidConstant);
    }
    var value: I64 := 0;
    assert value == Wrap(Positional(base, digits[..0])) by {
      ZeroIsEmpty(base);
      assert digits[..0] == [];
    }
    for i := 0 to |digits|
      invariant AllDigits(base, digits[..i]) && value == Wrap(Positional(base, digits[..i]))
    {
      var d := DigitValue(base, digits[i]);
      if d.None? {
        assert FirstBad(base, digits, i, InvalidConstant);
        return Err(InvalidConstant);
      }
      if d.value >= base {
        assert FirstBad(base, digits, i, TooGreat);
        return Err(TooGreat);
      }
      NextDigit(base, digits, i, value);
      value := Wrap(Wrap(value * base) + d.value);
    }
    assert digits[..|digits|] == digits;
    return Ok(value);
  }

  lemma ZeroIsEmpty(base: nat)
    ensures Wrap(Positional(base, [])) == 0
  {
  }
}
