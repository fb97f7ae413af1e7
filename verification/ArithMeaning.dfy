/** What operators and variables come to, in numbers. */
module ArithMeaning {
  import opened ArithGrammar
  import opened ArithSyntax
  import opened Bits64
  import opened ExprRoundTrip
  import opened ExprTrees
  import opened Ints64

  predicate Congruent(v: int, x: int) {
    (v - x) % SPAN == 0
  }

  lemma WrapMeans(x: int)
    ensures Congruent(Wrap(x), x)
  {
    var turns := WrapIsCongruent(x);
    TurnsDivide(turns);
  }

  lemma TurnsDivide(turns: int)
    ensures turns * SPAN % SPAN == 0
  {
  }

  /** Sums, differences, products and powers are right modulo 2^64, and nothing but a
      negative exponent is refused. */
  lemma ArithmeticIsModular(l: I64, r: I64)
    ensures ApplyBin(Add, l, r).Gives? && Congruent(ApplyBin(Add, l, r).v, l + r)
    ensures ApplyBin(Sub, l, r).Gives? && Congruent(ApplyBin(Sub, l, r).v, l - r)
    ensures ApplyBin(Mul, l, r).Gives? && Congruent(ApplyBin(Mul, l, r).v, l * r)
    ensures if r < 0 then ApplyBin(Pow, l, r) == Refuses(NegativeExponent)
            else ApplyBin(Pow, l, r).Gives? && Congruent(ApplyBin(Pow, l, r).v, Power(l, r))
  {
    hide Wrap, Congruent, Power;
    WrapMeans(l + r);
    WrapMeans(l - r);
    WrapMeans(l * r);
    if r >= 0 {
      WrapMeans(Power(l, r));
    }
  }

  /** Quotient and remainder, but by zero, and but for the one quotient too great. */
  lemma DivisionMeans(l: I64, r: I64)
    ensures r == 0 ==> ApplyBin(Div, l, r) == Refuses(DivisionByZero) && ApplyBin(Rem, l, r) == Refuses(DivisionByZero)
    ensures l == MIN && r == -1 ==> ApplyBin(Div, l, r) == Overflows && ApplyBin(Rem, l, r) == Overflows
    ensures r != 0 && !(l == MIN && r == -1) ==>
              && ApplyBin(Div, l, r).Gives? && ApplyBin(Rem, l, r).Gives?
              && Truncates(l, r, ApplyBin(Div, l, r).v, ApplyBin(Rem, l, r).v)
  {
    hide TruncDiv, TruncRem, Truncates, Wrap;
    if r != 0 {
      DivisionTruncates(l, r, TruncDiv(l, r), TruncRem(l, r));
    }
  }

  /** Bit by bit. */
  lemma BitwiseActs(l: I64, r: I64, i: nat)
    requires i < 64
    ensures ApplyBin(BitOr, l, r).Gives? && (Bit(ApplyBin(BitOr, l, r).v, i) <==> Bit(l, i) || Bit(r, i))
    ensures ApplyBin(BitXor, l, r).Gives? && (Bit(ApplyBin(BitXor, l, r).v, i) <==> Bit(l, i) != Bit(r, i))
    ensures ApplyBin(BitAnd, l, r).Gives? && (Bit(ApplyBin(BitAnd, l, r).v, i) <==> Bit(l, i) && Bit(r, i))
    ensures Prefix(Tilde, l).Gives? && (Bit(Prefix(Tilde, l).v, i) <==> !Bit(l, i))
  {
    hide Bit, Or64, Xor64, And64, Not64;
    BitsCombine(l, r, i);
    BitsTurnOver(l, i);
  }

  /** Shifted by the last six bits of the count, a number is multiplied by that power
      of two modulo 2^64, or divided and rounded down; a build that checks panics
      exactly where the count is more than those six bits. */
  lemma ShiftsScale(l: I64, r: I64)
    ensures ApplyBin(Shl, l, r) == Overflows <==> CHECKED && r % 64 != r
    ensures ApplyBin(Shr, l, r) == Overflows <==> CHECKED && r % 64 != r
    ensures !(CHECKED && r % 64 != r) ==>
              && ApplyBin(Shl, l, r).Gives? && Congruent(ApplyBin(Shl, l, r).v, l * Power(2, r % 64))
              && ApplyBin(Shr, l, r).Gives?
              && var q, p := ApplyBin(Shr, l, r).v, Power(2, r % 64);
                 q * p <= l < (q + 1) * p
  {
    hide Wrap, Congruent, Power;
    var places := r % 64;
    WrapMeans(l * Power(2, places));
    ShiftRightFloors(l, places);
  }

  lemma ShiftRightFloors(l: I64, places: nat)
    ensures var q, p := ShiftRight(l, places), Power(2, places);
            q * p <= l < (q + 1) * p
  {
    hide Wrap, Power;
    PowerIsPositive(places);
    var p: int, x: int := Power(2, places), l;
    var q := x / p;
    assert x == p * q + x % p;
    assert (q + 1) * p == p * q + p;
    QuotientStays(x, p, q);
    WrapOfFitting(q);
  }

  lemma QuotientStays(x: int, p: int, q: int)
    requires MIN <= x <= MAX && p >= 1 && q * p <= x < (q + 1) * p
    ensures MIN <= q <= MAX
  {
    if q >= 0 {
      Grows(p, q, 1);
    } else {
      Grows(p, -q - 1, 1);
      assert p * (-q - 1) == -((q + 1) * p);
    }
  }

  lemma WrapOfFitting(x: int)
    requires MIN <= x <= MAX
    ensures Wrap(x) == x
  {
  }

  /** Truth is 1 and falsehood 0, and any other number is as true as 1. */
  lemma TruthIsOne(l: I64, r: I64)
    ensures ApplyBin(Less, l, r) == Gives(if l < r then 1 else 0) && ApplyBin(Greater, l, r) == Gives(if l > r then 1 else 0)
    ensures ApplyBin(AtMost, l, r) == Gives(if l <= r then 1 else 0) && ApplyBin(AtLeast, l, r) == Gives(if l >= r then 1 else 0)
    ensures ApplyBin(EqualTo, l, r) == Gives(if l == r then 1 else 0) && ApplyBin(NotEqual, l, r) == Gives(if l == r then 0 else 1)
    ensures ApplyBin(AndAlso, l, r) == Gives(if l == 0 || r == 0 then 0 else 1)
    ensures ApplyBin(OrElse, l, r) == Gives(if l == 0 && r == 0 then 0 else 1)
    ensures Prefix(Bang, l) == Gives(if l == 0 then 1 else 0)
  {
  }

  /** A minus sign negates, but for the one number that has no negative: there a
      build that checks panics, and any other leaves it as it is. A plus sign does
      nothing. */
  lemma SignsMean(v: I64)
    ensures Prefix(Bin(Add), v) == Gives(v)
    ensures v == MIN ==> Prefix(Bin(Sub), v) == if CHECKED then Overflows else Gives(MIN)
    ensures v != MIN ==> Prefix(Bin(Sub), v).Gives? && v + Prefix(Bin(Sub), v).v == 0
  {
  }

  /** An unset variable is 0, and setting one changes no other. */
  lemma VariablesHold(env: Env, name: string, v: I64, other: string)
    ensures Get(map[], name) == 0
    ensures Get(env[name := v], other) == if other == name then v else Get(env, other)
  {
  }

  /** `++x` is `x += 1` and `--x` is `x -= 1`, but that at the end of the numbers a
      build that checks panics; `x++` and `x--` do the same and give what was there. */
  lemma StepsAreAssignments(name: string, up: bool, env: Env)
    ensures var plainly := Eval(SetWith(name, if up then Add else Sub, Lit(1)), env);
            var atEnd := Get(env, name) == if up then MAX else MIN;
            && plainly.Means?
            && Eval(PreStep(name, up), env) == (if CHECKED && atEnd then Panics else plainly)
            && Eval(PostStep(name, up), env) == (if CHECKED && atEnd then Panics else Means(Get(env, name), plainly.env))
  {
    hide Print, PrintAt, Prefix, EvalArms, TruncDiv, TruncRem, Power, Exactly;
    var v: int := Get(env, name);
    EvalSet(name, Lit(1), if up then Add else Sub, env);
    assert Wrap(if up then v + 1 else v - 1) == if up then if v == MAX then MIN else v + 1 else if v == MIN then MAX else v - 1;
  }

  /** A conditional evaluates its condition, then both arms in order, and gives the
      first arm's value exactly when the condition's is not 0. */
  lemma ConditionPicks(c: Expr, a: Expr, b: Expr, env: Env, m: Meaning)
    requires m == Eval(Cond(c, a, b), env) && m.Means?
    ensures var x := Eval(c, env);
            && x.Means?
            && var y := Eval(a, x.env);
               && y.Means?
               && var z := Eval(b, y.env);
                  z.Means? && m.env == z.env && (x.v != 0 ==> m.v == y.v) && (x.v == 0 ==> m.v == z.v)
  {
    hide Eval;
    EvalCond(c, a, b, env);
    var x := Eval(c, env);
    if x.Means? {
      EvalBothArms(x.v != 0, Cond(c, a, b), x.env);
    }
  }
}
