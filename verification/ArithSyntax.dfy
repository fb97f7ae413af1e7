/** Tokens, operators and what each operator does. */
module ArithSyntax {
  import opened Bits64
  import opened Ints64

  datatype BinOp =
    | OrElse | AndAlso | BitOr | BitXor | BitAnd
    | EqualTo | NotEqual | AtMost | AtLeast | Less | Greater
    | Shl | Shr | Add | Sub | Mul | Div | Rem | Pow

  /** An operator token as it is spelled: `Bin(Sub)` is `-` whether it turns out to
      be infix or prefix, and `SetBy(Add)` is `+=`. */
  datatype Spelling = Bin(op: BinOp) | Bang | Tilde | Inc | Dec | Set | SetBy(withOp: BinOp)

  datatype Tok =
    | Num(n: I64)
    | Ident(name: string)
    | Op(spelling: Spelling)
    | LParen | RParen | Question | Colon | Comma | Eof

  type Env = map<string, I64>

  /** An unset variable reads as 0. */
  function Get(env: Env, name: string): I64 {
    if name in env then env[name] else 0
  }

  datatype Failure = DivisionByZero | NegativeExponent | ColonExpected | CloseExpected | OperandExpected | Trailing

  /** What an operation gives: a value, one of the errors it reports, or a panic. */
  datatype Applied = Gives(v: I64) | Refuses(why: Failure) | Overflows

  function FromBool(b: bool): I64 { if b then 1 else 0 }

  /** Division truncating toward zero, and its remainder. */
  function TruncDiv(l: int, r: int): int
    requires r != 0
  {
    var q := (if l < 0 then -l else l) / (if r < 0 then -r else r);
    if (l < 0) == (r < 0) then q else -q
  }

  function TruncRem(l: int, r: int): int
    requires r != 0
  {
    l - r * TruncDiv(l, r)
  }

  function Magnitude(x: int): nat {
    if x < 0 then -x else x
  }

  /** `q` and `m` divide `l` by `r` with a remainder smaller than `r` that takes
      the sign of `l`. */
  predicate Truncates(l: int, r: int, q: int, m: int) {
    l == r * q + m && Magnitude(m) < Magnitude(r) && (m == 0 || (m < 0 <==> l < 0))
  }

  lemma Grows(b: nat, c: nat, least: nat)
    requires b >= least
    ensures b * c >= least * c
  {
    assert b * c == least * c + (b - least) * c;
  }

  lemma MagnitudeOfProduct(r: int, d: int)
    ensures Magnitude(r * d) == Magnitude(r) * Magnitude(d)
  {
    if r < 0 && d < 0 {
      assert r * d == (-r) * (-d);
    } else if r < 0 {
      assert r * d == -((-r) * d);
    } else if d < 0 {
      assert r * d == -(r * (-d));
    }
    assert Magnitude(r) * Magnitude(d) >= 0 by { Grows(Magnitude(r), Magnitude(d), 0); }
  }

  lemma NoMultiple(r: int, d: int)
    requires r != 0 && Magnitude(r * d) < Magnitude(r)
    ensures d == 0
  {
    hide Magnitude;
    MagnitudeOfProduct(r, d);
    if Magnitude(d) >= 1 {
      Grows(Magnitude(d), Magnitude(r), 1);
    }
    OnlyZeroIsSmall(d);
  }

  lemma OnlyZeroIsSmall(d: int)
    ensures Magnitude(d) < 1 <==> d == 0
  {
  }

  /** Division and remainder truncate, as no other pair does. The remainder always
      fits; the quotient does but for the one overflow. */
  lemma DivisionTruncates(l: I64, r: I64, q: int, m: int)
    requires r != 0
    ensures Truncates(l, r, q, m) <==> q == TruncDiv(l, r) && m == TruncRem(l, r)
    ensures MIN <= TruncRem(l, r) <= MAX && Wrap(TruncRem(l, r)) == TruncRem(l, r)
    ensures MIN <= TruncDiv(l, r) <= MAX <==> !(l == MIN && r == -1)
  {
    hide TruncDiv;
    TruncationHolds(l, r);
    if Truncates(l, r, q, m) {
      OneQuotient(l, r, q, m, TruncDiv(l, r), TruncRem(l, r));
    }
    QuotientFits(l, r);
  }

  lemma OneQuotient(l: int, r: int, q: int, m: int, q1: int, m1: int)
    requires r != 0 && Truncates(l, r, q, m) && Truncates(l, r, q1, m1)
    ensures q == q1 && m == m1
  {
    var x, y := r * q, r * q1;
    assert r * (q - q1) == x - y;
    NoMultiple(r, q - q1);
  }

  lemma TruncationHolds(l: int, r: int)
    requires r != 0
    ensures Truncates(l, r, TruncDiv(l, r), TruncRem(l, r))
  {
    var a: int, b: int := Magnitude(l), Magnitude(r);
    var q := a / b;
    assert a == b * q + a % b;
    if (l < 0) == (r < 0) {
      assert r * q == if r < 0 then -(b * q) else b * q;
    } else {
      assert r * -q == if r < 0 then b * q else -(b * q);
    }
  }

  lemma QuotientFits(l: I64, r: I64)
    requires r != 0
    ensures MIN <= TruncDiv(l, r) <= MAX <==> !(l == MIN && r == -1)
  {
    var a: int, b: int := Magnitude(l), Magnitude(r);
    QuotientIsSmall(a, b);
  }

  lemma QuotientIsSmall(a: nat, b: nat)
    requires b > 0
    ensures 0 <= a / b <= a && (b == 1 ==> a / b == a) && (b >= 2 ==> 2 * (a / b) <= a)
  {
    var q := a / b;
    assert a == b * q + a % b;
    Grows(b, q, if b >= 2 then 2 else 1);
  }

  /** A result as it is, or a panic. */
  function Exactly(x: int): Applied {
    if MIN <= x <= MAX then Gives(x) else Overflows
  }

  /** A result that wraps where nothing checks it. */
  function Checked(x: int): Applied {
    if MIN <= x <= MAX then Gives(x) else if CHECKED then Overflows else Gives(Wrap(x))
  }

  function ApplyBin(op: BinOp, l: I64, r: I64): Applied {
    match op
    case OrElse => Gives(FromBool(l != 0 || r != 0))
    case AndAlso => Gives(FromBool(l != 0 && r != 0))
    case BitOr => Gives(Or64(l, r))
    case BitXor => Gives(Xor64(l, r))
    case BitAnd => Gives(And64(l, r))
    case EqualTo => Gives(FromBool(l == r))
    case NotEqual => Gives(FromBool(l != r))
    case AtMost => Gives(FromBool(l <= r))
    case AtLeast => Gives(FromBool(l >= r))
    case Less => Gives(FromBool(l < r))
    case Greater => Gives(FromBool(l > r))
    case Shl => if ShiftPanics(r) then Overflows else Gives(ShiftLeft(l, r % 64))
    case Shr => if ShiftPanics(r) then Overflows else Gives(ShiftRight(l, r % 64))
    case Add => Gives(Wrap(l + r))
    case Sub => Gives(Wrap(l - r))
    case Mul => Gives(Wrap(l * r))
    case Div => if r == 0 then Refuses(DivisionByZero) else Exactly(TruncDiv(l, r))
    case Rem =>
      if r == 0 then Refuses(DivisionByZero)
      else if l == MIN && r == -1 then Overflows
      else Gives(Wrap(TruncRem(l, r)))
    case Pow => if r < 0 then Refuses(NegativeExponent) else Gives(Wrap(Power(l, r)))
  }

  /** Places beyond 63 are refused where they are checked, and else taken modulo 64. */
  predicate ShiftPanics(r: I64) {
    CHECKED && !(0 <= r < 64)
  }

  /** The operators a compound assignment may use. */
  predicate Compound(op: BinOp) {
    op in {Add, Sub, Mul, Div, Rem, Shl, Shr, BitAnd, BitOr, BitXor}
  }

  // Precedence levels, loosest first.
  const COMMA: nat := 0
  const ASSIGN: nat := 1
  const TERNARY: nat := 2
  const MUL: nat := 12
  const POW: nat := 13
  const UNARY: nat := 14
  const PRIMARY: nat := 15

  function LevelOf(op: BinOp): (level: nat)
    ensures 3 <= level <= POW
    ensures level == POW <==> op.Pow?
  {
    match op
    case OrElse => 3
    case AndAlso => 4
    case BitOr => 5
    case BitXor => 6
    case BitAnd => 7
    case EqualTo => 8
    case NotEqual => 8
    case AtMost => 9
    case AtLeast => 9
    case Less => 9
    case Greater => 9
    case Shl => 10
    case Shr => 10
    case Add => 11
    case Sub => 11
    case Mul => MUL
    case Div => MUL
    case Rem => MUL
    case Pow => POW
  }
}
