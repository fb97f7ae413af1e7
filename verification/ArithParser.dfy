/** The one-pass recursive-descent parser and evaluator, as written: one method a
    precedence level, each proved to be its level of the table-driven grammar. */
module ArithParser {
  import opened Bits64
  import opened Ints64
  import opened ArithSyntax
  import opened ArithGrammar

  /** What a parsing method returns; where it left off is in the parser. */
  datatype Answer = Got(v: I64) | Failed(why: Failure, at: Tok) | Panicked

  /** The shell's variables. */
  class Variables {
    var env: Env

    constructor (env: Env)
      ensures this.env == env
    {
      this.env := env;
    }

    method Value(name: string) returns (v: I64)
      ensures v == Get(env, name)
    {
      v := Get(env, name);
    }

    method Assign(name: string, v: I64)
      modifies this
      ensures env == old(env)[name := v]
    {
      env := env[name := v];
    }
  }

  /** Which operators a level has. */
  lemma LevelHas(tok: Tok, level: nat)
    requires 3 <= level <= MUL
    ensures Continues(tok, level) <==>
            match level
            case 3 => tok == Op(Bin(OrElse))
            case 4 => tok == Op(Bin(AndAlso))
            case 5 => tok == Op(Bin(BitOr))
            case 6 => tok == Op(Bin(BitXor))
            case 7 => tok == Op(Bin(BitAnd))
            case 8 => tok == Op(Bin(EqualTo)) || tok == Op(Bin(NotEqual))
            case 9 => tok == Op(Bin(AtMost)) || tok == Op(Bin(AtLeast)) || tok == Op(Bin(Less)) || tok == Op(Bin(Greater))
            case 10 => tok == Op(Bin(Shl)) || tok == Op(Bin(Shr))
            case 11 => tok == Op(Bin(Add)) || tok == Op(Bin(Sub))
            case _ => tok == Op(Bin(Mul)) || tok == Op(Bin(Div)) || tok == Op(Bin(Rem))
  {
  }

  /** What combining by an infix operator comes to. */
  lemma Applies(op: BinOp, l: I64, r: I64)
    ensures Combine(Op(Bin(op)), l, r) == ApplyBin(op, l, r)
    ensures op.OrElse? ==> ApplyBin(op, l, r) == Gives(FromBool(l != 0 || r != 0))
    ensures op.AndAlso? ==> ApplyBin(op, l, r) == Gives(FromBool(l != 0 && r != 0))
    ensures op.BitOr? ==> ApplyBin(op, l, r) == Gives(Or64(l, r))
    ensures op.BitXor? ==> ApplyBin(op, l, r) == Gives(Xor64(l, r))
    ensures op.BitAnd? ==> ApplyBin(op, l, r) == Gives(And64(l, r))
    ensures op.EqualTo? ==> ApplyBin(op, l, r) == Gives(FromBool(l == r))
    ensures op.NotEqual? ==> ApplyBin(op, l, r) == Gives(FromBool(l != r))
    ensures op.AtMost? ==> ApplyBin(op, l, r) == Gives(FromBool(l <= r))
    ensures op.AtLeast? ==> ApplyBin(op, l, r) == Gives(FromBool(l >= r))
    ensures op.Less? ==> ApplyBin(op, l, r) == Gives(FromBool(l < r))
    ensures op.Greater? ==> ApplyBin(op, l, r) == Gives(FromBool(l > r))
    ensures op.Shl? ==> ApplyBin(op, l, r) == if ShiftPanics(r) then Overflows else Gives(ShiftLeft(l, r % 64))
    ensures op.Shr? ==> ApplyBin(op, l, r) == if ShiftPanics(r) then Overflows else Gives(ShiftRight(l, r % 64))
    ensures op.Add? ==> ApplyBin(op, l, r) == Gives(Wrap(l + r))
    ensures op.Sub? ==> ApplyBin(op, l, r) == Gives(Wrap(l - r))
    ensures op.Mul? ==> ApplyBin(op, l, r) == Gives(Wrap(l * r))
    ensures (op.Div? || op.Rem?) && r == 0 ==> ApplyBin(op, l, r) == Refuses(DivisionByZero)
    ensures (op.Div? || op.Rem?) && l == MIN && r == -1 ==> ApplyBin(op, l, r) == Overflows
    ensures op.Div? && r != 0 && !(l == MIN && r == -1) ==>
              MIN <= TruncDiv(l, r) <= MAX && ApplyBin(op, l, r) == Gives(TruncDiv(l, r))
    ensures op.Rem? && r != 0 && !(l == MIN && r == -1) ==> ApplyBin(op, l, r) == Gives(Wrap(TruncRem(l, r)))
  {
    hide Or64, Xor64, And64, ShiftLeft, ShiftRight, Wrap, Power;
  }

  lemma Compares(op: BinOp, l: I64, r: I64)
    ensures op.AtMost? ==> Combine(Op(Bin(op)), l, r) == Gives(FromBool(l <= r))
    ensures op.AtLeast? ==> Combine(Op(Bin(op)), l, r) == Gives(FromBool(l >= r))
    ensures op.Less? ==> Combine(Op(Bin(op)), l, r) == Gives(FromBool(l < r))
    ensures op.Greater? ==> Combine(Op(Bin(op)), l, r) == Gives(FromBool(l > r))
  {
    hide ApplyBin;
    Applies(op, l, r);
  }

  class Parser {
    const toks: seq<Tok>
    var pos: nat
    const ctx: Variables

    constructor (toks: seq<Tok>, ctx: Variables)
      requires Ended(toks)
      ensures Valid() && this.toks == toks && this.ctx == ctx && pos == 0
    {
      this.toks, this.ctx, pos := toks, ctx, 0;
    }

    ghost predicate Valid()
      reads this
    {
      Ended(toks) && pos < |toks|
    }

    /** The answer, with the parser and the variables as they stand, is `outcome`. */
    ghost predicate Agrees(answer: Answer, outcome: Outcome)
      reads this, ctx
    {
      match outcome
      case Value(v, p, env) => answer == Got(v) && pos == p && ctx.env == env
      case Error(why, at, env) => answer == Failed(why, at) && ctx.env == env
      case Panic => answer == Panicked
    }

    function PeekOp(spelling: Spelling): bool
      requires Valid()
      reads this
    {
      toks[pos] == Op(spelling)
    }

    method Advance() returns (tok: Tok)
      requires Valid()
      modifies this`pos
      ensures Valid() && tok == toks[old(pos)] && pos == Next(toks, old(pos))
      ensures tok != Eof ==> pos == old(pos) + 1
    {
      tok := toks[pos];
      if pos + 1 < |toks| {
        pos := pos + 1;
      }
    }

    function Fail(why: Failure): Answer
      requires Valid()
      reads this
    {
      Failed(why, LastConsumed(toks, pos))
    }

    /** Level 0: assignments one after another, only the last one's value kept. */
    method ParseComma() returns (answer: Answer)
      requires Valid()
      modifies this`pos, ctx
      ensures Valid() && old(pos) <= pos && Agrees(answer, Parse(toks, old(pos), old(ctx.env), COMMA))
      decreases |toks| - pos, PRIMARY - COMMA
    {
      hide Ended, Parse, Loop;
      ghost var outcome := Parse(toks, pos, ctx.env, COMMA);
      LevelUnrolled(toks, pos, ctx.env, COMMA);
      answer := ParseAssign();
      while answer.Got? && toks[pos].Comma?
        invariant Valid() && old(pos) <= pos && (answer.Got? ==> old(pos) < pos)
        invariant if answer.Got? then Loop(toks, pos, ctx.env, COMMA, answer.v) == outcome else Agrees(answer, outcome)
        decreases |toks| - pos, answer.Got?
      {
        LoopUnrolled(toks, pos, ctx.env, COMMA, answer.v);
        var _ := Advance();
        answer := ParseAssign();
      }
      if answer.Got? {
        LoopUnrolled(toks, pos, ctx.env, COMMA, answer.v);
      }
    }

    method ParseAssign() returns (answer: Answer)
      requires Valid()
      modifies this`pos, ctx
      ensures Valid() && old(pos) <= pos && Agrees(answer, Parse(toks, old(pos), old(ctx.env), ASSIGN))
      decreases |toks| - pos, PRIMARY - ASSIGN
    {
      hide ParseTernaryAt, Loop, ApplyBin;
      if toks[pos].Ident? && pos + 1 < |toks| && toks[pos + 1].Op? {
        var name, op := toks[pos].name, toks[pos + 1].spelling;
        if op.Set? {
          pos := pos + 2;
          answer := ParseAssign();
          if answer.Got? {
            ctx.Assign(name, answer.v);
          }
          return;
        }
        if op.SetBy? && Compound(op.withOp) {
          pos := pos + 2;
          answer := ParseAssign();
          if answer.Got? {
            var cur := ctx.Value(name);
            match ApplyBin(op.withOp, cur, answer.v) {
              case Gives(v) =>
                ctx.Assign(name, v);
                answer := Got(v);
              case Refuses(why) => answer := Fail(why);
              case Overflows => answer := Panicked;
            }
          }
          return;
        }
      }
      answer := ParseTernary();
    }

    method ParseTernary() returns (answer: Answer)
      requires Valid()
      modifies this`pos, ctx
      ensures Valid() && old(pos) <= pos && Agrees(answer, Parse(toks, old(pos), old(ctx.env), TERNARY))
      decreases |toks| - pos, PRIMARY - TERNARY
    {
      hide ParseAssignAt, Loop;
      answer := ParseOr();
      if answer.Got? && toks[pos].Question? {
        var cond := answer.v;
        var _ := Advance();
        answer := ParseAssign();
        if !answer.Got? {
          return;
        }
        var a := answer.v;
        var tok := Advance();
        if !tok.Colon? {
          return Fail(ColonExpected);
        }
        answer := ParseAssign();
        if answer.Got? && cond != 0 {
          answer := Got(a);
        }
      }
    }

    method ParseOr() returns (answer: Answer)
      requires Valid()
      modifies this`pos, ctx
      ensures Valid() && old(pos) <= pos && Agrees(answer, Parse(toks, old(pos), old(ctx.env), 3))
      decreases |toks| - pos, PRIMARY - 3
    {
      hide Ended, Parse, Loop, Or64, Xor64, And64, Wrap, TruncDiv, TruncRem, ApplyBin, Combine, FromBool, Continues, LevelOf;
      ghost var outcome := Parse(toks, pos, ctx.env, 3);
      LevelUnrolled(toks, pos, ctx.env, 3);
      answer := ParseAnd();
      while answer.Got?
        invariant Valid() && old(pos) <= pos && (answer.Got? ==> old(pos) < pos)
        invariant if answer.Got? then Loop(toks, pos, ctx.env, 3, answer.v) == outcome else Agrees(answer, outcome)
        decreases |toks| - pos, answer.Got?
      {
        LoopUnrolled(toks, pos, ctx.env, 3, answer.v);
        LevelHas(toks[pos], 3);
        var v := answer.v;
        if PeekOp(Bin(OrElse)) {
          var _ := Advance();
          var r := ParseAnd();
          if !r.Got? {
            return r;
          }
          Applies(OrElse, v, r.v);
          answer := Got(FromBool(v != 0 || r.v != 0));
        } else {
          return;
        }
      }
    }

    method ParseAnd() returns (answer: Answer)
      requires Valid()
      modifies this`pos, ctx
      ensures Valid() && old(pos) <= pos && Agrees(answer, Parse(toks, old(pos), old(ctx.env), 4))
      decreases |toks| - pos, PRIMARY - 4
    {
      hide Ended, Parse, Loop, Or64, Xor64, And64, Wrap, TruncDiv, TruncRem, ApplyBin, Combine, FromBool, Continues, LevelOf;
      ghost var outcome := Parse(toks, pos, ctx.env, 4);
      LevelUnrolled(toks, pos, ctx.env, 4);
      answer := ParseBitOr();
      while answer.Got?
        invariant Valid() && old(pos) <= pos && (answer.Got? ==> old(pos) < pos)
        invariant if answer.Got? then Loop(toks, pos, ctx.env, 4, answer.v) == outcome else Agrees(answer, outcome)
        decreases |toks| - pos, answer.Got?
      {
        LoopUnrolled(toks, pos, ctx.env, 4, answer.v);
        LevelHas(toks[pos], 4);
        var v := answer.v;
        if PeekOp(Bin(AndAlso)) {
          var _ := Advance();
          var r := ParseBitOr();
          if !r.Got? {
            return r;
          }
          Applies(AndAlso, v, r.v);
          answer := Got(FromBool(v != 0 && r.v != 0));
        } else {
          return;
        }
      }
    }

    method ParseBitOr() returns (answer: Answer)
      requires Valid()
      modifies this`pos, ctx
      ensures Valid() && old(pos) <= pos && Agrees(answer, Parse(toks, old(pos), old(ctx.env), 5))
      decreases |toks| - pos, PRIMARY - 5
    {
      hide Ended, Parse, Loop, Or64, Xor64, And64, Wrap, TruncDiv, TruncRem, ApplyBin, Combine, FromBool, Continues, LevelOf;
      ghost var outcome := Parse(toks, pos, ctx.env, 5);
      LevelUnrolled(toks, pos, ctx.env, 5);
      answer := ParseBitXor();
      while answer.Got?
        invariant Valid() && old(pos) <= pos && (answer.Got? ==> old(pos) < pos)
        invariant if answer.Got? then Loop(toks, pos, ctx.env, 5, answer.v) == outcome else Agrees(answer, outcome)
        decreases |toks| - pos, answer.Got?
      {
        LoopUnrolled(toks, pos, ctx.env, 5, answer.v);
        LevelHas(toks[pos], 5);
        var v := answer.v;
        if PeekOp(Bin(BitOr)) {
          var _ := Advance();
          var r := ParseBitXor();
          if !r.Got? {
            return r;
          }
          Applies(BitOr, v, r.v);
          answer := Got(Or64(v, r.v));
        } else {
          return;
        }
      }
    }

    method ParseBitXor() returns (answer: Answer)
      requires Valid()
      modifies this`pos, ctx
      ensures Valid() && old(pos) <= pos && Agrees(answer, Parse(toks, old(pos), old(ctx.env), 6))
      decreases |toks| - pos, PRIMARY - 6
    {
      hide Ended, Parse, Loop, Or64, Xor64, And64, Wrap, TruncDiv, TruncRem, ApplyBin, Combine, FromBool, Continues, LevelOf;
      ghost var outcome := Parse(toks, pos, ctx.env, 6);
      LevelUnrolled(toks, pos, ctx.env, 6);
      answer := ParseBitAnd();
      while answer.Got?
        invariant Valid() && old(pos) <= pos && (answer.Got? ==> old(pos) < pos)
        invariant if answer.Got? then Loop(toks, pos, ctx.env, 6, answer.v) == outcome else Agrees(answer, outcome)
        decreases |toks| - pos, answer.Got?
      {
        LoopUnrolled(toks, pos, ctx.env, 6, answer.v);
        LevelHas(toks[pos], 6);
        var v := answer.v;
        if PeekOp(Bin(BitXor)) {
          var _ := Advance();
          var r := ParseBitAnd();
          if !r.Got? {
            return r;
          }
          Applies(BitXor, v, r.v);
          answer := Got(Xor64(v, r.v));
        } else {
          return;
        }
      }
    }

    method ParseBitAnd() returns (answer: Answer)
      requires Valid()
      modifies this`pos, ctx
      ensures Valid() && old(pos) <= pos && Agrees(answer, Parse(toks, old(pos), old(ctx.env), 7))
      decreases |toks| - pos, PRIMARY - 7
    {
      hide Ended, Parse, Loop, Or64, Xor64, And64, Wrap, TruncDiv, TruncRem, ApplyBin, Combine, FromBool, Continues, LevelOf;
      ghost var outcome := Parse(toks, pos, ctx.env, 7);
      LevelUnrolled(toks, pos, ctx.env, 7);
      answer := ParseEq();
      while answer.Got?
        invariant Valid() && old(pos) <= pos && (answer.Got? ==> old(pos) < pos)
        invariant if answer.Got? then Loop(toks, pos, ctx.env, 7, answer.v) == outcome else Agrees(answer, outcome)
        decreases |toks| - pos, answer.Got?
      {
        LoopUnrolled(toks, pos, ctx.env, 7, answer.v);
        LevelHas(toks[pos], 7);
        var v := answer.v;
        if PeekOp(Bin(BitAnd)) {
          var _ := Advance();
          var r := ParseEq();
          if !r.Got? {
            return r;
          }
          Applies(BitAnd, v, r.v);
          answer := Got(And64(v, r.v));
        } else {
          return;
        }
      }
    }

    method ParseEq() returns (answer: Answer)
      requires Valid()
      modifies this`pos, ctx
      ensures Valid() && old(pos) <= pos && Agrees(answer, Parse(toks, old(pos), old(ctx.env), 8))
      decreases |toks| - pos, PRIMARY - 8
    {
      hide Ended, Parse, Loop, Or64, Xor64, And64, Wrap, TruncDiv, TruncRem, ApplyBin, Combine, FromBool, Continues, LevelOf;
      ghost var outcome := Parse(toks, pos, ctx.env, 8);
      LevelUnrolled(toks, pos, ctx.env, 8);
      answer := ParseRel();
      while answer.Got?
        invariant Valid() && old(pos) <= pos && (answer.Got? ==> old(pos) < pos)
        invariant if answer.Got? then Loop(toks, pos, ctx.env, 8, answer.v) == outcome else Agrees(answer, outcome)
        decreases |toks| - pos, answer.Got?
      {
        LoopUnrolled(toks, pos, ctx.env, 8, answer.v);
        LevelHas(toks[pos], 8);
        var v := answer.v;
        if PeekOp(Bin(EqualTo)) {
          var _ := Advance();
          var r := ParseRel();
          if !r.Got? {
            return r;
          }
          Applies(EqualTo, v, r.v);
          answer := Got(FromBool(v == r.v));
        } else if PeekOp(Bin(NotEqual)) {
          var _ := Advance();
          var r := ParseRel();
          if !r.Got? {
            return r;
          }
          Applies(NotEqual, v, r.v);
          answer := Got(FromBool(v != r.v));
        } else {
          return;
        }
      }
    }

    /** A comparison from its operator on: the operand, and the two compared. */
    method Compare(op: BinOp, v: I64, ghost outcome: Outcome) returns (answer: Answer)
      requires Valid() && toks[pos] == Op(Bin(op)) && Loop(toks, pos, ctx.env, 9, v) == outcome
      requires op.AtMost? || op.AtLeast? || op.Less? || op.Greater?
      modifies this`pos, ctx
      ensures Valid() && old(pos) < pos
      ensures if answer.Got? then Loop(toks, pos, ctx.env, 9, answer.v) == outcome else Agrees(answer, outcome)
      decreases |toks| - pos, PRIMARY
    {
      hide Ended, Parse, Loop, Combine, FromBool, Continues, LevelOf;
      LoopUnrolled(toks, pos, ctx.env, 9, v);
      LevelHas(toks[pos], 9);
      var _ := Advance();
      answer := ParseShift();
      if answer.Got? {
        var r := answer.v;
        Compares(op, v, r);
        answer := Got(FromBool(if op.AtMost? then v <= r else if op.AtLeast? then v >= r
                               else if op.Less? then v < r else v > r));
      }
    }

    method ParseRel() returns (answer: Answer)
      requires Valid()
      modifies this`pos, ctx
      ensures Valid() && old(pos) <= pos && Agrees(answer, Parse(toks, old(pos), old(ctx.env), 9))
      decreases |toks| - pos, PRIMARY - 9
    {
      hide Ended, Parse, Loop, Continues, LevelOf;
      ghost var outcome := Parse(toks, pos, ctx.env, 9);
      LevelUnrolled(toks, pos, ctx.env, 9);
      answer := ParseShift();
      while answer.Got?
        invariant Valid() && old(pos) <= pos && (answer.Got? ==> old(pos) < pos)
        invariant if answer.Got? then Loop(toks, pos, ctx.env, 9, answer.v) == outcome else Agrees(answer, outcome)
        decreases |toks| - pos, answer.Got?
      {
        LoopUnrolled(toks, pos, ctx.env, 9, answer.v);
        LevelHas(toks[pos], 9);
        if PeekOp(Bin(AtMost)) {
          answer := Compare(AtMost, answer.v, outcome);
        } else if PeekOp(Bin(AtLeast)) {
          answer := Compare(AtLeast, answer.v, outcome);
        } else if PeekOp(Bin(Less)) {
          answer := Compare(Less, answer.v, outcome);
        } else if PeekOp(Bin(Greater)) {
          answer := Compare(Greater, answer.v, outcome);
        } else {
          return;
        }
      }
    }

    /** A shift from its operator on. */
    method Shift(op: BinOp, v: I64, ghost outcome: Outcome) returns (answer: Answer)
      requires Valid() && toks[pos] == Op(Bin(op)) && Loop(toks, pos, ctx.env, 10, v) == outcome
      requires op.Shl? || op.Shr?
      modifies this`pos, ctx
      ensures Valid() && old(pos) < pos
      ensures if answer.Got? then Loop(toks, pos, ctx.env, 10, answer.v) == outcome else Agrees(answer, outcome)
      decreases |toks| - pos, PRIMARY
    {
      hide Ended, Parse, Loop, ShiftLeft, ShiftRight, ApplyBin, Combine, ShiftPanics, Continues, LevelOf;
      LoopUnrolled(toks, pos, ctx.env, 10, v);
      LevelHas(toks[pos], 10);
      var _ := Advance();
      answer := ParseAdd();
      if answer.Got? {
        var r := answer.v;
        Applies(op, v, r);
        answer := if ShiftPanics(r) then Panicked
                  else if op.Shl? then Got(ShiftLeft(v, r % 64))
                  else Got(ShiftRight(v, r % 64));
      }
    }

    method ParseShift() returns (answer: Answer)
      requires Valid()
      modifies this`pos, ctx
      ensures Valid() && old(pos) <= pos && Agrees(answer, Parse(toks, old(pos), old(ctx.env), 10))
      decreases |toks| - pos, PRIMARY - 10
    {
      hide Ended, Parse, Loop, Continues, LevelOf;
      ghost var outcome := Parse(toks, pos, ctx.env, 10);
      LevelUnrolled(toks, pos, ctx.env, 10);
      answer := ParseAdd();
      while answer.Got?
        invariant Valid() && old(pos) <= pos && (answer.Got? ==> old(pos) < pos)
        invariant if answer.Got? then Loop(toks, pos, ctx.env, 10, answer.v) == outcome else Agrees(answer, outcome)
        decreases |toks| - pos, answer.Got?
      {
        LoopUnrolled(toks, pos, ctx.env, 10, answer.v);
        LevelHas(toks[pos], 10);
        if PeekOp(Bin(Shl)) {
          answer := Shift(Shl, answer.v, outcome);
        } else if PeekOp(Bin(Shr)) {
          answer := Shift(Shr, answer.v, outcome);
        } else {
          return;
        }
      }
    }

    method ParseAdd() returns (answer: Answer)
      requires Valid()
      modifies this`pos, ctx
      ensures Valid() && old(pos) <= pos && Agrees(answer, Parse(toks, old(pos), old(ctx.env), 11))
      decreases |toks| - pos, PRIMARY - 11
    {
      hide Ended, Parse, Loop, Or64, Xor64, And64, Wrap, TruncDiv, TruncRem, ApplyBin, Combine, FromBool, Continues, LevelOf;
      ghost var outcome := Parse(toks, pos, ctx.env, 11);
      LevelUnrolled(toks, pos, ctx.env, 11);
      answer := ParseMul();
      while answer.Got?
        invariant Valid() && old(pos) <= pos && (answer.Got? ==> old(pos) < pos)
        invariant if answer.Got? then Loop(toks, pos, ctx.env, 11, answer.v) == outcome else Agrees(answer, outcome)
        decreases |toks| - pos, answer.Got?
      {
        LoopUnrolled(toks, pos, ctx.env, 11, answer.v);
        LevelHas(toks[pos], 11);
        var v := answer.v;
        if PeekOp(Bin(Add)) {
          var _ := Advance();
          var r := ParseMul();
          if !r.Got? {
            return r;
          }
          Applies(Add, v, r.v);
          answer := Got(Wrap(v + r.v));
        } else if PeekOp(Bin(Sub)) {
          var _ := Advance();
          var r := ParseMul();
          if !r.Got? {
            return r;
          }
          Applies(Sub, v, r.v);
          answer := Got(Wrap(v - r.v));
        } else {
          return;
        }
      }
    }

    /** A product from its operator on. */
    method Multiply(v: I64, ghost outcome: Outcome) returns (answer: Answer)
      requires Valid() && toks[pos] == Op(Bin(Mul)) && Loop(toks, pos, ctx.env, 12, v) == outcome
      modifies this`pos, ctx
      ensures Valid() && old(pos) < pos
      ensures if answer.Got? then Loop(toks, pos, ctx.env, 12, answer.v) == outcome else Agrees(answer, outcome)
      decreases |toks| - pos, PRIMARY
    {
      hide Ended, Parse, Loop, Wrap, ApplyBin, Combine, Continues, LevelOf;
      LoopUnrolled(toks, pos, ctx.env, 12, v);
      LevelHas(toks[pos], 12);
      var _ := Advance();
      answer := ParsePow();
      if answer.Got? {
        Applies(Mul, v, answer.v);
        answer := Got(Wrap(v * answer.v));
      }
    }

    /** A quotient or a remainder from its operator on. */
    method Divide(op: BinOp, v: I64, ghost outcome: Outcome) returns (answer: Answer)
      requires Valid() && toks[pos] == Op(Bin(op)) && Loop(toks, pos, ctx.env, 12, v) == outcome
      requires op.Div? || op.Rem?
      modifies this`pos, ctx
      ensures Valid() && old(pos) < pos
      ensures if answer.Got? then Loop(toks, pos, ctx.env, 12, answer.v) == outcome else Agrees(answer, outcome)
      decreases |toks| - pos, PRIMARY
    {
      hide Ended, Parse, Loop, Wrap, TruncDiv, TruncRem, ApplyBin, Combine, Continues, LevelOf;
      LoopUnrolled(toks, pos, ctx.env, 12, v);
      LevelHas(toks[pos], 12);
      var _ := Advance();
      answer := ParsePow();
      if answer.Got? {
        var r := answer.v;
        Applies(op, v, r);
        if r == 0 {
          answer := Fail(DivisionByZero);
        } else if v == MIN && r == -1 {
          answer := Panicked;
        } else {
          answer := Got(if op.Div? then TruncDiv(v, r) else Wrap(TruncRem(v, r)));
        }
      }
    }

    method ParseMul() returns (answer: Answer)
      requires Valid()
      modifies this`pos, ctx
      ensures Valid() && old(pos) <= pos && Agrees(answer, Parse(toks, old(pos), old(ctx.env), 12))
      decreases |toks| - pos, PRIMARY - 12
    {
      hide Ended, Parse, Loop, Continues, LevelOf;
      ghost var outcome := Parse(toks, pos, ctx.env, 12);
      LevelUnrolled(toks, pos, ctx.env, 12);
      answer := ParsePow();
      while answer.Got?
        invariant Valid() && old(pos) <= pos && (answer.Got? ==> old(pos) < pos)
        invariant if answer.Got? then Loop(toks, pos, ctx.env, 12, answer.v) == outcome else Agrees(answer, outcome)
        decreases |toks| - pos, answer.Got?
      {
        LoopUnrolled(toks, pos, ctx.env, 12, answer.v);
        LevelHas(toks[pos], 12);
        if PeekOp(Bin(Mul)) {
          answer := Multiply(answer.v, outcome);
        } else if PeekOp(Bin(Div)) {
          answer := Divide(Div, answer.v, outcome);
        } else if PeekOp(Bin(Rem)) {
          answer := Divide(Rem, answer.v, outcome);
        } else {
          return;
        }
      }
    }

    /** Right-associative, by recursion. */
    method ParsePow() returns (answer: Answer)
      requires Valid()
      modifies this`pos, ctx
      ensures Valid() && old(pos) <= pos && Agrees(answer, Parse(toks, old(pos), old(ctx.env), POW))
      decreases |toks| - pos, PRIMARY - POW
    {
      hide Parse, Power, Wrap;
      PowUnrolled(toks, pos, ctx.env);
      answer := ParseUnary();
      if answer.Got? && PeekOp(Bin(Pow)) {
        var base := answer.v;
        var _ := Advance();
        answer := ParsePow();
        if answer.Got? {
          if answer.v < 0 {
            return Fail(NegativeExponent);
          }
          var power := Ipow(base, answer.v);
          answer := Got(power);
        }
      }
    }

    /** A prefix `++` or `--`: a step, before a name, and else two signs. */
    method PrefixStep(delta: int) returns (answer: Answer)
      requires Valid() && (delta == 1 || delta == -1) && toks[pos] == Op(if delta == 1 then Inc else Dec)
      modifies this`pos, ctx
      ensures Valid() && old(pos) <= pos && Agrees(answer, Parse(toks, old(pos), old(ctx.env), UNARY))
      decreases |toks| - pos, PRIMARY - UNARY, 0
    {
      hide Parse, Stepped;
      UnaryUnrolled(toks, pos, ctx.env);
      var _ := Advance();
      if toks[pos].Ident? {
        var name := toks[pos].name;
        var _ := Advance();
        answer := Step(name, delta, false);
      } else {
        answer := ParseUnary();
      }
    }

    method ParseUnary() returns (answer: Answer)
      requires Valid()
      modifies this`pos, ctx
      ensures Valid() && old(pos) <= pos && Agrees(answer, Parse(toks, old(pos), old(ctx.env), UNARY))
      decreases |toks| - pos, PRIMARY - UNARY, 1
    {
      hide Parse, Stepped;
      UnaryUnrolled(toks, pos, ctx.env);
      if PeekOp(Bang) {
        var _ := Advance();
        answer := ParseUnary();
        if answer.Got? {
          answer := Got(FromBool(answer.v == 0));
        }
      } else if PeekOp(Tilde) {
        var _ := Advance();
        answer := ParseUnary();
        if answer.Got? {
          answer := Got(Not64(answer.v));
        }
      } else if PeekOp(Bin(Sub)) {
        var _ := Advance();
        answer := ParseUnary();
        if answer.Got? {
          answer := Negated(answer.v);
        }
      } else if PeekOp(Bin(Add)) {
        var _ := Advance();
        answer := ParseUnary();
      } else if PeekOp(Inc) {
        answer := PrefixStep(1);
      } else if PeekOp(Dec) {
        answer := PrefixStep(-1);
      } else {
        answer := ParsePrimary();
      }
    }

    function Negated(v: I64): Answer {
      var x: int := v;
      if v > MIN then Got(-x) else if CHECKED then Panicked else Got(MIN)
    }

    /** Moves a variable by one. */
    method Step(name: string, delta: int, giveOld: bool) returns (answer: Answer)
      requires Valid()
      modifies ctx
      ensures Agrees(answer, Stepped(pos, old(ctx.env), name, delta, giveOld))
    {
      var was := ctx.Value(name);
      var now := was + delta;
      if now < MIN || now > MAX {
        if CHECKED {
          return Panicked;
        }
        now := Wrap(now);
      }
      ctx.Assign(name, now);
      answer := Got(if giveOld then was else now);
    }

    method ParsePrimary() returns (answer: Answer)
      requires Valid()
      modifies this`pos, ctx
      ensures Valid() && old(pos) <= pos && Agrees(answer, Parse(toks, old(pos), old(ctx.env), PRIMARY))
      decreases |toks| - pos, PRIMARY - PRIMARY
    {
      hide Loop, ParseAssignAt, ParseTernaryAt, ParseUnaryAt;
      var tok := Advance();
      match tok {
        case Num(n) =>
          answer := Got(n);
        case Ident(name) =>
          if PeekOp(Inc) {
            var _ := Advance();
            answer := Step(name, 1, true);
          } else if PeekOp(Dec) {
            var _ := Advance();
            answer := Step(name, -1, true);
          } else {
            var v := ctx.Value(name);
            answer := Got(v);
          }
        case LParen =>
          answer := ParseComma();
          if answer.Got? {
            var close := Advance();
            if !close.RParen? {
              answer := Fail(CloseExpected);
            }
          }
        case _ =>
          answer := Fail(OperandExpected);
      }
    }
  }

  /** A whole expression, with anything left over an error. */
  method EvalTokens(toks: seq<Tok>, ctx: Variables) returns (answer: Answer)
    requires Ended(toks)
    modifies ctx
    ensures match ParseAll(toks, old(ctx.env))
            case Value(v, _, env) => answer == Got(v) && ctx.env == env
            case Error(why, at, env) => answer == Failed(why, at) && ctx.env == env
            case Panic => answer == Panicked
  {
    hide Parse;
    var p := new Parser(toks, ctx);
    answer := p.ParseComma();
    if answer.Got? && !toks[p.pos].Eof? {
      answer := Failed(Trailing, toks[p.pos]);
    }
  }
}
