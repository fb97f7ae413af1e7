/** Only expressions parse: whatever the parser gives a value is a spelling of some
    tree, parentheses and signs wherever they may stand, and the value is the tree's. */
module ExprSoundness {
  import opened Ints64
  import opened ArithSyntax
  import opened ArithGrammar
  import opened ExprTrees
  import opened ExprRoundTrip

  /** The tokens from `i` up to `j` spell `e` at a level: as it is written there, or as
      at the next level down. */
  ghost predicate Spells(toks: seq<Tok>, i: nat, j: nat, e: Expr, level: nat)
    requires i <= j <= |toks|
    decreases j - i, if level <= PRIMARY then PRIMARY - level + 1 else 0
  {
    && i < j && level <= PRIMARY
    && (|| (level < PRIMARY && Spells(toks, i, j, e, level + 1))
        || (level == COMMA && SpellsThen(toks, i, j, e))
        || (level == ASSIGN && SpellsAssignment(toks, i, j, e))
        || (level == TERNARY && SpellsCond(toks, i, j, e))
        || (3 <= level <= POW && SpellsBinary(toks, i, j, e, level))
        || (level == UNARY && SpellsUnary(toks, i, j, e))
        || (level == PRIMARY && SpellsPrimary(toks, i, j, e)))
  }

  ghost predicate SpellsThen(toks: seq<Tok>, i: nat, j: nat, e: Expr)
    requires i < j <= |toks|
    decreases j - i, 0
  {
    e.Then? && exists k | i < k < j :: toks[k] == Comma && Spells(toks, i, k, e.l, COMMA) && Spells(toks, k + 1, j, e.r, ASSIGN)
  }

  ghost predicate SpellsAssignment(toks: seq<Tok>, i: nat, j: nat, e: Expr)
    requires i < j <= |toks|
    decreases j - i, 0
  {
    && i + 2 < j
    && ((e.SetTo? && toks[i] == Ident(e.name) && toks[i + 1] == Op(Set) && Spells(toks, i + 2, j, e.e, ASSIGN))
        || (e.SetWith? && Compound(e.op) && toks[i] == Ident(e.name) && toks[i + 1] == Op(SetBy(e.op))
            && Spells(toks, i + 2, j, e.e, ASSIGN)))
  }

  ghost predicate SpellsCond(toks: seq<Tok>, i: nat, j: nat, e: Expr)
    requires i < j <= |toks|
    decreases j - i, 0
  {
    e.Cond? && exists k, m | i < k < m < j ::
      && toks[k] == Question && toks[m] == Colon
      && Spells(toks, i, k, e.c, 3) && Spells(toks, k + 1, m, e.a, ASSIGN) && Spells(toks, m + 1, j, e.b, ASSIGN)
  }

  ghost predicate SpellsBinary(toks: seq<Tok>, i: nat, j: nat, e: Expr, level: nat)
    requires i < j <= |toks|
    decreases j - i, 0
  {
    e.Binary? && LevelOf(e.op) == level && exists k | i < k < j ::
      && toks[k] == Op(Bin(e.op))
      && Spells(toks, i, k, e.l, LeftLevel(e.op)) && Spells(toks, k + 1, j, e.r, RightLevel(e.op))
  }

  ghost predicate SpellsUnary(toks: seq<Tok>, i: nat, j: nat, e: Expr)
    requires i < j <= |toks|
    decreases j - i, 0
  {
    || (e.Unary? && toks[i] == Op(PrefixSpelling(e.prefix)) && Spells(toks, i + 1, j, e.e, UNARY))
    || (e.PreStep? && j == i + 2 && toks[i] == Op(StepSpelling(e.up)) && toks[i + 1] == Ident(e.name))
    // Two signs in one token, before anything but a name.
    || ((toks[i] == Op(Inc) || toks[i] == Op(Dec)) && i + 1 < j && !toks[i + 1].Ident? && Spells(toks, i + 1, j, e, UNARY))
  }

  ghost predicate SpellsPrimary(toks: seq<Tok>, i: nat, j: nat, e: Expr)
    requires i < j <= |toks|
    decreases j - i, 0
  {
    || (e.Lit? && j == i + 1 && toks[i] == Num(e.n))
    || (e.Var? && j == i + 1 && toks[i] == Ident(e.name))
    || (e.PostStep? && j == i + 2 && toks[i] == Ident(e.name) && toks[i + 1] == Op(StepSpelling(e.up)))
    || (i + 2 < j && toks[i] == LParen && toks[j - 1] == RParen && Spells(toks, i + 1, j - 1, e, COMMA))
  }

  /** What was parsed is `e`, spelled, and its value. */
  ghost predicate SoundAt(toks: seq<Tok>, pos: nat, env: Env, level: nat, r: Outcome, e: Expr) {
    r.Value? ==> pos <= r.pos <= |toks| && Spells(toks, pos, r.pos, e, level) && Eval(e, env) == Means(r.v, r.env)
  }

  lemma SpellsAbove(toks: seq<Tok>, i: nat, j: nat, e: Expr, level: nat)
    requires i <= j <= |toks| && level < PRIMARY && Spells(toks, i, j, e, level + 1)
    ensures Spells(toks, i, j, e, level)
  {
  }

  lemma PassesDown(toks: seq<Tok>, pos: nat, env: Env, level: nat, r: Outcome, e: Expr)
    requires level < PRIMARY && SoundAt(toks, pos, env, level + 1, r, e)
    ensures SoundAt(toks, pos, env, level, r, e)
  {
    hide Spells, Eval;
    if r.Value? {
      SpellsAbove(toks, pos, r.pos, e, level);
    }
  }

  lemma {:induction false} Sound(toks: seq<Tok>, pos: nat, env: Env, level: nat) returns (e: Expr)
    requires Ended(toks) && pos < |toks| && level <= PRIMARY
    ensures SoundAt(toks, pos, env, level, Parse(toks, pos, env, level), e)
    decreases |toks| - pos, PRIMARY - level, 2
  {
    hide Ended, Parse, Loop, SoundAt, Eval;
    if Loops(level) {
      e := SoundLevel(toks, pos, env, level);
    } else if level == ASSIGN {
      e := SoundAssign(toks, pos, env);
    } else if level == TERNARY {
      e := SoundTernary(toks, pos, env);
    } else if level == POW {
      e := SoundPow(toks, pos, env);
    } else if level == UNARY {
      e := SoundUnary(toks, pos, env);
    } else {
      e := SoundPrimary(toks, pos, env);
    }
  }

  lemma {:induction false} SoundLevel(toks: seq<Tok>, pos: nat, env: Env, level: nat) returns (e: Expr)
    requires Ended(toks) && pos < |toks| && Loops(level)
    ensures SoundAt(toks, pos, env, level, Parse(toks, pos, env, level), e)
    decreases |toks| - pos, PRIMARY - level, 1
  {
    hide Ended, Parse, Loop, Spells, Eval;
    LevelUnrolled(toks, pos, env, level);
    e := Sound(toks, pos, env, level + 1);
    var first := Parse(toks, pos, env, level + 1);
    if first.Value? {
      PassesDown(toks, pos, env, level, first, e);
      e := SoundLoop(toks, pos, env, first.pos, first.env, level, first.v, e);
    }
  }

  /** What a loop's operator makes of the two sides. */
  function Joined(tok: Tok, l: Expr, r: Expr): Expr {
    if tok.Op? && tok.spelling.Bin? then Binary(tok.spelling.op, l, r) else Then(l, r)
  }

  lemma JoinedMeans(toks: seq<Tok>, i: nat, k: nat, j: nat, env: Env, level: nat, l: Expr, r: Expr, x: Meaning, y: Meaning)
    requires i < k < j <= |toks| && Loops(level) && Continues(toks[k], level)
    requires Spells(toks, i, k, l, level) && Spells(toks, k + 1, j, r, level + 1)
    requires Eval(l, env) == x && x.Means? && Eval(r, x.env) == y && y.Means?
    ensures Spells(toks, i, j, Joined(toks[k], l, r), level)
    ensures Combine(toks[k], x.v, y.v).Gives? ==>
              Eval(Joined(toks[k], l, r), env) == Means(Combine(toks[k], x.v, y.v).v, y.env)
  {
    hide Eval, ApplyBin;
    if level == COMMA {
      EvalThen(l, r, env);
      assert SpellsThen(toks, i, j, Then(l, r));
    } else {
      var op := toks[k].spelling.op;
      EvalBinary(op, l, r, env);
      assert SpellsBinary(toks, i, j, Binary(op, l, r), level);
    }
  }

  lemma {:induction false} SoundLoop(toks: seq<Tok>, start: nat, env0: Env, pos: nat, env: Env, level: nat, v: I64, e0: Expr)
    returns (e: Expr)
    requires Ended(toks) && start < pos < |toks| && Loops(level)
    requires Spells(toks, start, pos, e0, level) && Eval(e0, env0) == Means(v, env)
    ensures var r := Loop(toks, pos, env, level, v);
            r.Value? ==> start <= r.pos <= |toks| && Spells(toks, start, r.pos, e, level) && Eval(e, env0) == Means(r.v, r.env)
    decreases |toks| - pos, PRIMARY - level, 0
  {
    hide Ended, Parse, Loop, Spells, Eval, Combine;
    LoopUnrolled(toks, pos, env, level, v);
    e := e0;
    if Continues(toks[pos], level) {
      NotTheEnd(toks, pos, level);
      var r := Parse(toks, pos + 1, env, level + 1);
      var e1 := Sound(toks, pos + 1, env, level + 1);
      if r.Value? && Combine(toks[pos], v, r.v).Gives? {
        JoinedMeans(toks, start, pos, r.pos, env0, level, e0, e1, Means(v, env), Means(r.v, r.env));
        e := SoundLoop(toks, start, env0, r.pos, r.env, level, Combine(toks[pos], v, r.v).v, Joined(toks[pos], e0, e1));
      }
    }
  }

  lemma NotTheEnd(toks: seq<Tok>, pos: nat, level: nat)
    requires Ended(toks) && pos < |toks| && Continues(toks[pos], level)
    ensures pos + 1 < |toks|
  {
  }

  lemma {:induction false} SoundAssign(toks: seq<Tok>, pos: nat, env: Env) returns (e: Expr)
    requires Ended(toks) && pos < |toks|
    ensures SoundAt(toks, pos, env, ASSIGN, Parse(toks, pos, env, ASSIGN), e)
    decreases |toks| - pos, PRIMARY - ASSIGN, 1
  {
    hide Ended, Parse, Eval, ApplyBin;
    AssignUnrolled(toks, pos, env);
    if !StartsAssignment(toks, pos) {
      hide Spells;
      e := Sound(toks, pos, env, TERNARY);
      PassesDown(toks, pos, env, ASSIGN, Parse(toks, pos, env, TERNARY), e);
    } else {
      NameIsNotLast(toks, pos);
      var x := Sound(toks, pos + 2, env, ASSIGN);
      var name, spelling := toks[pos].name, toks[pos + 1].spelling;
      e := SetExpr(name, x, spelling);
      EvalSet(name, x, if spelling.SetBy? then spelling.withOp else Add, env);
      var r := Parse(toks, pos + 2, env, ASSIGN);
      if r.Value? {
        assert SpellsAssignment(toks, pos, r.pos, e);
      }
    }
  }

  lemma NameIsNotLast(toks: seq<Tok>, pos: nat)
    requires Ended(toks) && StartsAssignment(toks, pos)
    ensures pos + 2 < |toks|
  {
  }

  lemma {:induction false} SoundTernary(toks: seq<Tok>, pos: nat, env: Env) returns (e: Expr)
    requires Ended(toks) && pos < |toks|
    ensures SoundAt(toks, pos, env, TERNARY, Parse(toks, pos, env, TERNARY), e)
    decreases |toks| - pos, PRIMARY - TERNARY, 1
  {
    hide Ended, Parse, Eval;
    TernaryUnrolled(toks, pos, env);
    var c := Sound(toks, pos, env, 3);
    var cond := Parse(toks, pos, env, 3);
    e := c;
    if cond.Value? && toks[cond.pos].Question? {
      MoreTokens(toks, cond.pos);
      var a := Sound(toks, cond.pos + 1, cond.env, ASSIGN);
      var first := Parse(toks, cond.pos + 1, cond.env, ASSIGN);
      if first.Value? && toks[first.pos].Colon? {
        MoreTokens(toks, first.pos);
        var b := Sound(toks, first.pos + 1, first.env, ASSIGN);
        var second := Parse(toks, first.pos + 1, first.env, ASSIGN);
        e := Cond(c, a, b);
        EvalCond(c, a, b, env);
        EvalBothArms(cond.v != 0, e, cond.env);
        if second.Value? {
          assert SpellsCond(toks, pos, second.pos, e);
        }
      }
    } else {
      hide Spells;
      PassesDown(toks, pos, env, TERNARY, cond, c);
    }
  }

  lemma MoreTokens(toks: seq<Tok>, pos: nat)
    requires Ended(toks) && pos < |toks| && toks[pos] != Eof
    ensures pos + 1 < |toks|
  {
  }

  lemma {:induction false} SoundPow(toks: seq<Tok>, pos: nat, env: Env) returns (e: Expr)
    requires Ended(toks) && pos < |toks|
    ensures SoundAt(toks, pos, env, POW, Parse(toks, pos, env, POW), e)
    decreases |toks| - pos, PRIMARY - POW, 1
  {
    hide Ended, Parse, Eval, ApplyBin;
    PowUnrolled(toks, pos, env);
    var l := Sound(toks, pos, env, UNARY);
    var base := Parse(toks, pos, env, UNARY);
    e := l;
    if base.Value? && toks[base.pos] == Op(Bin(Pow)) {
      MoreTokens(toks, base.pos);
      var r := Sound(toks, base.pos + 1, base.env, POW);
      var exp := Parse(toks, base.pos + 1, base.env, POW);
      e := Binary(Pow, l, r);
      EvalBinary(Pow, l, r, env);
      if exp.Value? {
        assert SpellsBinary(toks, pos, exp.pos, e, POW);
      }
    } else {
      hide Spells;
      PassesDown(toks, pos, env, POW, base, l);
    }
  }

  /** The operator a prefix token stands for, when it is not a step. */
  function PrefixOf(spelling: Spelling): UnOp {
    match spelling
    case Bang => Not
    case Tilde => Flip
    case Bin(Sub) => Negate
    case _ => Plus
  }

  lemma {:induction false} SoundUnary(toks: seq<Tok>, pos: nat, env: Env) returns (e: Expr)
    requires Ended(toks) && pos < |toks|
    ensures SoundAt(toks, pos, env, UNARY, Parse(toks, pos, env, UNARY), e)
    decreases |toks| - pos, PRIMARY - UNARY, 1
  {
    hide Ended, Parse, Eval;
    UnaryUnrolled(toks, pos, env);
    if !IsPrefix(toks[pos]) {
      hide Spells;
      e := Sound(toks, pos, env, PRIMARY);
      PassesDown(toks, pos, env, UNARY, Parse(toks, pos, env, PRIMARY), e);
    } else {
      var spelling := toks[pos].spelling;
      if spelling in {Inc, Dec} && toks[pos + 1].Ident? {
        e := PreStep(toks[pos + 1].name, spelling.Inc?);
        EvalSteps(toks[pos + 1].name, spelling.Inc?, env);
        MoreTokens(toks, pos + 1);
        assert SpellsUnary(toks, pos, pos + 2, e);
      } else {
        var x := Sound(toks, pos + 1, env, UNARY);
        var r := Parse(toks, pos + 1, env, UNARY);
        if spelling in {Inc, Dec} {
          e := x;
        } else {
          e := Unary(PrefixOf(spelling), x);
          EvalPrefix(PrefixOf(spelling), x, env);
        }
        if r.Value? {
          assert SpellsUnary(toks, pos, r.pos, e);
        }
      }
    }
  }

  lemma EvalSteps(name: string, up: bool, env: Env)
    ensures Eval(PreStep(name, up), env) == MeanStep(env, name, up, false)
    ensures Eval(PostStep(name, up), env) == MeanStep(env, name, up, true)
  {
    hide MeanStep;
  }

  lemma EvalPrefix(op: UnOp, x: Expr, env: Env)
    ensures Eval(Unary(op, x), env) ==
            var m := Eval(x, env);
            if m.Means? then Concluded(Prefix(PrefixSpelling(op), m.v), m.env, PrintAt(x, UNARY)) else m
  {
    hide Concluded, Prefix, ApplyBin, Print, PrintAt, Bound, MeanStep, Get, PrefixSpelling;
  }

  lemma {:induction false} SoundPrimary(toks: seq<Tok>, pos: nat, env: Env) returns (e: Expr)
    requires Ended(toks) && pos < |toks|
    ensures SoundAt(toks, pos, env, PRIMARY, Parse(toks, pos, env, PRIMARY), e)
    decreases |toks| - pos, 0, 1
  {
    e := Lit(0);
    if toks[pos].LParen? {
      hide Ended, Parse, Eval;
      ParseParenthesis(toks, pos, env);
      MoreTokens(toks, pos);
      e := Sound(toks, pos + 1, env, COMMA);
      var inner := Parse(toks, pos + 1, env, COMMA);
      if inner.Value? && toks[inner.pos].RParen? {
        assert SpellsPrimary(toks, pos, inner.pos + 1, e);
      }
    } else {
      hide Loop, ParseAssignAt, ParseTernaryAt, ParseUnaryAt;
      match toks[pos]
      case Num(n) =>
        e := Lit(n);
        assert SpellsPrimary(toks, pos, pos + 1, e);
      case Ident(name) =>
        if toks[pos + 1] == Op(Inc) || toks[pos + 1] == Op(Dec) {
          e := PostStep(name, toks[pos + 1] == Op(Inc));
          EvalSteps(name, toks[pos + 1] == Op(Inc), env);
          assert SpellsPrimary(toks, pos, pos + 2, e);
        } else {
          e := Var(name);
          assert SpellsPrimary(toks, pos, pos + 1, e);
        }
      case _ =>
    }
  }

  /** A token list that is given a value is, up to its end, a spelling of a tree, and
      the value and the variables are the tree's. */
  lemma OnlyExpressionsParse(toks: seq<Tok>, env: Env) returns (e: Expr)
    requires Ended(toks) && ParseAll(toks, env).Value?
    ensures Spells(toks, 0, |toks| - 1, e, COMMA)
    ensures Eval(e, env) == Means(ParseAll(toks, env).v, ParseAll(toks, env).env)
  {
    e := Sound(toks, 0, env, COMMA);
    hide Parse, Eval, Spells;
    var r := Parse(toks, 0, env, COMMA);
    assert toks[r.pos] == Eof;
    assert r.pos == |toks| - 1;
  }
}
