/** Parsing what is written gives what is meant. */
module ExprRoundTrip {
  import opened Ints64
  import opened ArithSyntax
  import opened ArithGrammar
  import opened ExprTrees

  lemma LoopStops(toks: seq<Tok>, pos: nat, env: Env, level: nat, v: I64)
    requires Ended(toks) && pos < |toks| && Loops(level) && Rank(toks[pos]) < level
    ensures Loop(toks, pos, env, level, v) == Value(v, pos, env)
  {
  }

  /** A meaning as an outcome, with nothing going on after it. */
  function Plainly(pos: nat, m: Meaning): Outcome {
    match m
    case Means(v, env) => Value(v, pos, env)
    case Fails(why, at, env) => Error(why, at, env)
    case Panics => Panic
  }

  lemma ReadStops(toks: seq<Tok>, pos: nat, level: nat, m: Meaning)
    requires Ended(toks) && pos < |toks| && (!Loops(level) || Rank(toks[pos]) < level)
    ensures Read(toks, pos, level, m) == Plainly(pos, m)
  {
    hide Ended, Loop, Rank;
    if m.Means? && Loops(level) {
      LoopStops(toks, pos, m.env, level, m.v);
    }
  }

  /** The token an error names is the last of the operand just read. */
  lemma BlamedOnLast(toks: seq<Tok>, pos: nat, part: seq<Tok>, env: Env, applied: Applied)
    requires Ended(toks) && At(toks, pos, part) && part != []
    ensures Lift(toks, pos + |part|, env, applied) == Plainly(pos + |part|, Concluded(applied, env, part))
  {
    AtFirst(toks, pos, part);
  }

  predicate IsAssignment(tok: Tok) {
    tok.Op? && (tok.spelling.Set? || tok.spelling.SetBy?)
  }

  lemma {:induction false} NoAssignmentAhead(e: Expr, level: nat)
    requires TERNARY <= level <= PRIMARY
    ensures var part := PrintAt(e, level); part[0].Ident? && |part| > 1 ==> !IsAssignment(part[1])
    decreases e
  {
    if LevelOfExpr(e) >= level {
      match e
      case Binary(op, l, r) =>
        NoAssignmentAhead(l, LeftLevel(op));
      case Cond(c, a, b) =>
        NoAssignmentAhead(c, 3);
      case _ =>
    }
  }

  // One unfolding each of the printer and the meaning

  lemma ParseParenthesis(toks: seq<Tok>, pos: nat, env: Env)
    requires Ended(toks) && pos < |toks| && toks[pos] == LParen
    ensures var inner := Parse(toks, pos + 1, env, COMMA);
            Parse(toks, pos, env, PRIMARY) ==
            if !inner.Value? then inner
            else if toks[inner.pos].RParen? then Value(inner.v, inner.pos + 1, inner.env)
            else ErrorAt(toks, Next(toks, inner.pos), CloseExpected, inner.env)
  {
    hide Loop, ErrorAt;
  }

  lemma EvalBinary(op: BinOp, l: Expr, r: Expr, env: Env)
    ensures Eval(Binary(op, l, r), env) ==
            var x := Eval(l, env);
            if !x.Means? then x
            else
              var y := Eval(r, x.env);
              if y.Means? then Concluded(ApplyBin(op, x.v, y.v), y.env, PrintAt(r, RightLevel(op))) else y
  {
    hide Concluded, Prefix, ApplyBin, Print, PrintAt, Bound, MeanStep, Get, PrefixSpelling;
  }

  lemma EvalUnary(op: UnOp, x: Expr, env: Env)
    ensures Eval(Unary(op, x), env) ==
            var m := Eval(x, env);
            if m.Means? then Concluded(Prefix(PrefixSpelling(op), m.v), m.env, PrintAt(x, UNARY)) else m
  {
    hide Concluded, Prefix, ApplyBin, Print, PrintAt, Bound, MeanStep, Get, PrefixSpelling;
  }

  lemma EvalCond(c: Expr, a: Expr, b: Expr, env: Env)
    ensures Eval(Cond(c, a, b), env) ==
            var x := Eval(c, env);
            if x.Means? then EvalArms(x.v != 0, Cond(c, a, b), x.env) else x
  {
    hide EvalArms, Concluded, Prefix, ApplyBin, Print, PrintAt, Bound, MeanStep, Get, PrefixSpelling;
  }

  lemma EvalBothArms(first: bool, e: Expr, env: Env)
    requires e.Cond?
    ensures EvalArms(first, e, env) ==
            var y := Eval(e.a, env);
            if !y.Means? then y
            else
              var z := Eval(e.b, y.env);
              if z.Means? then Means(if first then y.v else z.v, z.env) else z
  {
    hide Eval;
  }

  lemma EvalThen(l: Expr, r: Expr, env: Env)
    ensures Eval(Then(l, r), env) == if Eval(l, env).Means? then Eval(r, Eval(l, env).env) else Eval(l, env)
  {
    hide Concluded, Prefix, ApplyBin, Print, PrintAt, Bound, MeanStep, Get, PrefixSpelling;
  }

  lemma EvalSet(name: string, x: Expr, op: BinOp, env: Env)
    ensures Eval(SetTo(name, x), env) == Bound(Eval(x, env), name)
    ensures Eval(SetWith(name, op, x), env) ==
            var m := Eval(x, env);
            if m.Means? then Bound(Concluded(ApplyBin(op, Get(m.env, name), m.v), m.env, PrintAt(x, ASSIGN)), name) else m
  {
    hide Concluded, Prefix, ApplyBin, Print, PrintAt, Bound, MeanStep, Get, PrefixSpelling;
  }

  lemma PrintBinary(op: BinOp, l: Expr, r: Expr)
    ensures Print(Binary(op, l, r)) == PrintAt(l, LeftLevel(op)) + ([Op(Bin(op))] + PrintAt(r, RightLevel(op)))
  {
  }

  lemma PrintCond(c: Expr, a: Expr, b: Expr)
    ensures Print(Cond(c, a, b)) == PrintAt(c, 3) + ([Question] + (PrintAt(a, ASSIGN) + ([Colon] + PrintAt(b, ASSIGN))))
  {
  }

  lemma PrintThen(l: Expr, r: Expr)
    ensures Print(Then(l, r)) == PrintAt(l, COMMA) + ([Comma] + PrintAt(r, ASSIGN))
  {
  }

  lemma PrintUnary(op: UnOp, x: Expr)
    ensures Print(Unary(op, x)) == [Op(PrefixSpelling(op))] + PrintAt(x, UNARY)
  {
  }

  function SetExpr(name: string, x: Expr, spelling: Spelling): Expr
    requires spelling.Set? || spelling.SetBy?
  {
    if spelling.Set? then SetTo(name, x) else SetWith(name, spelling.withOp, x)
  }

  lemma PrintSet(name: string, x: Expr, spelling: Spelling)
    requires spelling.Set? || spelling.SetBy?
    ensures Print(SetExpr(name, x, spelling)) == [Ident(name)] + ([Op(spelling)] + PrintAt(x, ASSIGN))
  {
  }

  /** Only at its own level does the level an expression is written for matter. */
  lemma SameAbove(e: Expr, level: nat)
    requires LevelOfExpr(e) != level
    ensures PrintAt(e, level + 1) == PrintAt(e, level)
  {
    hide Print, LevelOfExpr;
  }

  lemma Parenthesized(e: Expr)
    requires LevelOfExpr(e) < PRIMARY
    ensures PrintAt(e, PRIMARY) == [LParen] + (PrintAt(e, COMMA) + [RParen])
  {
    hide Print, LevelOfExpr;
  }

  lemma OwnPrint(e: Expr)
    ensures PrintAt(e, LevelOfExpr(e)) == Print(e)
  {
    hide Print, LevelOfExpr;
  }

  lemma Ranks(tok: Tok)
    ensures Rank(Question) == TERNARY && Rank(Colon) == -1 && Rank(RParen) == -1 && Rank(Eof) == -1 && Rank(Comma) == COMMA
    ensures Rank(tok) != ASSIGN
    ensures Rank(tok) < POW ==> tok != Op(Bin(Pow))
    ensures Rank(tok) < TERNARY ==> tok != Question
  {
  }

  /** An operand with something looser after it is read, and no more. */
  lemma OperandRead(toks: seq<Tok>, pos: nat, env: Env, x: Expr, level: nat)
    requires Ended(toks) && level <= PRIMARY && Parses(toks, pos, env, x, level)
    requires At(toks, pos, PrintAt(x, level)) && Rank(toks[pos + |PrintAt(x, level)|]) < level
    ensures Parse(toks, pos, env, level) == Plainly(pos + |PrintAt(x, level)|, Eval(x, env))
  {
    hide Ended, Parse, Loop, Print, PrintAt, Eval, Rank;
    ReadStops(toks, pos + |PrintAt(x, level)|, level, Eval(x, env));
  }

  // Each form in turn

  // What a level makes of what the one below it has read up to `end`.
  lemma LoopGoesOn(toks: seq<Tok>, pos: nat, env: Env, level: nat, end: nat, m: Meaning)
    requires Ended(toks) && pos < |toks| && end < |toks| && Loops(level)
    requires Parse(toks, pos, env, level + 1) == Plainly(end, m)
    ensures Parse(toks, pos, env, level) == Read(toks, end, level, m)
  {
    hide Ended, Parse, Loop;
    LevelUnrolled(toks, pos, env, level);
  }

  lemma TernaryPasses(toks: seq<Tok>, pos: nat, env: Env, end: nat, m: Meaning)
    requires Ended(toks) && pos < |toks| && end < |toks| && toks[end] != Question
    requires Parse(toks, pos, env, 3) == Plainly(end, m)
    ensures Parse(toks, pos, env, TERNARY) == Plainly(end, m)
  {
    hide Ended, Parse;
    TernaryUnrolled(toks, pos, env);
  }

  lemma PowPasses(toks: seq<Tok>, pos: nat, env: Env, end: nat, m: Meaning)
    requires Ended(toks) && pos < |toks| && end < |toks| && toks[end] != Op(Bin(Pow))
    requires Parse(toks, pos, env, UNARY) == Plainly(end, m)
    ensures Parse(toks, pos, env, POW) == Plainly(end, m)
  {
    hide Ended, Parse, Lift;
    PowUnrolled(toks, pos, env);
  }

  /** Outside its own level, an expression is read by the level below. */
  lemma Descend(toks: seq<Tok>, pos: nat, env: Env, e: Expr, level: nat)
    requires Ended(toks) && level < PRIMARY && LevelOfExpr(e) != level
    requires At(toks, pos, PrintAt(e, level)) && Follows(toks[pos + |PrintAt(e, level)|], level)
    requires Parses(toks, pos, env, e, level + 1)
    ensures Parse(toks, pos, env, level) == Read(toks, pos + |PrintAt(e, level)|, level, Eval(e, env))
  {
    hide Ended, Eval, Print, PrintAt, Parse, Loop, LevelOfExpr, Rank, At, Parses, Read, Plainly, LevelOf, IsPrefix;
    var part, m := PrintAt(e, level), Eval(e, env);
    var end := pos + |part|;
    AtEnds(toks, pos, part);
    AtFirst(toks, pos, part);
    Ranks(toks[end]);
    OneLevelDown(toks, pos, env, e, level);
    if Loops(level) {
      LoopGoesOn(toks, pos, env, level, end, m);
    } else {
      ReadStops(toks, end, level, m);
      if level == ASSIGN {
        DescendAssign(toks, pos, env, e);
      } else if level == TERNARY {
        TernaryPasses(toks, pos, env, end, m);
      } else if level == POW {
        PowPasses(toks, pos, env, end, m);
      } else {
        UnaryUnrolled(toks, pos, env);
        HeadNotPrefix(e);
      }
    }
  }

  lemma OneLevelDown(toks: seq<Tok>, pos: nat, env: Env, e: Expr, level: nat)
    requires Ended(toks) && level < PRIMARY && LevelOfExpr(e) != level
    requires Written(toks, pos, e, level) && Parses(toks, pos, env, e, level + 1)
    ensures Parse(toks, pos, env, level + 1) == Plainly(pos + |PrintAt(e, level)|, Eval(e, env))
  {
    hide Ended, Eval, Print, PrintAt, Parse, Loop, LevelOfExpr, Rank;
    SameAbove(e, level);
    OperandRead(toks, pos, env, e, level + 1);
  }

  lemma HeadNotPrefix(e: Expr)
    requires LevelOfExpr(e) != UNARY
    ensures !IsPrefix(PrintAt(e, UNARY)[0])
  {
  }

  lemma DescendAssign(toks: seq<Tok>, pos: nat, env: Env, e: Expr)
    requires Ended(toks) && LevelOfExpr(e) != ASSIGN
    requires At(toks, pos, PrintAt(e, ASSIGN)) && Follows(toks[pos + |PrintAt(e, ASSIGN)|], ASSIGN)
    ensures Parse(toks, pos, env, ASSIGN) == Parse(toks, pos, env, TERNARY)
  {
    hide Ended, Parse, Print, PrintAt, LevelOfExpr;
    var part := PrintAt(e, ASSIGN);
    SameAbove(e, ASSIGN);
    NoAssignmentAhead(e, TERNARY);
    AtFirst(toks, pos, part);
    AssignUnrolled(toks, pos, env);
    if |part| > 1 {
      assert toks[pos + 1] == toks[pos..pos + |part|][1];
    }
  }

  /** Anything looser than a primary is read inside its parentheses. */
  lemma InParentheses(toks: seq<Tok>, pos: nat, env: Env, e: Expr)
    requires Ended(toks) && LevelOfExpr(e) < PRIMARY
    requires At(toks, pos, PrintAt(e, PRIMARY))
    requires Parses(toks, pos + 1, env, e, COMMA)
    ensures Parse(toks, pos, env, PRIMARY) == Plainly(pos + |PrintAt(e, PRIMARY)|, Eval(e, env))
  {
    hide Ended, Eval, Print, Parse, Loop, PrintAt, LevelOfExpr, Rank, ErrorAt;
    var inner := PrintAt(e, COMMA);
    Parenthesized(e);
    Ranks(RParen);
    AtFirst(toks, pos, [LParen] + (inner + [RParen]));
    AtSplit(toks, pos, [LParen], inner + [RParen]);
    AtSplit(toks, pos + 1, inner, [RParen]);
    ReadStops(toks, pos + 1 + |inner|, COMMA, Eval(e, env));
    ParseParenthesis(toks, pos, env);
  }

  lemma LeftAssociative(toks: seq<Tok>, pos: nat, env: Env, op: BinOp, l: Expr, r: Expr)
    requires Ended(toks) && !op.Pow?
    requires var e := Binary(op, l, r);
             At(toks, pos, Print(e)) && Follows(toks[pos + |Print(e)|], LevelOf(op))
    requires Parses(toks, pos, env, l, LevelOf(op))
    requires Eval(l, env).Means? ==>
               Parses(toks, pos + |PrintAt(l, LevelOf(op))| + 1, Eval(l, env).env, r, LevelOf(op) + 1)
    ensures Parse(toks, pos, env, LevelOf(op)) ==
            Read(toks, pos + |Print(Binary(op, l, r))|, LevelOf(op), Eval(Binary(op, l, r), env))
  {
    hide Ended, Parse, Loop, Print, PrintAt, Eval, ApplyBin, At, LevelOf, Parses;
    var level := LevelOf(op);
    var right := PrintAt(r, level + 1);
    var mid := pos + |PrintAt(l, level)|;
    BinaryInPlace(toks, pos, op, l, r);
    EvalBinary(op, l, r, env);
    assert Written(toks, pos, l, level);
    ParsesWritten(toks, pos, env, l, level);
    if Eval(l, env).Means? {
      var x, env' := Eval(l, env).v, Eval(l, env).env;
      LoopUnrolled(toks, mid, env', level, x);
      OperandRead(toks, mid + 1, env', r, level + 1);
      if Eval(r, env').Means? {
        BlamedOnLast(toks, mid + 1, right, Eval(r, env').env, ApplyBin(op, x, Eval(r, env').v));
      }
    }
  }

  lemma ParsesWritten(toks: seq<Tok>, pos: nat, env: Env, e: Expr, level: nat)
    requires Ended(toks) && level <= PRIMARY && Parses(toks, pos, env, e, level) && Written(toks, pos, e, level)
    ensures Parse(toks, pos, env, level) == Read(toks, pos + |PrintAt(e, level)|, level, Eval(e, env))
  {
    hide Ended, Parse, Eval, PrintAt, Print;
  }

  lemma BinaryInPlace(toks: seq<Tok>, pos: nat, op: BinOp, l: Expr, r: Expr)
    requires At(toks, pos, Print(Binary(op, l, r)))
    ensures var left, right := PrintAt(l, LeftLevel(op)), PrintAt(r, RightLevel(op));
            var mid := pos + |left|;
            && |Print(Binary(op, l, r))| == |left| + 1 + |right|
            && mid + 1 + |right| < |toks|
            && At(toks, pos, left) && toks[mid] == Op(Bin(op))
            && At(toks, mid + 1, right)
  {
    hide Print, PrintAt, At, LeftLevel, RightLevel;
    var left, right := PrintAt(l, LeftLevel(op)), PrintAt(r, RightLevel(op));
    PrintBinary(op, l, r);
    AtSplit(toks, pos, left, [Op(Bin(op))] + right);
    AtSplit(toks, pos + |left|, [Op(Bin(op))], right);
    AtEnds(toks, pos + |left| + 1, right);
  }

  lemma RightAssociative(toks: seq<Tok>, pos: nat, env: Env, l: Expr, r: Expr)
    requires Ended(toks)
    requires var e := Binary(Pow, l, r);
             At(toks, pos, Print(e)) && Follows(toks[pos + |Print(e)|], POW)
    requires Parses(toks, pos, env, l, UNARY)
    requires Eval(l, env).Means? ==> Parses(toks, pos + |PrintAt(l, UNARY)| + 1, Eval(l, env).env, r, POW)
    ensures Parse(toks, pos, env, POW) == Plainly(pos + |Print(Binary(Pow, l, r))|, Eval(Binary(Pow, l, r), env))
  {
    hide Ended, Parse, Loop, Print, PrintAt, Eval, ApplyBin, At, Parses;
    var right := PrintAt(r, POW);
    var mid := pos + |PrintAt(l, UNARY)|;
    BinaryInPlace(toks, pos, Pow, l, r);
    EvalBinary(Pow, l, r, env);
    OperandRead(toks, pos, env, l, UNARY);
    PowUnrolled(toks, pos, env);
    if Eval(l, env).Means? {
      var x, env' := Eval(l, env).v, Eval(l, env).env;
      OperandRead(toks, mid + 1, env', r, POW);
      if Eval(r, env').Means? {
        BlamedOnLast(toks, mid + 1, right, Eval(r, env').env, ApplyBin(Pow, x, Eval(r, env').v));
      }
    }
  }

  lemma PrefixOperator(toks: seq<Tok>, pos: nat, env: Env, op: UnOp, x: Expr)
    requires Ended(toks)
    requires At(toks, pos, Print(Unary(op, x))) && Follows(toks[pos + |Print(Unary(op, x))|], UNARY)
    requires Parses(toks, pos + 1, env, x, UNARY)
    ensures Parse(toks, pos, env, UNARY) == Plainly(pos + |Print(Unary(op, x))|, Eval(Unary(op, x), env))
  {
    hide Ended, Parse, Loop, Print, PrintAt, Eval, Prefix;
    var tok, operand := Op(PrefixSpelling(op)), PrintAt(x, UNARY);
    PrintUnary(op, x);
    EvalUnary(op, x, env);
    AtFirst(toks, pos, [tok] + operand);
    AtSplit(toks, pos, [tok], operand);
    OperandRead(toks, pos + 1, env, x, UNARY);
    UnaryUnrolled(toks, pos, env);
    if Eval(x, env).Means? {
      BlamedOnLast(toks, pos + 1, operand, Eval(x, env).env, Prefix(PrefixSpelling(op), Eval(x, env).v));
    }
  }

  lemma Conditional(toks: seq<Tok>, pos: nat, env: Env, c: Expr, a: Expr, b: Expr)
    requires Ended(toks)
    requires At(toks, pos, Print(Cond(c, a, b))) && Follows(toks[pos + |Print(Cond(c, a, b))|], TERNARY)
    requires Parses(toks, pos, env, c, 3)
    requires Eval(c, env).Means? ==> Parses(toks, pos + |PrintAt(c, 3)| + 1, Eval(c, env).env, a, ASSIGN)
    requires Eval(c, env).Means? && Eval(a, Eval(c, env).env).Means? ==>
               Parses(toks, pos + |PrintAt(c, 3)| + 1 + |PrintAt(a, ASSIGN)| + 1, Eval(a, Eval(c, env).env).env, b, ASSIGN)
    ensures Parse(toks, pos, env, TERNARY) == Plainly(pos + |Print(Cond(c, a, b))|, Eval(Cond(c, a, b), env))
  {
    hide Ended, Parse, Loop, Print, PrintAt, Eval, EvalArms, Rank, ErrorAt, At, Parses;
    var pc, pa, pb := PrintAt(c, 3), PrintAt(a, ASSIGN), PrintAt(b, ASSIGN);
    var atA := pos + |pc| + 1;
    var atB := atA + |pa| + 1;
    CondInPlace(toks, pos, c, a, b);
    Ranks(toks[atB + |pb|]);
    EvalCond(c, a, b, env);
    OperandRead(toks, pos, env, c, 3);
    TernaryUnrolled(toks, pos, env);
    if Eval(c, env).Means? {
      var env1 := Eval(c, env).env;
      EvalBothArms(Eval(c, env).v != 0, Cond(c, a, b), env1);
      OperandRead(toks, atA, env1, a, ASSIGN);
      if Eval(a, env1).Means? {
        OperandRead(toks, atB, Eval(a, env1).env, b, ASSIGN);
      }
    }
  }

  lemma CondInPlace(toks: seq<Tok>, pos: nat, c: Expr, a: Expr, b: Expr)
    requires At(toks, pos, Print(Cond(c, a, b)))
    ensures var pc, pa, pb := PrintAt(c, 3), PrintAt(a, ASSIGN), PrintAt(b, ASSIGN);
            var atA := pos + |pc| + 1;
            var atB := atA + |pa| + 1;
            && |Print(Cond(c, a, b))| == |pc| + 1 + |pa| + 1 + |pb|
            && atB + |pb| < |toks|
            && At(toks, pos, pc) && toks[pos + |pc|] == Question
            && At(toks, atA, pa) && toks[atA + |pa|] == Colon
            && At(toks, atB, pb)
  {
    hide Print, PrintAt, At;
    var pc, pa, pb := PrintAt(c, 3), PrintAt(a, ASSIGN), PrintAt(b, ASSIGN);
    PrintCond(c, a, b);
    AtSplit(toks, pos, pc, [Question] + (pa + ([Colon] + pb)));
    AtSplit(toks, pos + |pc|, [Question], pa + ([Colon] + pb));
    ArmsInPlace(toks, pos + |pc| + 1, pa, pb);
  }

  lemma ArmsInPlace(toks: seq<Tok>, pos: nat, a: seq<Tok>, b: seq<Tok>)
    requires At(toks, pos, a + ([Colon] + b))
    ensures pos + |a| + 1 + |b| < |toks|
    ensures At(toks, pos, a) && toks[pos + |a|] == Colon && At(toks, pos + |a| + 1, b)
  {
    hide At;
    AtSplit(toks, pos, a, [Colon] + b);
    AtSplit(toks, pos + |a|, [Colon], b);
    AtEnds(toks, pos + |a| + 1, b);
  }

  lemma AtEnds(toks: seq<Tok>, pos: nat, part: seq<Tok>)
    requires At(toks, pos, part)
    ensures pos + |part| < |toks|
  {
  }

  lemma Sequence(toks: seq<Tok>, pos: nat, env: Env, l: Expr, r: Expr)
    requires Ended(toks)
    requires At(toks, pos, Print(Then(l, r))) && Follows(toks[pos + |Print(Then(l, r))|], COMMA)
    requires Parses(toks, pos, env, l, COMMA)
    requires Eval(l, env).Means? ==> Parses(toks, pos + |PrintAt(l, COMMA)| + 1, Eval(l, env).env, r, ASSIGN)
    ensures Parse(toks, pos, env, COMMA) ==
            Read(toks, pos + |Print(Then(l, r))|, COMMA, Eval(Then(l, r), env))
  {
    hide Ended, Parse, Loop, Print, PrintAt, Eval;
    var left, right := PrintAt(l, COMMA), PrintAt(r, ASSIGN);
    PrintThen(l, r);
    EvalThen(l, r, env);
    AtSplit(toks, pos, left, [Comma] + right);
    var mid := pos + |left|;
    AtSplit(toks, mid, [Comma], right);
    if Eval(l, env).Means? {
      var env' := Eval(l, env).env;
      LoopUnrolled(toks, mid, env', COMMA, Eval(l, env).v);
      Ranks(toks[mid + 1 + |right|]);
      OperandRead(toks, mid + 1, env', r, ASSIGN);
    }
  }

  lemma Assignment(toks: seq<Tok>, pos: nat, env: Env, name: string, x: Expr, spelling: Spelling)
    requires Ended(toks) && (spelling.Set? || (spelling.SetBy? && Compound(spelling.withOp)))
    requires var e := SetExpr(name, x, spelling);
             At(toks, pos, Print(e)) && Follows(toks[pos + |Print(e)|], ASSIGN)
    requires Parses(toks, pos + 2, env, x, ASSIGN)
    ensures var e := SetExpr(name, x, spelling);
            Parse(toks, pos, env, ASSIGN) == Plainly(pos + |Print(e)|, Eval(e, env))
  {
    hide Ended, Parse, Loop, Print, PrintAt, Eval, ApplyBin, Compound, At, Parses;
    var operand := PrintAt(x, ASSIGN);
    SetInPlace(toks, pos, name, x, spelling);
    EvalSet(name, x, if spelling.SetBy? then spelling.withOp else Add, env);
    OperandRead(toks, pos + 2, env, x, ASSIGN);
    AssignUnrolled(toks, pos, env);
    if Eval(x, env).Means? && spelling.SetBy? {
      var env' := Eval(x, env).env;
      BlamedOnLast(toks, pos + 2, operand, env', ApplyBin(spelling.withOp, Get(env', name), Eval(x, env).v));
    }
  }

  lemma SetInPlace(toks: seq<Tok>, pos: nat, name: string, x: Expr, spelling: Spelling)
    requires spelling.Set? || spelling.SetBy?
    requires At(toks, pos, Print(SetExpr(name, x, spelling)))
    ensures var operand := PrintAt(x, ASSIGN);
            && |Print(SetExpr(name, x, spelling))| == 2 + |operand|
            && pos + 2 + |operand| < |toks|
            && toks[pos] == Ident(name) && toks[pos + 1] == Op(spelling)
            && At(toks, pos + 2, operand)
  {
    hide Print, PrintAt, At;
    var operand := PrintAt(x, ASSIGN);
    PrintSet(name, x, spelling);
    AtFirst(toks, pos, [Ident(name)] + ([Op(spelling)] + operand));
    AtSplit(toks, pos, [Ident(name)], [Op(spelling)] + operand);
    AtSplit(toks, pos + 1, [Op(spelling)], operand);
    AtFirst(toks, pos + 1, [Op(spelling)] + operand);
    AtEnds(toks, pos + 2, operand);
  }

  lemma Atom(toks: seq<Tok>, pos: nat, env: Env, e: Expr)
    requires Ended(toks) && (e.Lit? || e.Var? || e.PostStep? || e.PreStep?)
    requires At(toks, pos, Print(e)) && Follows(toks[pos + |Print(e)|], LevelOfExpr(e))
    ensures Parse(toks, pos, env, LevelOfExpr(e)) == Plainly(pos + |Print(e)|, Eval(e, env))
  {
    hide Loop, ParseAssignAt, ParseTernaryAt;
    AtFirst(toks, pos, Print(e));
    if |Print(e)| == 2 {
      assert toks[pos + 1] == toks[pos..pos + 2][1];
    }
  }

  /** What is written at a level parses, there, to what is meant. */
  lemma {:induction false} WrittenParses(toks: seq<Tok>, pos: nat, env: Env, e: Expr, level: nat)
    requires Ended(toks) && level <= PRIMARY && Writable(e)
    ensures Parses(toks, pos, env, e, level)
    decreases |PrintAt(e, level)|, PRIMARY - level + 1
  {
    hide Ended, Parse, Loop, Eval, Print, PrintAt, Rank, LevelOfExpr, At, Writable, Read, Follows, Plainly;
    if Written(toks, pos, e, level) {
      if LevelOfExpr(e) != level {
        if level == PRIMARY {
          Parenthesized(e);
          WrittenParses(toks, pos + 1, env, e, COMMA);
          InParentheses(toks, pos, env, e);
          AtEnds(toks, pos, PrintAt(e, PRIMARY));
          ReadStops(toks, pos + |PrintAt(e, PRIMARY)|, PRIMARY, Eval(e, env));
        } else {
          SameAbove(e, level);
          WrittenParses(toks, pos, env, e, level + 1);
          Descend(toks, pos, env, e, level);
        }
      } else {
        OwnPrint(e);
        OwnLevel(toks, pos, env, e);
      }
    }
  }

  lemma {:induction false} OwnLevel(toks: seq<Tok>, pos: nat, env: Env, e: Expr)
    requires Ended(toks) && Writable(e)
    requires At(toks, pos, Print(e)) && Follows(toks[pos + |Print(e)|], LevelOfExpr(e))
    ensures Parse(toks, pos, env, LevelOfExpr(e)) == Read(toks, pos + |Print(e)|, LevelOfExpr(e), Eval(e, env))
    decreases |Print(e)|, 0
  {
    hide Ended, Parse, Loop, Eval, Print, PrintAt, At, Rank;
    match e
    case Binary(op, l, r) =>
      PrintBinary(op, l, r);
      WrittenParses(toks, pos, env, l, LeftLevel(op));
      if Eval(l, env).Means? {
        WrittenParses(toks, pos + |PrintAt(l, LeftLevel(op))| + 1, Eval(l, env).env, r, RightLevel(op));
      }
      if op.Pow? {
        RightAssociative(toks, pos, env, l, r);
      } else {
        LeftAssociative(toks, pos, env, op, l, r);
      }
    case Unary(op, x) =>
      PrintUnary(op, x);
      WrittenParses(toks, pos + 1, env, x, UNARY);
      PrefixOperator(toks, pos, env, op, x);
    case Cond(c, a, b) =>
      PrintCond(c, a, b);
      WrittenParses(toks, pos, env, c, 3);
      if Eval(c, env).Means? {
        var env1, atA := Eval(c, env).env, pos + |PrintAt(c, 3)| + 1;
        WrittenParses(toks, atA, env1, a, ASSIGN);
        if Eval(a, env1).Means? {
          WrittenParses(toks, atA + |PrintAt(a, ASSIGN)| + 1, Eval(a, env1).env, b, ASSIGN);
        }
      }
      Conditional(toks, pos, env, c, a, b);
    case Then(l, r) =>
      PrintThen(l, r);
      WrittenParses(toks, pos, env, l, COMMA);
      if Eval(l, env).Means? {
        WrittenParses(toks, pos + |PrintAt(l, COMMA)| + 1, Eval(l, env).env, r, ASSIGN);
      }
      Sequence(toks, pos, env, l, r);
    case SetTo(name, x) =>
      PrintSet(name, x, Set);
      WrittenParses(toks, pos + 2, env, x, ASSIGN);
      Assignment(toks, pos, env, name, x, Set);
    case SetWith(name, op, x) =>
      PrintSet(name, x, SetBy(op));
      WrittenParses(toks, pos + 2, env, x, ASSIGN);
      Assignment(toks, pos, env, name, x, SetBy(op));
    case _ =>
      Atom(toks, pos, env, e);
  }

  /** A tree written out and parsed consumes every token and means what the tree
      means, variables and errors included. */
  lemma RoundTrip(e: Expr, env: Env)
    requires Writable(e)
    ensures Ended(Print(e) + [Eof])
    ensures ParseAll(Print(e) + [Eof], env) == Plainly(|Print(e)|, Eval(e, env))
  {
    var toks := Print(e) + [Eof];
    NoEofInside(e);
    assert At(toks, 0, PrintAt(e, COMMA));
    WrittenParses(toks, 0, env, e, COMMA);
    ReadStops(toks, |Print(e)|, COMMA, Eval(e, env));
  }

  lemma {:induction false} NoEofInside(e: Expr)
    ensures Eof !in Print(e)
    decreases e
  {
    match e
    case Unary(_, x) => NoEofInside(x);
    case Binary(_, l, r) => NoEofInside(l); NoEofInside(r);
    case Cond(c, a, b) => NoEofInside(c); NoEofInside(a); NoEofInside(b);
    case Then(l, r) => NoEofInside(l); NoEofInside(r);
    case SetTo(_, x) => NoEofInside(x);
    case SetWith(_, _, x) => NoEofInside(x);
    case _ =>
  }
}
