/** Expressions as trees: how they are written, what they mean, and that parsing
    what is written gives what is meant. */
module ExprTrees {
  import opened Ints64
  import opened ArithSyntax
  import opened ArithGrammar

  datatype UnOp = Not | Flip | Negate | Plus

  datatype Expr =
    | Lit(n: I64)
    | Var(name: string)
    | Unary(prefix: UnOp, e: Expr)
    | Binary(op: BinOp, l: Expr, r: Expr)
    | Cond(c: Expr, a: Expr, b: Expr)
    | Then(l: Expr, r: Expr)
    | SetTo(name: string, e: Expr)
    | SetWith(name: string, op: BinOp, e: Expr)
    | PreStep(name: string, up: bool)
    | PostStep(name: string, up: bool)

  /** Compound assignment exists for ten operators only. */
  predicate Writable(e: Expr) {
    match e
    case Unary(_, x) => Writable(x)
    case Binary(_, l, r) => Writable(l) && Writable(r)
    case Cond(c, a, b) => Writable(c) && Writable(a) && Writable(b)
    case Then(l, r) => Writable(l) && Writable(r)
    case SetTo(_, x) => Writable(x)
    case SetWith(_, op, x) => Compound(op) && Writable(x)
    case _ => true
  }

  function LevelOfExpr(e: Expr): (level: nat)
    ensures level <= PRIMARY
  {
    match e
    case Lit(_) => PRIMARY
    case Var(_) => PRIMARY
    case PostStep(_, _) => PRIMARY
    case PreStep(_, _) => UNARY
    case Unary(_, _) => UNARY
    case Binary(op, _, _) => LevelOf(op)
    case Cond(_, _, _) => TERNARY
    case SetTo(_, _) => ASSIGN
    case SetWith(_, _, _) => ASSIGN
    case Then(_, _) => COMMA
  }

  function PrefixSpelling(op: UnOp): Spelling {
    match op
    case Not => Bang
    case Flip => Tilde
    case Negate => Bin(Sub)
    case Plus => Bin(Add)
  }

  function StepSpelling(up: bool): Spelling { if up then Inc else Dec }

  /** Operands of an infix operator: one that associates to the left takes its own
      level on the left, and `**`, which associates to the right, on the right. */
  function LeftLevel(op: BinOp): nat { if op.Pow? then UNARY else LevelOf(op) }

  function RightLevel(op: BinOp): nat { if op.Pow? then POW else LevelOf(op) + 1 }

  /** Written with only the parentheses precedence and associativity need. */
  function Print(e: Expr): (toks: seq<Tok>)
    ensures toks != []
    decreases e, 0
  {
    match e
    case Lit(n) => [Num(n)]
    case Var(name) => [Ident(name)]
    case Unary(op, x) => [Op(PrefixSpelling(op))] + PrintAt(x, UNARY)
    case Binary(op, l, r) => PrintAt(l, LeftLevel(op)) + [Op(Bin(op))] + PrintAt(r, RightLevel(op))
    case Cond(c, a, b) => PrintAt(c, 3) + [Question] + PrintAt(a, ASSIGN) + [Colon] + PrintAt(b, ASSIGN)
    case Then(l, r) => PrintAt(l, COMMA) + [Comma] + PrintAt(r, ASSIGN)
    case SetTo(name, x) => [Ident(name), Op(Set)] + PrintAt(x, ASSIGN)
    case SetWith(name, op, x) => [Ident(name), Op(SetBy(op))] + PrintAt(x, ASSIGN)
    case PreStep(name, up) => [Op(StepSpelling(up)), Ident(name)]
    case PostStep(name, up) => [Ident(name), Op(StepSpelling(up))]
  }

  function PrintAt(e: Expr, level: nat): (toks: seq<Tok>)
    ensures toks != []
    decreases e, 1
  {
    if LevelOfExpr(e) < level then [LParen] + Print(e) + [RParen] else Print(e)
  }

  function Last(toks: seq<Tok>): Tok
    requires toks != []
  {
    toks[|toks| - 1]
  }

  /** What a tree means: a value and the variables after it; an error, the token
      it is blamed on and the variables by then; or a panic. */
  datatype Meaning = Means(v: I64, env: Env) | Fails(why: Failure, at: Tok, env: Env) | Panics

  /** An operation's outcome, blamed on the last token of its right operand. */
  function Concluded(applied: Applied, env: Env, blamed: seq<Tok>): Meaning
    requires blamed != []
  {
    match applied
    case Gives(v) => Means(v, env)
    case Refuses(why) => Fails(why, Last(blamed), env)
    case Overflows => Panics
  }

  function Bound(m: Meaning, name: string): Meaning {
    match m
    case Means(v, env) => Means(v, env[name := v])
    case _ => m
  }

  function MeanStep(env: Env, name: string, up: bool, giveOld: bool): Meaning {
    match Checked(Get(env, name) + if up then 1 else -1)
    case Gives(v) => Means(if giveOld then Get(env, name) else v, env[name := v])
    case _ => Panics
  }

  /** Evaluation is eager and left to right: `&&`, `||` and `?:` evaluate every
      operand, effects included. */
  function Eval(e: Expr, env: Env): Meaning
    decreases e, 1
  {
    match e
    case Lit(n) => Means(n, env)
    case Var(name) => Means(Get(env, name), env)
    case Unary(op, x) =>
      var m := Eval(x, env);
      if m.Means? then Concluded(Prefix(PrefixSpelling(op), m.v), m.env, PrintAt(x, UNARY)) else m
    case Binary(op, l, r) =>
      var x := Eval(l, env);
      if !x.Means? then x
      else
        var y := Eval(r, x.env);
        if y.Means? then Concluded(ApplyBin(op, x.v, y.v), y.env, PrintAt(r, RightLevel(op))) else y
    case Cond(c, a, b) =>
      var x := Eval(c, env);
      if x.Means? then EvalArms(x.v != 0, e, x.env) else x
    case Then(l, r) =>
      var x := Eval(l, env);
      if x.Means? then Eval(r, x.env) else x
    case SetTo(name, x) => Bound(Eval(x, env), name)
    case SetWith(name, op, x) =>
      var m := Eval(x, env);
      if m.Means? then Bound(Concluded(ApplyBin(op, Get(m.env, name), m.v), m.env, PrintAt(x, ASSIGN)), name) else m
    case PreStep(name, up) => MeanStep(env, name, up, false)
    case PostStep(name, up) => MeanStep(env, name, up, true)
  }

  /** Both arms of a conditional, and the value of one. */
  function EvalArms(first: bool, e: Expr, env: Env): Meaning
    requires e.Cond?
    decreases e, 0
  {
    var y := Eval(e.a, env);
    if !y.Means? then y
    else
      var z := Eval(e.b, y.env);
      if z.Means? then Means(if first then y.v else z.v, z.env) else z
  }

  // Tokens in place

  /** `part` stands in `toks` at `pos`, with something after it. */
  predicate At(toks: seq<Tok>, pos: nat, part: seq<Tok>) {
    pos + |part| < |toks| && toks[pos..pos + |part|] == part
  }

  lemma AtSplit(toks: seq<Tok>, pos: nat, p: seq<Tok>, q: seq<Tok>)
    requires At(toks, pos, p + q)
    ensures q != [] ==> At(toks, pos, p) && toks[pos + |p|] == q[0]
    ensures At(toks, pos + |p|, q)
  {
    assert toks[pos..pos + |p + q|][..|p|] == toks[pos..pos + |p|] == p;
    assert toks[pos..pos + |p + q|][|p|..] == toks[pos + |p|..pos + |p| + |q|] == q;
  }

  lemma AtFirst(toks: seq<Tok>, pos: nat, part: seq<Tok>)
    requires At(toks, pos, part) && part != []
    ensures toks[pos] == part[0] && toks[pos + |part| - 1] == Last(part)
  {
    assert toks[pos..pos + |part|][0] == part[0];
    assert toks[pos..pos + |part|][|part| - 1] == Last(part);
  }

  /** How tightly a token binds to an expression before it: -1 for one that never
      continues an expression. */
  function Rank(tok: Tok): int {
    match tok
    case Comma => COMMA
    case Question => TERNARY
    case Op(Bin(op)) => LevelOf(op)
    case Op(Inc) => PRIMARY
    case Op(Dec) => PRIMARY
    case Op(Set) => PRIMARY
    case Op(SetBy(_)) => PRIMARY
    case _ => -1
  }

  /** `tok` ends an expression of `level`, or is one its own loop goes on with. */
  predicate Follows(tok: Tok, level: nat) {
    Rank(tok) < level || (Rank(tok) == level && Loops(level))
  }

  /** What parsing at `level` makes of a meaning whose tokens end at `pos`. */
  function Read(toks: seq<Tok>, pos: nat, level: nat, m: Meaning): Outcome
    requires Ended(toks) && pos < |toks|
  {
    match m
    case Means(v, env) => if Loops(level) then Loop(toks, pos, env, level, v) else Value(v, pos, env)
    case Fails(why, at, env) => Error(why, at, env)
    case Panics => Panic
  }

  /** `e` is written at `pos`, for `level`, and what comes next lets it end there. */
  predicate Written(toks: seq<Tok>, pos: nat, e: Expr, level: nat) {
    At(toks, pos, PrintAt(e, level)) && Follows(toks[pos + |PrintAt(e, level)|], level)
  }

  /** The theorem, at one place in a token list. */
  predicate Parses(toks: seq<Tok>, pos: nat, env: Env, e: Expr, level: nat)
    requires Ended(toks) && level <= PRIMARY
  {
    Written(toks, pos, e, level) ==>
      Parse(toks, pos, env, level) == Read(toks, pos + |PrintAt(e, level)|, level, Eval(e, env))
  }
}
