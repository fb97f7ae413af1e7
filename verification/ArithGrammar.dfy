/** The parser's meaning: one table-driven function for the whole cascade. */
module ArithGrammar {
  import opened Bits64
  import opened Ints64
  import opened ArithSyntax

  /** A value with the position and variables after it; an error with the token it
      names and the variables by then; or a panic. */
  datatype Outcome =
    | Value(v: I64, pos: nat, env: Env)
    | Error(why: Failure, at: Tok, env: Env)
    | Panic

  /** Tokens as the tokenizer ends them. */
  predicate Ended(toks: seq<Tok>) {
    && toks != [] && toks[|toks| - 1] == Eof
    && forall i | 0 <= i < |toks| - 1 :: toks[i] != Eof
  }

  function Next(toks: seq<Tok>, pos: nat): nat {
    if pos + 1 < |toks| then pos + 1 else pos
  }

  /** The token consumed before `pos`, which is the one an error names. */
  function LastConsumed(toks: seq<Tok>, pos: nat): Tok
    requires toks != [] && pos < |toks|
  {
    toks[if pos == 0 then 0 else pos - 1]
  }

  function ErrorAt(toks: seq<Tok>, pos: nat, why: Failure, env: Env): Outcome
    requires toks != [] && pos < |toks|
  {
    Error(why, LastConsumed(toks, pos), env)
  }

  /** What an application makes of the parse so far. */
  function Lift(toks: seq<Tok>, pos: nat, env: Env, applied: Applied): Outcome
    requires toks != [] && pos < |toks|
  {
    match applied
    case Gives(v) => Value(v, pos, env)
    case Refuses(why) => ErrorAt(toks, pos, why, env)
    case Overflows => Panic
  }

  /** The levels whose operators associate to the left, by looping. */
  predicate Loops(level: nat) {
    level == COMMA || 3 <= level <= MUL
  }

  /** The infix operator, if `tok` is one of this level. */
  predicate Continues(tok: Tok, level: nat) {
    if level == COMMA then tok == Comma else tok.Op? && tok.spelling.Bin? && LevelOf(tok.spelling.op) == level
  }

  function Combine(tok: Tok, l: I64, r: I64): Applied {
    if tok.Op? && tok.spelling.Bin? then ApplyBin(tok.spelling.op, l, r) else Gives(r)
  }

  /** Goes on with an outcome when it has a value. */
  function AssignedBy(toks: seq<Tok>, name: string, withOp: BinOp, rhs: Outcome): Outcome
    requires rhs.Value? ==> toks != [] && rhs.pos < |toks|
  {
    if !rhs.Value? then rhs
    else
      match Lift(toks, rhs.pos, rhs.env, ApplyBin(withOp, Get(rhs.env, name), rhs.v))
      case Value(v, p, e) => Value(v, p, e[name := v])
      case failed => failed
  }

  function Parse(toks: seq<Tok>, pos: nat, env: Env, level: nat): (r: Outcome)
    requires Ended(toks) && pos < |toks| && level <= PRIMARY
    ensures r.Value? ==> pos < r.pos < |toks|
    decreases |toks| - pos, PRIMARY - level
  {
    if Loops(level) then
      var first := Parse(toks, pos, env, level + 1);
      if first.Value? then Loop(toks, first.pos, first.env, level, first.v) else first
    else if level == ASSIGN then ParseAssignAt(toks, pos, env)
    else if level == TERNARY then ParseTernaryAt(toks, pos, env)
    else if level == POW then
      var base := Parse(toks, pos, env, UNARY);
      if base.Value? && toks[base.pos] == Op(Bin(Pow)) then
        var exp := Parse(toks, base.pos + 1, base.env, POW);
        if exp.Value? then Lift(toks, exp.pos, exp.env, ApplyBin(Pow, base.v, exp.v)) else exp
      else base
    else if level == UNARY then ParseUnaryAt(toks, pos, env)
    else ParsePrimaryAt(toks, pos, env)
  }

  function Loop(toks: seq<Tok>, pos: nat, env: Env, level: nat, v: I64): (r: Outcome)
    requires Ended(toks) && pos < |toks| && Loops(level)
    ensures r.Value? ==> pos <= r.pos < |toks|
    decreases |toks| - pos, PRIMARY - level
  {
    if !Continues(toks[pos], level) then Value(v, pos, env)
    else
      var r := Parse(toks, pos + 1, env, level + 1);
      if !r.Value? then r
      else
        match Combine(toks[pos], v, r.v)
        case Gives(v') => Loop(toks, r.pos, r.env, level, v')
        case Refuses(why) => ErrorAt(toks, r.pos, why, r.env)
        case Overflows => Panic
  }

  /** An assignment needs a name and an assignment operator right after it. */
  predicate StartsAssignment(toks: seq<Tok>, pos: nat) {
    && pos + 1 < |toks| && toks[pos].Ident? && toks[pos + 1].Op?
    && (toks[pos + 1].spelling.Set? || (toks[pos + 1].spelling.SetBy? && Compound(toks[pos + 1].spelling.withOp)))
  }

  function ParseAssignAt(toks: seq<Tok>, pos: nat, env: Env): (r: Outcome)
    requires Ended(toks) && pos < |toks|
    ensures r.Value? ==> pos < r.pos < |toks|
    decreases |toks| - pos, PRIMARY - ASSIGN, 0
  {
    if !StartsAssignment(toks, pos) then Parse(toks, pos, env, TERNARY)
    else
      var name := toks[pos].name;
      var rhs := Parse(toks, pos + 2, env, ASSIGN);
      if toks[pos + 1].spelling.SetBy? then AssignedBy(toks, name, toks[pos + 1].spelling.withOp, rhs)
      else if rhs.Value? then Value(rhs.v, rhs.pos, rhs.env[name := rhs.v])
      else rhs
  }

  function ParseTernaryAt(toks: seq<Tok>, pos: nat, env: Env): (r: Outcome)
    requires Ended(toks) && pos < |toks|
    ensures r.Value? ==> pos < r.pos < |toks|
    decreases |toks| - pos, PRIMARY - TERNARY, 0
  {
    var cond := Parse(toks, pos, env, 3);
    if !cond.Value? || !toks[cond.pos].Question? then cond
    else
      var a := Parse(toks, cond.pos + 1, cond.env, ASSIGN);
      if !a.Value? then a
      else if !toks[a.pos].Colon? then ErrorAt(toks, Next(toks, a.pos), ColonExpected, a.env)
      else
        var b := Parse(toks, a.pos + 1, a.env, ASSIGN);
        if b.Value? then b.(v := if cond.v != 0 then a.v else b.v) else b
  }

  /** What a prefix operator other than a step does. */
  function Prefix(spelling: Spelling, v: I64): Applied {
    var x: int := v;
    match spelling
    case Bang => Gives(FromBool(v == 0))
    case Tilde => Gives(Not64(v))
    case Bin(Sub) => Checked(-x)
    case _ => Gives(v)
  }

  predicate IsPrefix(tok: Tok) {
    tok.Op? && tok.spelling in {Bang, Tilde, Bin(Sub), Bin(Add), Inc, Dec}
  }

  /** A variable moved by one, giving `old` or the new value. */
  function Stepped(pos: nat, env: Env, name: string, delta: int, giveOld: bool): Outcome {
    var old_ := Get(env, name);
    match Checked(old_ + delta)
    case Gives(v) => Value(if giveOld then old_ else v, pos, env[name := v])
    case _ => Panic
  }

  function ParseUnaryAt(toks: seq<Tok>, pos: nat, env: Env): (r: Outcome)
    requires Ended(toks) && pos < |toks|
    ensures r.Value? ==> pos < r.pos < |toks|
    decreases |toks| - pos, PRIMARY - UNARY, 0
  {
    var tok := toks[pos];
    if !IsPrefix(tok) then Parse(toks, pos, env, PRIMARY)
    else if tok.spelling in {Inc, Dec} && toks[pos + 1].Ident? then
      Stepped(pos + 2, env, toks[pos + 1].name, if tok.spelling.Inc? then 1 else -1, false)
    else
      var operand := Parse(toks, pos + 1, env, UNARY);
      if operand.Value? then Lift(toks, operand.pos, operand.env, Prefix(tok.spelling, operand.v)) else operand
  }

  function ParsePrimaryAt(toks: seq<Tok>, pos: nat, env: Env): (r: Outcome)
    requires Ended(toks) && pos < |toks|
    ensures r.Value? ==> pos < r.pos < |toks|
    decreases |toks| - pos, PRIMARY - PRIMARY, 0
  {
    match toks[pos]
    case Num(n) => Value(n, pos + 1, env)
    case Ident(name) =>
      if toks[pos + 1] == Op(Inc) then Stepped(pos + 2, env, name, 1, true)
      else if toks[pos + 1] == Op(Dec) then Stepped(pos + 2, env, name, -1, true)
      else Value(Get(env, name), pos + 1, env)
    case LParen =>
      var inner := Parse(toks, pos + 1, env, COMMA);
      if !inner.Value? then inner
      else if toks[inner.pos].RParen? then Value(inner.v, inner.pos + 1, inner.env)
      else ErrorAt(toks, Next(toks, inner.pos), CloseExpected, inner.env)
    case _ => ErrorAt(toks, Next(toks, pos), OperandExpected, env)
  }

  /** A whole expression: parsed, and nothing left over. */
  function ParseAll(toks: seq<Tok>, env: Env): Outcome
    requires Ended(toks)
  {
    var r := Parse(toks, 0, env, COMMA);
    if r.Value? && !toks[r.pos].Eof? then Error(Trailing, toks[r.pos], r.env) else r
  }

  // One unfolding of each level

  lemma LoopUnrolled(toks: seq<Tok>, pos: nat, env: Env, level: nat, v: I64)
    requires Ended(toks) && pos < |toks| && Loops(level)
    ensures !Continues(toks[pos], level) ==> Loop(toks, pos, env, level, v) == Outcome.Value(v, pos, env)
    ensures Continues(toks[pos], level) ==>
              var r := Parse(toks, pos + 1, env, level + 1);
              Loop(toks, pos, env, level, v) ==
              if !r.Value? then r
              else
                var next := Lift(toks, r.pos, r.env, Combine(toks[pos], v, r.v));
                if next.Value? then Loop(toks, r.pos, r.env, level, next.v) else next
    ensures toks[pos] != Eof ==> pos + 1 < |toks|
  {
    hide Parse, Combine;
  }

  lemma LevelUnrolled(toks: seq<Tok>, pos: nat, env: Env, level: nat)
    requires Ended(toks) && pos < |toks| && Loops(level)
    ensures var first := Parse(toks, pos, env, level + 1);
            Parse(toks, pos, env, level) == if first.Value? then Loop(toks, first.pos, first.env, level, first.v) else first
  {
    hide Loop;
  }

  lemma TernaryUnrolled(toks: seq<Tok>, pos: nat, env: Env)
    requires Ended(toks) && pos < |toks|
    ensures Parse(toks, pos, env, TERNARY) ==
            var cond := Parse(toks, pos, env, 3);
            if !cond.Value? || !toks[cond.pos].Question? then cond
            else
              var a := Parse(toks, cond.pos + 1, cond.env, ASSIGN);
              if !a.Value? then a
              else if !toks[a.pos].Colon? then ErrorAt(toks, Next(toks, a.pos), ColonExpected, a.env)
              else
                var b := Parse(toks, a.pos + 1, a.env, ASSIGN);
                if b.Value? then b.(v := if cond.v != 0 then a.v else b.v) else b
  {
    hide Loop, ErrorAt;
  }

  lemma PowUnrolled(toks: seq<Tok>, pos: nat, env: Env)
    requires Ended(toks) && pos < |toks|
    ensures Parse(toks, pos, env, POW) ==
            var base := Parse(toks, pos, env, UNARY);
            if base.Value? && toks[base.pos] == Op(Bin(Pow)) then
              var exp := Parse(toks, base.pos + 1, base.env, POW);
              if exp.Value? then Lift(toks, exp.pos, exp.env, ApplyBin(Pow, base.v, exp.v)) else exp
            else base
  {
    hide Loop, ApplyBin, Lift;
  }

  lemma UnaryUnrolled(toks: seq<Tok>, pos: nat, env: Env)
    requires Ended(toks) && pos < |toks|
    ensures !IsPrefix(toks[pos]) ==> Parse(toks, pos, env, UNARY) == Parse(toks, pos, env, PRIMARY)
    ensures IsPrefix(toks[pos]) ==>
              && pos + 1 < |toks|
              && Parse(toks, pos, env, UNARY) ==
                 if toks[pos].spelling in {Inc, Dec} && toks[pos + 1].Ident? then
                   Stepped(pos + 2, env, toks[pos + 1].name, if toks[pos].spelling.Inc? then 1 else -1, false)
                 else
                   var operand := Parse(toks, pos + 1, env, UNARY);
                   if operand.Value? then Lift(toks, operand.pos, operand.env, Prefix(toks[pos].spelling, operand.v)) else operand
  {
    hide ParsePrimaryAt, Loop, Prefix, Stepped, Lift;
  }

  lemma AssignUnrolled(toks: seq<Tok>, pos: nat, env: Env)
    requires Ended(toks) && pos < |toks|
    ensures !StartsAssignment(toks, pos) ==> Parse(toks, pos, env, ASSIGN) == Parse(toks, pos, env, TERNARY)
    ensures StartsAssignment(toks, pos) ==>
              var rhs := Parse(toks, pos + 2, env, ASSIGN);
              Parse(toks, pos, env, ASSIGN) ==
              if toks[pos + 1].spelling.SetBy? then AssignedBy(toks, toks[pos].name, toks[pos + 1].spelling.withOp, rhs)
              else if rhs.Value? then Value(rhs.v, rhs.pos, rhs.env[toks[pos].name := rhs.v])
              else rhs
  {
    hide Loop, AssignedBy;
  }
}
