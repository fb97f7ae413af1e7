/** Which of two operators in a row is applied first. */
module ArithPrecedence {
  import opened ArithGrammar
  import opened ArithSyntax
  import opened ExprRoundTrip
  import opened ExprTrees
  import opened Ints64

  /** The infix operators, those that bind loosest first. */
  const LOOSEST_FIRST: seq<set<BinOp>> := [
    {OrElse}, {AndAlso}, {BitOr}, {BitXor}, {BitAnd}, {EqualTo, NotEqual}, {AtMost, AtLeast, Less, Greater},
    {Shl, Shr}, {Add, Sub}, {Mul, Div, Rem}, {Pow}]

  /** Of two operators in a row the tighter is applied first, and of two as tight the
      first, or the second where both are `**`. */
  lemma OperandsGroup(a: I64, op: BinOp, b: I64, next: BinOp, c: I64, i: nat, j: nat, env: Env)
    requires i < |LOOSEST_FIRST| && op in LOOSEST_FIRST[i] && j < |LOOSEST_FIRST| && next in LOOSEST_FIRST[j]
    ensures var toks := [Num(a), Op(Bin(op)), Num(b), Op(Bin(next)), Num(c), Eof];
            var e := if i > j || (i == j && op != Pow) then Binary(next, Binary(op, Lit(a), Lit(b)), Lit(c))
                     else Binary(op, Lit(a), Binary(next, Lit(b), Lit(c)));
            ParseAll(toks, env) == Plainly(5, Eval(e, env))
  {
    hide ParseAll, Eval, Plainly, Ended;
    var first := i > j || (i == j && op != Pow);
    LevelsFollow(op, i);
    LevelsFollow(next, j);
    var e := if first then Binary(next, Binary(op, Lit(a), Lit(b)), Lit(c)) else Binary(op, Lit(a), Binary(next, Lit(b), Lit(c)));
    RoundTrip(e, env);
    if first {
      assert Print(e) == PrintAt(Binary(op, Lit(a), Lit(b)), LeftLevel(next)) + [Op(Bin(next))] + PrintAt(Lit(c), RightLevel(next));
      TwoNumbers(a, op, b);
      assert PrintAt(Binary(op, Lit(a), Lit(b)), LeftLevel(next)) == [Num(a), Op(Bin(op)), Num(b)];
    } else {
      assert Print(e) == PrintAt(Lit(a), LeftLevel(op)) + [Op(Bin(op))] + PrintAt(Binary(next, Lit(b), Lit(c)), RightLevel(op));
      TwoNumbers(b, next, c);
      assert PrintAt(Binary(next, Lit(b), Lit(c)), RightLevel(op)) == [Num(b), Op(Bin(next)), Num(c)];
    }
    assert PrintAt(Lit(a), LeftLevel(op)) == [Num(a)] && PrintAt(Lit(c), RightLevel(next)) == [Num(c)];
    assert Print(e) == [Num(a), Op(Bin(op)), Num(b), Op(Bin(next)), Num(c)];
    assert Print(e) + [Eof] == [Num(a), Op(Bin(op)), Num(b), Op(Bin(next)), Num(c), Eof];
  }

  lemma TwoNumbers(a: I64, op: BinOp, b: I64)
    ensures Print(Binary(op, Lit(a), Lit(b))) == [Num(a), Op(Bin(op)), Num(b)]
  {
    assert PrintAt(Lit(a), LeftLevel(op)) == [Num(a)] && PrintAt(Lit(b), RightLevel(op)) == [Num(b)];
  }

  lemma LevelsFollow(op: BinOp, i: nat)
    requires i < |LOOSEST_FIRST| && op in LOOSEST_FIRST[i]
    ensures LevelOf(op) == i + 3
  {
  }
}
