// Patterns as trees, what they print as and what they stand for.
module BraceTrees {
  import opened BraceNumbers
  import opened BraceScan
  import opened Ints64
  import opened Texts
  import opened Utf8

  /** A character, an escaped character, alternatives, a range of numbers, or a
    * group that is neither and so stands for itself, braces and all. */
  datatype Piece =
    | Lit(c: Scalar)
    | Esc(escaped: Scalar)
    | Alt(branches: seq<Branch>)
    | Range(from: I64, to: I64)
    | Group(body: seq<Piece>)
  datatype Branch = Branch(pattern: Pattern)
  type Pattern = seq<Piece>

  function PrintPiece(p: Piece): Text
    decreases p
  {
    match p
    case Lit(c) => [c]
    case Esc(c) => [BACKSLASH, c]
    case Alt(branches) => [OPEN] + PrintBranches(branches) + [CLOSE]
    case Range(from, to) => [OPEN] + PrintedRange(from, to) + [CLOSE]
    case Group(body) => [OPEN] + Print(body) + [CLOSE]
  }

  function PrintBranches(bs: seq<Branch>): Text
    decreases bs
  {
    if |bs| == 0 then []
    else if |bs| == 1 then Print(bs[0].pattern)
    else Print(bs[0].pattern) + [COMMA] + PrintBranches(bs[1..])
  }

  function Print(ps: Pattern): Text
    decreases ps
  {
    if |ps| == 0 then [] else PrintPiece(ps[0]) + Print(ps[1..])
  }

  // What can be printed without being read as something else: a bare comma
  // stands only where it separates nothing.
  ghost predicate Printable(ps: Pattern, commas: bool)
    decreases ps
  {
    |ps| > 0 ==> PrintablePiece(ps[0], commas) && Printable(ps[1..], commas)
  }

  ghost predicate PrintablePiece(p: Piece, commas: bool)
    decreases p
  {
    match p
    case Lit(c) => c != BACKSLASH && c != OPEN && c != CLOSE && (c == COMMA ==> commas)
    case Esc(_) => true
    case Alt(branches) => |branches| >= 2 && forall b :: b in branches ==> Printable(b.pattern, false)
    case Range(from, to) => InBounds(from, to)
    case Group(body) => Printable(body, false) && NumericRange(Print(body)).None?
  }

  function Prefixed(head: Text, ts: seq<Text>): seq<Text> {
    seq(|ts|, i requires 0 <= i < |ts| => head + ts[i])
  }

  // Every first with every second, the firsts in order.
  function Cross(firsts: seq<Text>, seconds: seq<Text>): seq<Text> {
    if |firsts| == 0 then [] else Prefixed(firsts[0], seconds) + Cross(firsts[1..], seconds)
  }

  /** What a pattern stands for: the product of its pieces, left to right. */
  function Meaning(ps: Pattern): seq<Text>
    decreases ps
  {
    if |ps| == 0 then [[]] else Cross(MeaningOf(ps[0]), Meaning(ps[1..]))
  }

  function MeaningOf(p: Piece): seq<Text>
    decreases p
  {
    match p
    case Alt(branches) => MeaningOfAny(branches)
    case Range(from, to) => Numbers(from, to)
    case _ => [PrintPiece(p)]
  }

  function MeaningOfAny(bs: seq<Branch>): seq<Text>
    decreases bs
  {
    if |bs| == 0 then [] else Meaning(bs[0].pattern) + MeaningOfAny(bs[1..])
  }

  // `expand_braces`.
  function Expand(t: Text): seq<Text>
    decreases |t|, 0
  {
    var open := GroupStart(t, 0);
    if open.None? then [t]
    else
      var close := GroupEnd(t, open.value, 0);
      if close.None? then [t]
      else
        var expansions := ExpandBody(t[open.value + 1..close.value]);
        Cross(Prefixed(t[..open.value], expansions), Expand(t[close.value + 1..]))
  }

  function ExpandBody(body: Text): seq<Text>
    decreases |body|, 2
  {
    var parts := Alternatives(body);
    if parts.Some? then ExpandAll(parts.value, |body|)
    else
      var numbers := NumericRange(body);
      if numbers.Some? then numbers.value else [[OPEN] + body + [CLOSE]]
  }

  function ExpandAll(parts: seq<Text>, most: nat): seq<Text>
    requires forall k :: 0 <= k < |parts| ==> |parts[k]| <= most
    decreases most, 1, |parts|
  {
    if |parts| == 0 then [] else Expand(parts[0]) + ExpandAll(parts[1..], most)
  }

  // Whether expanding comes upon a range whose ends a checked build cannot subtract.
  predicate Panics(t: Text)
    decreases |t|, 0
  {
    var open := GroupStart(t, 0);
    && open.Some?
    && var close := GroupEnd(t, open.value, 0);
       && close.Some?
       && (PanicsBody(t[open.value + 1..close.value]) || Panics(t[close.value + 1..]))
  }

  predicate PanicsBody(body: Text)
    decreases |body|, 2
  {
    var parts := Alternatives(body);
    if parts.Some? then PanicsAny(parts.value, |body|) else RangePanics(body)
  }

  predicate PanicsAny(parts: seq<Text>, most: nat)
    requires forall k :: 0 <= k < |parts| ==> |parts[k]| <= most
    decreases most, 1, |parts|
  {
    |parts| > 0 && (Panics(parts[0]) || PanicsAny(parts[1..], most))
  }

  /** A tree holds such a range, or a literal group that reads as one. */
  predicate Overflows(ps: Pattern)
    decreases ps
  {
    |ps| > 0 && (OverflowsIn(ps[0]) || Overflows(ps[1..]))
  }

  predicate OverflowsIn(p: Piece)
    decreases p
  {
    match p
    case Alt(branches) => exists b | b in branches :: Overflows(b.pattern)
    case Range(from, to) => BoundPanics(from, to)
    case Group(body) => RangePanics(Print(body))
    case _ => false
  }

  // What stands between the braces of a group piece.
  function Inner(p: Piece): Text
    requires !p.Lit? && !p.Esc?
  {
    match p
    case Alt(bs) => PrintBranches(bs)
    case Range(from, to) => PrintedRange(from, to)
    case Group(body) => Print(body)
  }

  lemma PieceIsBraced(p: Piece)
    requires !p.Lit? && !p.Esc?
    ensures PrintPiece(p) == [OPEN] + Inner(p) + [CLOSE]
  {
  }

  ghost predicate Occurs(t: Text, i: nat, u: Text) {
    i + |u| <= |t| && t[i..i + |u|] == u
  }

  lemma OccursBoth(t: Text, i: nat, u: Text, v: Text)
    requires Occurs(t, i, u + v)
    ensures Occurs(t, i, u) && Occurs(t, i + |u|, v)
  {
    assert t[i..i + |u|] == (u + v)[..|u|];
    assert t[i + |u|..i + |u| + |v|] == (u + v)[|u|..];
  }

  lemma OccursOne(t: Text, i: nat, c: Scalar)
    requires Occurs(t, i, [c])
    ensures i < |t| && t[i] == c
  {
    assert t[i..i + 1][0] == c;
  }

  lemma OccursFits(t: Text, i: nat, u: Text)
    requires Occurs(t, i, u)
    ensures i + |u| <= |t|
  {
  }

  // Nothing that the scanners look at.
  ghost predicate Plain(u: Text) {
    forall k :: 0 <= k < |u| ==> u[k] != BACKSLASH && u[k] != OPEN && u[k] != CLOSE && u[k] != COMMA
  }

  lemma {:induction false} ClearPlain(t: Text, i: nat, u: Text, j: nat, rel: nat, commas: bool)
    requires Occurs(t, i, u) && Plain(u) && j <= |t| && Clear(t, i + |u|, j, rel, commas)
    ensures Clear(t, i, j, rel, commas)
    decreases |u|
  {
    if |u| > 0 {
      OccursBoth(t, i, [u[0]], u[1..]) by { assert u == [u[0]] + u[1..]; }
      ClearPlain(t, i + 1, u[1..], j, rel, commas);
      assert t[i] == u[0];
    }
  }

  // What is printed between braces, if it is clear to the close.
  lemma ClearBraced(t: Text, i: nat, inner: Text, j: nat, rel: nat, commas: bool)
    requires Occurs(t, i, [OPEN] + inner + [CLOSE]) && j <= |t| && Clear(t, i + |inner| + 2, j, rel, commas)
    ensures Occurs(t, i + 1, inner) && t[i] == OPEN && t[i + 1 + |inner|] == CLOSE
    ensures Clear(t, i + 1 + |inner|, j, rel + 1, commas)
  {
    OccursBoth(t, i, [OPEN] + inner, [CLOSE]);
    OccursBoth(t, i, [OPEN], inner);
    assert t[i..i + 1][0] == OPEN && t[i + 1 + |inner|..i + 2 + |inner|][0] == CLOSE;
  }

  lemma ClearFromOpen(t: Text, i: nat, j: nat, rel: nat, commas: bool)
    requires i < j <= |t| && t[i] == OPEN && Clear(t, i + 1, j, rel + 1, commas)
    ensures Clear(t, i, j, rel, commas)
  {
  }

  lemma ClearIsForward(t: Text, i: nat, j: nat, rel: nat, commas: bool)
    requires j <= |t| && Clear(t, i, j, rel, commas)
    ensures i <= j
  {
  }

  lemma {:induction false} ClearPattern(t: Text, i: nat, ps: Pattern, j: nat, rel: nat, commas: bool)
    requires Printable(ps, commas || rel > 0) && Occurs(t, i, Print(ps))
    requires j <= |t| && Clear(t, i + |Print(ps)|, j, rel, commas)
    ensures Clear(t, i, j, rel, commas)
    decreases ps
  {
    hide Occurs, PrintPiece, PrintablePiece, Clear;
    if |ps| > 0 {
      OccursBoth(t, i, PrintPiece(ps[0]), Print(ps[1..]));
      ClearPattern(t, i + |PrintPiece(ps[0])|, ps[1..], j, rel, commas);
      ClearPiece(t, i, ps[0], j, rel, commas);
    }
  }

  lemma {:induction false} ClearPiece(t: Text, i: nat, p: Piece, j: nat, rel: nat, commas: bool)
    requires PrintablePiece(p, commas || rel > 0) && Occurs(t, i, PrintPiece(p))
    requires j <= |t| && Clear(t, i + |PrintPiece(p)|, j, rel, commas)
    ensures Clear(t, i, j, rel, commas)
    decreases p
  {
    hide Print, PrintBranches, Printable, PrintedRange, PrintablePiece, PrintPiece, Inner, Occurs, Clear;
    if p.Lit? || p.Esc? {
      ClearUnit(t, i, p, j, rel, commas);
    } else {
      PieceIsBraced(p);
      ClearIsForward(t, i + |PrintPiece(p)|, j, rel, commas);
      ClearBraced(t, i, Inner(p), j, rel, commas);
      ClearInner(t, i + 1, p, j, rel + 1, commas);
      ClearFromOpen(t, i, j, rel, commas);
    }
  }

  lemma ClearUnit(t: Text, i: nat, p: Piece, j: nat, rel: nat, commas: bool)
    requires (p.Lit? || p.Esc?) && PrintablePiece(p, commas || rel > 0) && Occurs(t, i, PrintPiece(p))
    requires j <= |t| && Clear(t, i + |PrintPiece(p)|, j, rel, commas)
    ensures Clear(t, i, j, rel, commas)
  {
    ClearIsForward(t, i + |PrintPiece(p)|, j, rel, commas);
    assert t[i..i + |PrintPiece(p)|][0] == PrintPiece(p)[0];
  }

  lemma {:induction false} ClearInner(t: Text, i: nat, p: Piece, j: nat, rel: nat, commas: bool)
    requires !p.Lit? && !p.Esc? && PrintablePiece(p, commas || rel > 1) && Occurs(t, i, Inner(p)) && rel > 0
    requires j <= |t| && Clear(t, i + |Inner(p)|, j, rel, commas)
    ensures Clear(t, i, j, rel, commas)
    decreases p, 0
  {
    hide Print, PrintBranches, Printable, PrintedRange, PrintPiece, Occurs, Clear;
    match p
    case Alt(bs) =>
      ClearBranches(t, i, bs, j, rel, commas);
    case Range(from, to) =>
      RangeIsPlain(from, to);
      ClearPlain(t, i, PrintedRange(from, to), j, rel, commas);
    case Group(body) =>
      MoreCommas(body);
      ClearPattern(t, i, body, j, rel, commas);
  }

  lemma {:induction false} ClearBranches(t: Text, i: nat, bs: seq<Branch>, j: nat, rel: nat, commas: bool)
    requires (forall b :: b in bs ==> Printable(b.pattern, false)) && Occurs(t, i, PrintBranches(bs)) && rel > 0
    requires j <= |t| && Clear(t, i + |PrintBranches(bs)|, j, rel, commas)
    ensures Clear(t, i, j, rel, commas)
    decreases bs
  {
    hide Print, Printable, Occurs;
    if |bs| > 0 {
      MoreCommas(bs[0].pattern);
      if |bs| > 1 {
        var first, rest := Print(bs[0].pattern), PrintBranches(bs[1..]);
        OccursBoth(t, i, first + [COMMA], rest);
        OccursBoth(t, i, first, [COMMA]);
        ClearBranches(t, i + |first| + 1, bs[1..], j, rel, commas);
        OccursOne(t, i + |first|, COMMA);
      }
      ClearPattern(t, i, bs[0].pattern, j, rel, commas);
    }
  }

  // Where no bare comma is needed one does no harm.
  lemma {:induction false} MoreCommas(ps: Pattern)
    requires Printable(ps, false)
    ensures Printable(ps, true)
    decreases |ps|
  {
    if |ps| > 0 {
      MoreCommas(ps[1..]);
      assert PrintablePiece(ps[0], true);
    }
  }

  lemma RangeIsPlain(from: I64, to: I64)
    ensures Plain(PrintedRange(from, to))
  {
    hide PrintedInt, ParseI64, Trim;
    PrintedIntReadsBack(from);
    PrintedIntReadsBack(to);
  }
}
