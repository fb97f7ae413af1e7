// Expanding what a tree prints as gives what the tree stands for.
module BraceExpansion {
  import opened BraceNumbers
  import opened BraceScan
  import opened BraceTrees
  import opened Ints64
  import opened Options
  import opened Utf8

  function Printed(bs: seq<Branch>): seq<Text> {
    seq(|bs|, i requires 0 <= i < |bs| => Print(bs[i].pattern))
  }

  // The alternatives of printed branches, from the branch that begins at `start`.
  lemma {:induction false} BranchesSplit(t: Text, start: nat, bs: seq<Branch>)
    requires |bs| > 0 && forall b :: b in bs ==> Printable(b.pattern, false)
    requires start <= |t| && t[start..] == PrintBranches(bs)
    ensures Parts(t, start, start, 0) == Printed(bs)
    decreases |bs|
  {
    hide Print, Printable, Clear;
    var first := Print(bs[0].pattern);
    var next := start + |first|;
    if |bs| == 1 {
      ClearAtEnd(t, next, false);
      ClearPattern(t, start, bs[0].pattern, next, 0, false);
      ClearForParts(t, start, start, next, 0);
      assert t[start..] == first;
    } else {
      var rest := PrintBranches(bs[1..]);
      OccursBoth(t, start, first + [COMMA], rest);
      OccursBoth(t, start, first, [COMMA]);
      assert t[next..next + 1][0] == COMMA;
      ClearAtEnd(t, next, false);
      ClearPattern(t, start, bs[0].pattern, next, 0, false);
      ClearForParts(t, start, start, next, 0);
      assert t[next + 1..] == rest;
      BranchesSplit(t, next + 1, bs[1..]);
      assert Printed(bs) == [first] + Printed(bs[1..]);
    }
  }

  // A body with no bare comma is no list of alternatives.
  lemma WholeIsOnePart(t: Text)
    requires Clear(t, 0, |t|, 0, false)
    ensures Alternatives(t) == None
  {
    ClearForParts(t, 0, 0, |t|, 0);
  }

  lemma GroupIsOnePart(body: Pattern)
    requires Printable(body, false)
    ensures Alternatives(Print(body)) == None
  {
    var t := Print(body);
    assert Clear(t, |t|, |t|, 0, false);
    ClearPattern(t, 0, body, |t|, 0, false);
    WholeIsOnePart(t);
  }

  lemma RangeIsOnePart(from: I64, to: I64)
    ensures Alternatives(PrintedRange(from, to)) == None
  {
    var t := PrintedRange(from, to);
    RangeIsPlain(from, to);
    assert Clear(t, |t|, |t|, 0, false);
    ClearPlain(t, 0, t, |t|, 0, false);
    WholeIsOnePart(t);
  }

  // The scanners find a group piece from its first brace to its last.
  lemma GroupIsFound(t: Text, i: nat, p: Piece, group: Text, inner: Text)
    requires !p.Lit? && !p.Esc? && PrintablePiece(p, true) && group == PrintPiece(p) && inner == Inner(p)
    requires Occurs(t, i, group)
    ensures i + 1 + |inner| < |t| && t[i] == OPEN && GroupEnd(t, i, 0) == Some(i + 1 + |inner|)
  {
    hide PrintablePiece, GroupEnd, Clear, PrintPiece, Inner, Occurs;
    var close := i + 1 + |inner|;
    PieceIsBraced(p);
    OccursFits(t, i, group);
    ClearAtEnd(t, close + 1, true);
    ClearBraced(t, i, inner, close + 1, 0, true);
    InnerIsClear(t, i + 1, p, close);
    ClearForEnd(t, i + 1, close, 0, 1);
    EndsHere(t, i, close);
  }

  lemma EndsHere(t: Text, i: nat, close: nat)
    requires i < close < |t| && t[i] == OPEN && t[close] == CLOSE && GroupEnd(t, i + 1, 1) == GroupEnd(t, close, 1)
    ensures GroupEnd(t, i, 0) == Some(close)
  {
  }

  lemma InnerIsClear(t: Text, i: nat, p: Piece, j: nat)
    requires !p.Lit? && !p.Esc? && PrintablePiece(p, true) && Occurs(t, i, Inner(p)) && j == i + |Inner(p)|
    ensures Clear(t, i, j, 0, true)
  {
    hide Print, Printable, PrintedRange;
    match p
    case Alt(bs) =>
      BranchesAreClear(t, i, bs, j);
    case Range(from, to) =>
      RangeIsPlain(from, to);
      ClearPlain(t, i, PrintedRange(from, to), j, 0, true);
    case Group(body) =>
      MoreCommas(body);
      ClearPattern(t, i, body, j, 0, true);
  }

  lemma {:induction false} BranchesAreClear(t: Text, i: nat, bs: seq<Branch>, j: nat)
    requires forall b :: b in bs ==> Printable(b.pattern, false)
    requires Occurs(t, i, PrintBranches(bs)) && j == i + |PrintBranches(bs)|
    ensures Clear(t, i, j, 0, true)
    decreases |bs|
  {
    hide Print, Printable, Occurs;
    if |bs| == 0 {
    } else if |bs| == 1 {
      MoreCommas(bs[0].pattern);
      OccursFits(t, i, PrintBranches(bs));
      ClearPattern(t, i, bs[0].pattern, j, 0, true);
    } else {
      var first, rest := Print(bs[0].pattern), PrintBranches(bs[1..]);
      OccursBoth(t, i, first + [COMMA], rest);
      OccursBoth(t, i, first, [COMMA]);
      BranchesAreClear(t, i + |first| + 1, bs[1..], j);
      OccursFits(t, i, PrintBranches(bs));
      OccursOne(t, i + |first|, COMMA);
      MoreCommas(bs[0].pattern);
      ClearPattern(t, i, bs[0].pattern, j, 0, true);
    }
  }

  lemma PrefixedTwice(a: Text, b: Text, ts: seq<Text>)
    ensures Prefixed(a, Prefixed(b, ts)) == Prefixed(a + b, ts)
  {
    forall i | 0 <= i < |ts| ensures Prefixed(a, Prefixed(b, ts))[i] == Prefixed(a + b, ts)[i] {
      assert a + (b + ts[i]) == a + b + ts[i];
    }
  }

  lemma {:induction false} PrefixOfCross(head: Text, xs: seq<Text>, ys: seq<Text>)
    ensures Cross(Prefixed(head, xs), ys) == Prefixed(head, Cross(xs, ys))
  {
    if |xs| > 0 {
      PrefixOfCross(head, xs[1..], ys);
      assert Prefixed(head, xs)[1..] == Prefixed(head, xs[1..]);
      PrefixedTwice(head, xs[0], ys);
      var first, rest := Prefixed(xs[0], ys), Cross(xs[1..], ys);
      assert Prefixed(head, first + rest) == Prefixed(head, first) + Prefixed(head, rest);
    }
  }

  lemma CrossOfOne(x: Text, ys: seq<Text>)
    ensures Cross([x], ys) == Prefixed(x, ys)
  {
    assert [x][1..] == [];
  }

  // A piece that is not a group joins what stands before the first group.
  lemma PieceJoinsHead(head: Text, p: Piece, ps: Pattern)
    requires p.Lit? || p.Esc?
    requires PrintablePiece(p, true) && GroupStart(head + PrintPiece(p) + Print(ps), 0) == GroupStart(head + PrintPiece(p) + Print(ps), |head|)
    ensures var t := head + PrintPiece(p) + Print(ps);
            GroupStart(t, 0) == GroupStart(t, |head + PrintPiece(p)|)
    ensures Prefixed(head, Meaning([p] + ps)) == Prefixed(head + PrintPiece(p), Meaning(ps))
  {
    hide Print;
    var t := head + PrintPiece(p) + Print(ps);
    assert t[|head|] == PrintPiece(p)[0];
    assert ([p] + ps)[1..] == ps;
    CrossOfOne(PrintPiece(p), Meaning(ps));
    PrefixedTwice(head, PrintPiece(p), Meaning(ps));
  }

  lemma ExpandAtGroup(t: Text, open: nat, close: nat)
    requires open < close < |t| && GroupStart(t, 0) == Some(open) && GroupEnd(t, open, 0) == Some(close)
    ensures Expand(t) == Cross(Prefixed(t[..open], ExpandBody(t[open + 1..close])), Expand(t[close + 1..]))
  {
    hide GroupStart, GroupEnd, ExpandBody, Cross, Prefixed;
  }

  lemma PanicsAtGroup(t: Text, open: nat, close: nat)
    requires open < close < |t| && GroupStart(t, 0) == Some(open) && GroupEnd(t, open, 0) == Some(close)
    ensures Panics(t) <==> PanicsBody(t[open + 1..close]) || Panics(t[close + 1..])
  {
    hide GroupStart, GroupEnd, PanicsBody;
  }

  lemma Sliced(t: Text, head: Text, group: Text, inner: Text, tail: Text)
    requires group == [OPEN] + inner + [CLOSE] && t == head + group + tail
    ensures var close := |head| + 1 + |inner|;
            close < |t| && t[..|head|] == head && t[|head| + 1..close] == inner && t[close + 1..] == tail
    ensures Occurs(t, |head|, group)
  {
  }

  // A group piece next, where the scanners find it.
  lemma GroupStands(t: Text, i: nat, p: Piece, group: Text, inner: Text)
    requires !p.Lit? && !p.Esc? && PrintablePiece(p, true) && group == PrintPiece(p) && inner == Inner(p)
    requires Occurs(t, i, group) && GroupStart(t, 0) == GroupStart(t, i)
    ensures i + 1 + |inner| < |t| && GroupStart(t, 0) == Some(i) && GroupEnd(t, i, 0) == Some(i + 1 + |inner|)
  {
    hide *;
    GroupIsFound(t, i, p, group, inner);
    StartsHere(t, i);
  }

  // A group, what stands in it, and what stands before and after.
  ghost predicate Cuts(t: Text, head: Text, group: Text, inner: Text, tail: Text) {
    var close := |head| + 1 + |inner|;
    && close < |t| && t[..|head|] == head && t[|head| + 1..close] == inner && t[close + 1..] == tail
    && Occurs(t, |head|, group)
  }

  lemma PieceIsCut(t: Text, head: Text, p: Piece, group: Text, inner: Text, tail: Text)
    requires !p.Lit? && !p.Esc? && group == PrintPiece(p) && inner == Inner(p) && t == head + group + tail
    ensures Cuts(t, head, group, inner, tail)
  {
    hide PrintPiece, Inner;
    PieceIsBraced(p);
    Sliced(t, head, group, inner, tail);
  }

  // Its expansions come next, then those of what follows.
  lemma GroupIsNext(t: Text, head: Text, p: Piece, group: Text, inner: Text, tail: Text)
    requires !p.Lit? && !p.Esc? && PrintablePiece(p, true) && group == PrintPiece(p) && inner == Inner(p)
    requires Cuts(t, head, group, inner, tail) && GroupStart(t, 0) == GroupStart(t, |head|)
    ensures Expand(t) == Cross(Prefixed(head, ExpandBody(inner)), Expand(tail))
    ensures Panics(t) <==> PanicsBody(inner) || Panics(tail)
  {
    hide *;
    var open, close := |head|, |head| + 1 + |inner|;
    CutsAt(t, head, group, inner, tail, open, close);
    GroupStands(t, open, p, group, inner);
    ExpandAtGroup(t, open, close);
    PanicsAtGroup(t, open, close);
    var before, within, after := t[..open], t[open + 1..close], t[close + 1..];
    assert before == head && within == inner && after == tail;
  }

  lemma CutsAt(t: Text, head: Text, group: Text, inner: Text, tail: Text, open: nat, close: nat)
    requires Cuts(t, head, group, inner, tail) && open == |head| && close == |head| + 1 + |inner|
    ensures close < |t| && t[..open] == head && t[open + 1..close] == inner && t[close + 1..] == tail
    ensures Occurs(t, open, group)
  {
  }

  lemma StartsHere(t: Text, i: nat)
    requires i < |t| && t[i] == OPEN
    ensures GroupStart(t, i) == Some(i)
  {
  }

  lemma StartsNowhere(t: Text)
    ensures GroupStart(t, |t|).None?
  {
  }

  lemma Reassociated(a: Text, b: Text, c: Text)
    ensures a + (b + c) == a + b + c
  {
  }

  // Expanding from the first group on, given what stands before it.
  lemma {:induction false} ExpandFrom(head: Text, ps: Pattern)
    requires Printable(ps, true) && GroupStart(head + Print(ps), 0) == GroupStart(head + Print(ps), |head|)
    ensures Expand(head + Print(ps)) == Prefixed(head, Meaning(ps))
    decreases ps, 1
  {
    hide PrintPiece, PrintablePiece, Expand, ExpandBody, MeaningOf, GroupStart, GroupEnd, Cross, Cuts;
    var t := head + Print(ps);
    if |ps| == 0 {
      assert t == head;
      StartsNowhere(t);
      NoGroup(t);
      assert Prefixed(head, [[]]) == [head];
    } else {
      var p, rest := ps[0], ps[1..];
      assert ps == [p] + rest;
      Reassociated(head, PrintPiece(p), Print(rest));
      if p.Lit? || p.Esc? {
        PieceJoinsHead(head, p, rest);
        ExpandFrom(head + PrintPiece(p), rest);
      } else {
        PieceIsCut(t, head, p, PrintPiece(p), Inner(p), Print(rest));
        GroupIsNext(t, head, p, PrintPiece(p), Inner(p), Print(rest));
        PieceExpands(p);
        ExpandPrinted(rest);
        PrefixOfCross(head, MeaningOf(p), Meaning(rest));
      }
    }
  }

  lemma {:induction false} PieceExpands(p: Piece)
    requires !p.Lit? && !p.Esc? && PrintablePiece(p, true)
    ensures ExpandBody(Inner(p)) == MeaningOf(p)
    decreases p, 3
  {
    hide Print, PrintBranches, Printable, Meaning, Expand, ExpandAll, Parts, Numbers, NumericRange, InBounds, PrintedRange;
    match p
    case Alt(bs) =>
      var t := PrintBranches(bs);
      assert t[0..] == t;
      BranchesSplit(t, 0, bs);
      AllExpand(bs, |t|);
    case Range(from, to) =>
      RangeIsOnePart(from, to);
      RangeReadsBack(from, to);
    case Group(body) =>
      GroupIsOnePart(body);
  }

  lemma {:induction false} AllExpand(bs: seq<Branch>, most: nat)
    requires forall b :: b in bs ==> Printable(b.pattern, false)
    requires forall k :: 0 <= k < |Printed(bs)| ==> |Printed(bs)[k]| <= most
    ensures ExpandAll(Printed(bs), most) == MeaningOfAny(bs)
    decreases bs, 0
  {
    hide Print, Printable, Meaning, Expand;
    if |bs| > 0 {
      assert Printed(bs)[1..] == Printed(bs[1..]);
      assert Printed(bs)[0] == Print(bs[0].pattern);
      MoreCommas(bs[0].pattern);
      ExpandPrinted(bs[0].pattern);
      AllExpand(bs[1..], most);
    }
  }

  /** Expanding a printed tree gives exactly what it stands for, in order. */
  lemma {:induction false} ExpandPrinted(ps: Pattern)
    requires Printable(ps, true)
    ensures Expand(Print(ps)) == Meaning(ps)
    decreases ps, 2
  {
    hide Print, Expand, Meaning, Printable;
    assert [] + Print(ps) == Print(ps);
    ExpandFrom([], ps);
    var m := Meaning(ps);
    assert Prefixed([], m) == m by {
      forall i | 0 <= i < |m| ensures Prefixed([], m)[i] == m[i] { assert [] + m[i] == m[i]; }
    }
  }

  // Whether it panics

  lemma {:induction false} PanicsFrom(head: Text, ps: Pattern)
    requires Printable(ps, true) && GroupStart(head + Print(ps), 0) == GroupStart(head + Print(ps), |head|)
    ensures Panics(head + Print(ps)) <==> Overflows(ps)
    decreases ps, 1
  {
    hide PrintPiece, PrintablePiece, Panics, PanicsBody, OverflowsIn, GroupStart, GroupEnd, Meaning, Prefixed, Cuts;
    var t := head + Print(ps);
    if |ps| == 0 {
      assert t == head;
      StartsNowhere(t);
      NoGroup(t);
    } else {
      var p, rest := ps[0], ps[1..];
      assert ps == [p] + rest;
      Reassociated(head, PrintPiece(p), Print(rest));
      if p.Lit? || p.Esc? {
        PieceJoinsHead(head, p, rest);
        PanicsFrom(head + PrintPiece(p), rest);
        UnitIsSafe(p);
      } else {
        PieceIsCut(t, head, p, PrintPiece(p), Inner(p), Print(rest));
        GroupIsNext(t, head, p, PrintPiece(p), Inner(p), Print(rest));
        PiecePanics(p);
        PanicsPrinted(rest);
      }
    }
  }

  lemma UnitIsSafe(p: Piece)
    requires p.Lit? || p.Esc?
    ensures !OverflowsIn(p)
  {
  }

  lemma {:induction false} PiecePanics(p: Piece)
    requires !p.Lit? && !p.Esc? && PrintablePiece(p, true)
    ensures PanicsBody(Inner(p)) <==> OverflowsIn(p)
    decreases p, 3
  {
    hide Print, PrintBranches, Printable, Overflows, Panics, PanicsAny, Parts, NumericRange, InBounds, RangePanics, PrintedRange;
    match p
    case Alt(bs) =>
      var t := PrintBranches(bs);
      assert t[0..] == t;
      BranchesSplit(t, 0, bs);
      AnyPanics(bs, |t|);
    case Range(from, to) =>
      RangeIsOnePart(from, to);
      RangeReadsBack(from, to);
    case Group(body) =>
      GroupIsOnePart(body);
  }

  lemma {:induction false} AnyPanics(bs: seq<Branch>, most: nat)
    requires forall b :: b in bs ==> Printable(b.pattern, false)
    requires forall k :: 0 <= k < |Printed(bs)| ==> |Printed(bs)[k]| <= most
    ensures PanicsAny(Printed(bs), most) <==> exists b | b in bs :: Overflows(b.pattern)
    decreases bs, 0
  {
    hide Print, Printable, Overflows, Panics;
    if |bs| > 0 {
      assert Printed(bs)[1..] == Printed(bs[1..]);
      assert Printed(bs)[0] == Print(bs[0].pattern);
      MoreCommas(bs[0].pattern);
      PanicsPrinted(bs[0].pattern);
      AnyPanics(bs[1..], most);
      assert forall b :: b in bs <==> b == bs[0] || b in bs[1..];
    }
  }

  /** Expanding a printed tree panics exactly where arithmetic is checked and the
      tree holds, at any depth, a range with ends too far apart to subtract. */
  lemma {:induction false} PanicsPrinted(ps: Pattern)
    requires Printable(ps, true)
    ensures Panics(Print(ps)) <==> Overflows(ps)
    decreases ps, 2
  {
    hide Print, Panics, Overflows, Printable;
    assert [] + Print(ps) == Print(ps);
    PanicsFrom([], ps);
  }

  lemma {:induction false} PanicsOneMore(parts: seq<Text>, part: Text, most: nat)
    requires |part| <= most && forall k :: 0 <= k < |parts| ==> |parts[k]| <= most
    ensures PanicsAny(parts + [part], most) <==> PanicsAny(parts, most) || Panics(part)
  {
    hide Panics;
    if |parts| == 0 {
      assert parts + [part] == [part];
    } else {
      PanicsOneMore(parts[1..], part, most);
      assert (parts + [part])[1..] == parts[1..] + [part];
    }
  }

  lemma {:induction false} PanicsWithin(parts: seq<Text>, i: nat, most: nat)
    requires i <= |parts| && forall k :: 0 <= k < |parts| ==> |parts[k]| <= most
    ensures PanicsAny(parts[..i], most) ==> PanicsAny(parts, most)
    decreases |parts| - i
  {
    hide Panics;
    if i == |parts| {
      assert parts[..i] == parts;
    } else {
      PanicsWithin(parts, i + 1, most);
      PanicsOneMore(parts[..i], parts[i], most);
      assert parts[..i + 1] == parts[..i] + [parts[i]];
    }
  }

  lemma TextsReassociated(a: seq<Text>, b: seq<Text>, c: seq<Text>)
    ensures a + (b + c) == a + b + c
  {
  }

  lemma {:induction false} CrossOfBoth(xs: seq<Text>, ys: seq<Text>, zs: seq<Text>)
    ensures Cross(xs + ys, zs) == Cross(xs, zs) + Cross(ys, zs)
  {
    hide Prefixed;
    if |xs| == 0 {
      assert xs + ys == ys;
    } else {
      CrossOfBoth(xs[1..], ys, zs);
      assert (xs + ys)[1..] == xs[1..] + ys;
      TextsReassociated(Prefixed(xs[0], zs), Cross(xs[1..], zs), Cross(ys, zs));
    }
  }

  lemma PrefixedBoth(head: Text, xs: seq<Text>, ys: seq<Text>)
    ensures Prefixed(head, xs + ys) == Prefixed(head, xs) + Prefixed(head, ys)
  {
  }

  lemma {:induction false} ExpandOneMore(parts: seq<Text>, part: Text, most: nat)
    requires |part| <= most && forall k :: 0 <= k < |parts| ==> |parts[k]| <= most
    ensures ExpandAll(parts + [part], most) == ExpandAll(parts, most) + Expand(part)
  {
    hide Expand;
    if |parts| == 0 {
      assert parts + [part] == [part];
    } else {
      ExpandOneMore(parts[1..], part, most);
      assert (parts + [part])[1..] == parts[1..] + [part];
    }
  }

  // The inner loops: one alternative's expansions with every tail.
  method PushAll(before: seq<Text>, head: Text, expansions: seq<Text>, tails: seq<Text>) returns (out: seq<Text>)
    ensures out == before + Cross(Prefixed(head, expansions), tails)
  {
    out := before;
    var i := 0;
    while i < |expansions|
      invariant 0 <= i <= |expansions| && out == before + Cross(Prefixed(head, expansions[..i]), tails)
    {
      var expanded, k := head + expansions[i], 0;
      ghost var sofar := out;
      while k < |tails|
        invariant 0 <= k <= |tails| && out == sofar + Prefixed(expanded, tails[..k])
      {
        out := out + [expanded + tails[k]];
        assert Prefixed(expanded, tails[..k + 1]) == Prefixed(expanded, tails[..k]) + [expanded + tails[k]];
        k := k + 1;
      }
      assert tails[..k] == tails;
      assert expansions[..i + 1] == expansions[..i] + [expansions[i]];
      PrefixedBoth(head, expansions[..i], [expansions[i]]);
      CrossOfBoth(Prefixed(head, expansions[..i]), [expanded], tails);
      CrossOfOne(expanded, tails);
      assert Prefixed(head, [expansions[i]]) == [expanded];
      i := i + 1;
    }
    assert expansions[..i] == expansions;
  }

  method ExpandBraces(pattern: Text) returns (panicked: bool, out: seq<Text>)
    ensures panicked == Panics(pattern)
    ensures !panicked ==> out == Expand(pattern)
    decreases |pattern|, 0
  {
    hide GroupStart, GroupEnd, Cross, Prefixed, Expand, ExpandAll, ExpandBody, Panics, PanicsAny, PanicsBody, Alternatives,
         NumericRange, RangePanics;
    var open := FindGroupStart(pattern);
    if open.None? {
      NoGroup(pattern);
      return false, [pattern];
    }
    var close := FindGroupEnd(pattern, open.value);
    if close.None? {
      NoGroup(pattern);
      return false, [pattern];
    }
    var head, body, tail := pattern[..open.value], pattern[open.value + 1..close.value], pattern[close.value + 1..];
    ExpandAtGroup(pattern, open.value, close.value);
    PanicsAtGroup(pattern, open.value, close.value);
    ExpandBodyIs(body);
    var parts := SplitAlternatives(body);
    var nested := parts.Some?;
    var alternatives;
    if nested {
      alternatives := parts.value;
    } else {
      if RangePanics(body) {
        return true, [];
      }
      var numbers := NumericRange(body);
      alternatives := if numbers.Some? then numbers.value else [[OPEN] + body + [CLOSE]];
    }
    var tails;
    panicked, tails := ExpandBraces(tail);
    if panicked {
      return true, [];
    }
    panicked, out := ExpandEach(head, body, alternatives, nested, tails);
  }

  /** The outer loop: each alternative, expanded where it may hold groups. */
  method ExpandEach(head: Text, body: Text, alternatives: seq<Text>, nested: bool, tails: seq<Text>)
    returns (panicked: bool, out: seq<Text>)
    requires nested ==> forall k :: 0 <= k < |alternatives| ==> |alternatives[k]| <= |body|
    ensures panicked == (nested && PanicsAny(alternatives, |body|))
    ensures !panicked ==>
              out == Cross(Prefixed(head, if nested then ExpandAll(alternatives, |body|) else alternatives), tails)
    decreases |body|, 1
  {
    hide Cross, Prefixed, Expand, ExpandAll, Panics, PanicsAny;
    var i := 0;
    ghost var expanded: seq<Text> := [];
    NothingExpanded(head, tails, |body|);
    assert alternatives[..0] == [];
    out := [];
    while i < |alternatives|
      invariant 0 <= i <= |alternatives| && out == Cross(Prefixed(head, expanded), tails)
      invariant expanded == if nested then ExpandAll(alternatives[..i], |body|) else alternatives[..i]
      invariant nested ==> !PanicsAny(alternatives[..i], |body|)
    {
      var expansions: seq<Text>;
      assert alternatives[..i + 1] == alternatives[..i] + [alternatives[i]];
      if nested {
        panicked, expansions := ExpandBraces(alternatives[i]);
        PanicsOneMore(alternatives[..i], alternatives[i], |body|);
        if panicked {
          PanicsWithin(alternatives, i + 1, |body|);
          return true, [];
        }
        ExpandOneMore(alternatives[..i], alternatives[i], |body|);
      } else {
        expansions := [alternatives[i]];
      }
      PrefixedBoth(head, expanded, expansions);
      CrossOfBoth(Prefixed(head, expanded), Prefixed(head, expansions), tails);
      out := PushAll(out, head, expansions, tails);
      expanded := expanded + expansions;
      i := i + 1;
    }
    assert alternatives[..i] == alternatives;
    panicked := false;
  }

  lemma NoGroup(t: Text)
    requires GroupStart(t, 0).None? || GroupEnd(t, GroupStart(t, 0).value, 0).None?
    ensures Expand(t) == [t] && !Panics(t)
  {
    hide GroupStart, GroupEnd;
  }

  lemma NothingExpanded(head: Text, tails: seq<Text>, most: nat)
    ensures Cross(Prefixed(head, []), tails) == [] && ExpandAll([], most) == [] && !PanicsAny([], most)
  {
  }

  // The three kinds of group.
  lemma ExpandBodyIs(body: Text)
    ensures var parts, numbers := Alternatives(body), NumericRange(body);
            if parts.Some? then
              && (forall k :: 0 <= k < |parts.value| ==> |parts.value[k]| <= |body|)
              && ExpandBody(body) == ExpandAll(parts.value, |body|)
              && (PanicsBody(body) <==> PanicsAny(parts.value, |body|))
            else
              && (PanicsBody(body) <==> RangePanics(body))
              && ExpandBody(body) == if numbers.Some? then numbers.value else [[OPEN] + body + [CLOSE]]
  {
    hide ExpandAll, PanicsAny, NumericRange, RangePanics;
  }
}
