/** Myers' greedy search, the walk back through its saved frontiers, and `diff`. */
module Diff {
  import opened EditGraph
  import opened EditScript
  import opened Coalescing

  function Keeps(count: nat): (s: seq<Step>)
    ensures |s| == count && forall i | 0 <= i < count :: s[i] == Keep
  {
    seq(count, _ => Keep)
  }

  /** The steps along the search's own path to the frontier of round `d`. */
  ghost function Path<T>(a: seq<T>, b: seq<T>, d: nat, j: nat): seq<Step>
    requires j <= d
    decreases d, 1
  {
    SlideOfRound(a, b, d, j);
    Before(a, b, d, j) + Keeps(Reach(a, b, d, j) - Entry(a, b, d, j))
  }

  /** The part of that path before the last round's slide. */
  ghost function Before<T>(a: seq<T>, b: seq<T>, d: nat, j: nat): seq<Step>
    requires j <= d
    decreases d, 0
  {
    if d == 0 then []
    else if FromAbove(a, b, d, j) then Path(a, b, d - 1, j) + [Add]
    else Path(a, b, d - 1, j - 1) + [Drop]
  }

  /** The script `diff` settles on, among the shortest ones. */
  ghost function Script<T>(a: seq<T>, b: seq<T>): seq<Step> {
    CornerOnRound(a, b);
    Path(a, b, Rounds(a, b), Deletions(a, b))
  }

  /** What `diff` reports. */
  ghost function Ops<T>(a: seq<T>, b: seq<T>): seq<DiffOp> {
    Runs(Script(a, b))
  }

  lemma {:induction false} KeepsLead<T>(a: seq<T>, b: seq<T>, steps: seq<Step>, x: nat, y: nat, count: nat)
    requires StepsLeadTo(a, b, steps, x, y)
    requires count > 0 ==> x + count <= |a| && y + count <= |b| && a[x..x + count] == b[y..y + count]
    ensures StepsLeadTo(a, b, steps + Keeps(count), x + count, y + count)
    ensures EditCount(steps + Keeps(count)) == EditCount(steps)
    decreases count
  {
    if count == 0 {
      assert steps + Keeps(0) == steps;
    } else {
      var all, m := steps + Keeps(count), count - 1;
      assert all[..|all| - 1] == steps + Keeps(m) && all[|all| - 1] == Keep;
      assert a[x + m] == a[x..x + count][m] == b[y..y + count][m] == b[y + m];
      assert a[x..x + m] == a[x..x + count][..m];
      assert b[y..y + m] == b[y..y + count][..m];
      KeepsLead(a, b, steps, x, y, m);
    }
  }

  /** The search's path stays on the grid while its frontier point does, and
      round `d` has made `d` edits. */
  lemma {:induction false} PathLeads<T>(a: seq<T>, b: seq<T>, d: nat, j: nat)
    requires j <= d && Reach(a, b, d, j) <= |a| && ReachY(a, b, d, j) <= |b|
    ensures StepsLeadTo(a, b, Path(a, b, d, j), Reach(a, b, d, j), ReachY(a, b, d, j))
    ensures EditCount(Path(a, b, d, j)) == d
    decreases d, 1
  {
    hide Dist, Reach, Entry, Slide, FromAbove, Before, StepsLeadTo, EditCount;
    SlideOfRound(a, b, d, j);
    BeforeLeads(a, b, d, j);
    KeepsLead(a, b, Before(a, b, d, j), Entry(a, b, d, j), EntryY(a, b, d, j), Reach(a, b, d, j) - Entry(a, b, d, j));
  }

  lemma {:induction false} BeforeLeads<T>(a: seq<T>, b: seq<T>, d: nat, j: nat)
    requires j <= d && Entry(a, b, d, j) <= |a| && EntryY(a, b, d, j) <= |b|
    ensures StepsLeadTo(a, b, Before(a, b, d, j), Entry(a, b, d, j), EntryY(a, b, d, j))
    ensures EditCount(Before(a, b, d, j)) == d
    decreases d, 0
  {
    hide Dist, Reach, Slide, FromAbove, Path;
    if d > 0 {
      ViaExists(a, b, d, j);
      var i, step := if FromAbove(a, b, d, j) then j else j - 1, if FromAbove(a, b, d, j) then Add else Drop;
      PathLeads(a, b, d - 1, i);
      LastStep(Path(a, b, d - 1, i), step);
    }
  }

  lemma LastStep(steps: seq<Step>, step: Step)
    ensures var all := steps + [step]; |all| > 0 && all[..|all| - 1] == steps && all[|all| - 1] == step
  {
  }

  /** When a round ends in an insertion with nothing kept after it, the next
      round cannot leave that diagonal by a deletion: coming from the other side
      would have got as far, and the tie rule says so both times. */
  lemma NoDeleteAfterInsert<T>(a: seq<T>, b: seq<T>, d: nat, j: nat)
    requires 0 < d && j <= d && FromAbove(a, b, d, j)
    requires Reach(a, b, d, j) == Entry(a, b, d, j)
    ensures FromAbove(a, b, d + 1, j + 1)
  {
    hide Reach, Slide, Dist;
    ViaExists(a, b, d, j);
    EntryIsFurther(a, b, d, j + 1);
    SlideOfRound(a, b, d, j + 1);
  }

  /** A path ends in an insertion only when its last round came from above and
      slid nowhere. */
  lemma PathEnd<T>(a: seq<T>, b: seq<T>, d: nat, j: nat)
    requires j <= d && Path(a, b, d, j) != [] && Path(a, b, d, j)[|Path(a, b, d, j)| - 1] == Add
    ensures 0 < d && FromAbove(a, b, d, j) && Reach(a, b, d, j) == Entry(a, b, d, j)
  {
    hide Reach, Entry, Slide, Dist, FromAbove;
    SlideOfRound(a, b, d, j);
    var slid := Reach(a, b, d, j) - Entry(a, b, d, j);
    LastOfKeeps(Before(a, b, d, j), slid);
  }

  lemma LastOfKeeps(steps: seq<Step>, count: nat)
    ensures 0 < count ==> (steps + Keeps(count))[|steps| + count - 1] == Keep
    ensures count == 0 ==> steps + Keeps(count) == steps
  {
  }

  lemma {:induction false} PathDeletesFirst<T>(a: seq<T>, b: seq<T>, d: nat, j: nat)
    requires j <= d
    ensures DeletesFirst(Path(a, b, d, j))
    decreases d
  {
    hide Reach, Entry, Slide, Dist, FromAbove;
    if d > 0 {
      ViaExists(a, b, d, j);
      var i, step := if FromAbove(a, b, d, j) then j else j - 1, if FromAbove(a, b, d, j) then Add else Drop;
      var before := Path(a, b, d - 1, i);
      PathDeletesFirst(a, b, d - 1, i);
      if step == Drop && before != [] && before[|before| - 1] == Add {
        PathEnd(a, b, d - 1, i);
        NoDeleteAfterInsert(a, b, d - 1, i);
        assert false;
      }
    }
  }

  /** The script leads from the one sequence to the other at the corner's distance. */
  lemma ScriptLeads<T>(a: seq<T>, b: seq<T>)
    ensures StepsLeadTo(a, b, Script(a, b), |a|, |b|)
    ensures EditCount(Script(a, b)) == Rounds(a, b)
    ensures DeletesFirst(Script(a, b))
  {
    hide Reach, Path, Rounds, Deletions, DeletesFirst, StepsLeadTo, EditCount;
    var d, j := Rounds(a, b), Deletions(a, b);
    CornerOnRound(a, b);
    HitIsCorner(a, b, d, j);
    PathLeads(a, b, d, j);
    PathDeletesFirst(a, b, d, j);
  }

  /** Everything `diff` is for: its report is a script from `a` to `b`, no script
      is shorter, and every hunk is a Delete then an Insert. */
  lemma OpsAreCorrect<T(!new)>(a: seq<T>, b: seq<T>)
    ensures Tiles(a, b, Ops(a, b))
    ensures Replay(a, b, Ops(a, b)) == b
    ensures forall ops | Tiles(a, b, ops) :: Cost(Ops(a, b)) <= Cost(ops)
    ensures IsLongestCommon(Kept(a, Ops(a, b)), a, b)
    ensures Cost(Ops(a, b)) == |a| + |b| - 2 * |Kept(a, Ops(a, b))|
    ensures Hunked(Ops(a, b))
  {
    hide Script, Runs, StepsLeadTo, LeadsTo, Cost, Replay, Kept, IsLongestCommon, Hunked, DeletesFirst, Rounds;
    var steps := Script(a, b);
    ScriptLeads(a, b);
    RunsKeepPath(a, b, steps, |a|, |b|);
    RunsAreHunked(steps);
    CheapestKeepsLongest(a, b, Runs(steps));
    ReplayWritesNew(a, b, Runs(steps), |a|, |b|);
    assert b[..|b|] == b;
  }

  /** Where the array keeps round `d`'s point of `j` deletions: its diagonal,
      counted from `-offset`. */
  function Slot(offset: nat, d: nat, j: int): int {
    2 * j - d + offset
  }

  /** `v` holds the points of round `d` with fewer than `hi` deletions. */
  ghost predicate HoldsFrontier<T>(a: seq<T>, b: seq<T>, v: seq<int>, offset: nat, d: nat, hi: nat) {
    && |v| == 2 * offset + 1 && d <= offset && hi <= d + 1
    && forall j: nat | j < hi :: v[Slot(offset, d, j)] == Reach(a, b, d, j)
  }

  /** `v` as round `d` finds it: the frontier of the round before, or for round
      0 the empty one. */
  ghost predicate ReadyFor<T>(a: seq<T>, b: seq<T>, v: seq<int>, offset: nat, d: nat) {
    && |v| == 2 * offset + 1 && 0 < offset && d <= offset
    && if d == 0 then v[offset + 1] == 0 else HoldsFrontier(a, b, v, offset, d - 1, d)
  }

  /** The frontiers saved, one as each round began. */
  ghost predicate IsTrace<T>(a: seq<T>, b: seq<T>, trace: seq<seq<int>>) {
    var offset := |a| + |b|;
    && |trace| == (if offset == 0 then 0 else Rounds(a, b) + 1)
    && forall d | 0 <= d < |trace| :: ReadyFor(a, b, trace[d], offset, d)
  }

  /** The comparison both loops make, on diagonal `k` of round `d`. */
  predicate ComesDown(v: seq<int>, offset: nat, d: nat, k: int)
    requires -(d as int) <= k <= d <= offset && |v| == 2 * offset + 1
  {
    k + d == 0 || (k != d && v[k - 1 + offset] < v[k + 1 + offset])
  }

  /** It is the tie rule, and what it reads is the frontier. */
  lemma ChoiceIsTieRule<T>(a: seq<T>, b: seq<T>, v: seq<int>, offset: nat, d: nat, j: nat)
    requires j <= d && ReadyFor(a, b, v, offset, d)
    ensures ComesDown(v, offset, d, 2 * j - d) <==> d == 0 || FromAbove(a, b, d, j)
    ensures d == 0 ==> v[1 + offset] == 0
    ensures 0 < d && FromAbove(a, b, d, j) ==> j < d && v[2 * j - d + 1 + offset] == Reach(a, b, d - 1, j)
    ensures 0 < d && !FromAbove(a, b, d, j) ==> 0 < j && v[2 * j - d - 1 + offset] == Reach(a, b, d - 1, j - 1)
  {
    hide Reach;
    if d > 0 {
      assert 0 < j ==> v[Slot(offset, d - 1, j - 1)] == Reach(a, b, d - 1, j - 1);
      assert j < d ==> v[Slot(offset, d - 1, j)] == Reach(a, b, d - 1, j);
    }
  }

  /** A write elsewhere leaves a frontier alone. */
  lemma FrontierKept<T>(a: seq<T>, b: seq<T>, v: seq<int>, offset: nat, d: nat, hi: nat, at: nat, x: int)
    requires HoldsFrontier(a, b, v, offset, d, hi) && at < |v|
    requires forall j: nat | j < hi :: Slot(offset, d, j) != at
    ensures HoldsFrontier(a, b, v[at := x], offset, d, hi)
  {
    hide Reach;
    forall j: nat | j < hi ensures v[at := x][Slot(offset, d, j)] == Reach(a, b, d, j) {
      assert v[Slot(offset, d, j)] == Reach(a, b, d, j);
    }
  }

  lemma FrontierExtends<T>(a: seq<T>, b: seq<T>, v: seq<int>, offset: nat, d: nat, j: nat)
    requires j <= d && HoldsFrontier(a, b, v, offset, d, j) && v[Slot(offset, d, j)] == Reach(a, b, d, j)
    ensures HoldsFrontier(a, b, v, offset, d, j + 1)
  {
    hide Reach, Slot;
  }

  /** Writing one point adds it to this round's frontier and leaves the round
      before, of the other parity, alone. */
  lemma FrontierGrows<T>(a: seq<T>, b: seq<T>, v: seq<int>, offset: nat, d: nat, j: nat)
    requires j <= d <= offset && |v| == 2 * offset + 1
    requires HoldsFrontier(a, b, v, offset, d, j)
    requires 0 < d ==> ReadyFor(a, b, v, offset, d)
    ensures var v' := v[Slot(offset, d, j) := Reach(a, b, d, j)];
            HoldsFrontier(a, b, v', offset, d, j + 1) && (0 < d ==> ReadyFor(a, b, v', offset, d))
  {
    hide Reach, HoldsFrontier;
    var at, x := Slot(offset, d, j), Reach(a, b, d, j);
    FrontierKept(a, b, v, offset, d, j, at, x);
    FrontierExtends(a, b, v[at := x], offset, d, j);
    if d > 0 {
      FrontierKept(a, b, v, offset, d - 1, d, at, x);
    }
  }

  /** The greedy search. Its loop has no bound of its own: it stops because the
      corner is reached in round `Rounds(a, b)`, at most `|a| + |b|`. */
  method MyersTrace<T(==)>(a: seq<T>, b: seq<T>) returns (trace: seq<seq<int>>)
    ensures IsTrace(a, b, trace)
  {
    hide Rounds, HoldsFrontier, Deletions;
    var max := |a| + |b|;
    trace := [];
    if max == 0 {
      return;
    }
    var v := new int[2 * max + 1](_ => 0);
    var d := 0;
    CornerOnRound(a, b);
    while true
      invariant 0 <= d <= Rounds(a, b) && |trace| == d
      invariant ReadyFor(a, b, v[..], max, d)
      invariant forall e | 0 <= e < d :: ReadyFor(a, b, trace[e], max, e)
      decreases max - d
    {
      trace := trace + [v[..]];
      var hit := Round(a, b, v, max, d);
      if hit {
        return;
      }
      d := d + 1;
    }
  }

  /** Round `d` of the search, in place over the frontier of the round before.
      The corner is hit in the last round and in no other. */
  method Round<T(==)>(a: seq<T>, b: seq<T>, v: array<int>, offset: nat, d: nat) returns (hit: bool)
    requires offset == |a| + |b| && d <= Rounds(a, b) && ReadyFor(a, b, v[..], offset, d)
    modifies v
    ensures hit <==> d == Rounds(a, b)
    ensures !hit ==> ReadyFor(a, b, v[..], offset, d + 1)
  {
    hide Rounds, HoldsFrontier, Deletions, Reach, FromAbove, Slide;
    CornerOnRound(a, b);
    var k: int := -(d as int);
    ghost var j: nat := 0;
    assert HoldsFrontier(a, b, v[..], offset, d, 0) by {
      NoneHeldYet(a, b, v[..], offset, d);
    }
    while k <= d
      invariant k == 2 * j - d && j <= d + 1
      invariant j == 0 || 0 < d ==> ReadyFor(a, b, v[..], offset, d)
      invariant HoldsFrontier(a, b, v[..], offset, d, j)
      invariant d == Rounds(a, b) ==> j <= Deletions(a, b)
      decreases d - k
    {
      ghost var before := v[..];
      ChoiceIsTieRule(a, b, before, offset, d, j);
      var x := if k + d == 0 || (k != d && v[k - 1 + offset] < v[k + 1 + offset]) then v[k + 1 + offset] else v[k - 1 + offset] + 1;
      assert x == Entry(a, b, d, j);
      x := Follow(a, b, x, k);
      assert x == Reach(a, b, d, j) by {
        ReachIsSlide(a, b, d, j);
      }
      FrontierGrows(a, b, before, offset, d, j);
      v[k + offset] := x;
      assert v[..] == before[Slot(offset, d, j) := x];
      HitIsCorner(a, b, d, j);
      if x >= |a| && x - k >= |b| {
        return true;
      }
      k := k + 2;
      j := j + 1;
    }
    return false;
  }

  lemma NoneHeldYet<T>(a: seq<T>, b: seq<T>, v: seq<int>, offset: nat, d: nat)
    requires |v| == 2 * offset + 1 && d <= offset
    ensures HoldsFrontier(a, b, v, offset, d, 0)
  {
  }

  lemma ReachIsSlide<T>(a: seq<T>, b: seq<T>, d: nat, j: nat)
    requires j <= d
    ensures Reach(a, b, d, j) == Slide(a, b, Entry(a, b, d, j), EntryY(a, b, d, j))
  {
  }

  /** Slides down diagonal `k` from `from`. */
  method Follow<T(==)>(a: seq<T>, b: seq<T>, from: nat, k: int) returns (x: nat)
    requires 0 <= from - k
    ensures x == Slide(a, b, from, from - k)
  {
    x := from;
    var y := x - k;
    while x < |a| && y < |b| && a[x] == b[y]
      invariant y == x - k && 0 <= y
      invariant Slide(a, b, x, y) == Slide(a, b, from, from - k)
      decreases |a| - x
    {
      x := x + 1;
      y := y + 1;
    }
  }

  function Reversed<T>(s: seq<T>): (r: seq<T>)
    ensures |r| == |s|
  {
    if s == [] then [] else Reversed(s[1..]) + [s[0]]
  }

  lemma {:induction false} ReversedAppend<T>(s: seq<T>, x: T)
    ensures Reversed(s + [x]) == [x] + Reversed(s)
  {
    if s == [] {
      assert s + [x] == [x];
    } else {
      assert (s + [x])[1..] == s[1..] + [x];
      ReversedAppend(s[1..], x);
    }
  }

  lemma {:induction false} ReversedConcat(s: seq<Step>, t: seq<Step>)
    ensures Reversed(s + t) == Reversed(t) + Reversed(s)
  {
    if t == [] {
      assert s + t == s;
    } else {
      var init := t[..|t| - 1];
      assert t == init + [t[|t| - 1]] && s + t == (s + init) + [t[|t| - 1]];
      ReversedAppend(s + init, t[|t| - 1]);
      ReversedAppend(init, t[|t| - 1]);
      ReversedConcat(s, init);
    }
  }

  lemma {:induction false} ReversedKeeps(count: nat)
    ensures Reversed(Keeps(count)) == Keeps(count)
  {
    if count > 0 {
      assert Keeps(count)[1..] == Keeps(count - 1);
      ReversedKeeps(count - 1);
    }
  }

  /** The walk back stands at `(x, y)`, the frontier point of round `r - 1` with
      `j` deletions, and has pushed the rest of the script, last step first. */
  ghost predicate OnPath<T>(a: seq<T>, b: seq<T>, r: nat, j: nat, x: int, y: int, pushed: seq<Step>) {
    if r == 0 then Script(a, b) == Reversed(pushed)
    else
      && j < r
      && x == Reach(a, b, r - 1, j) && y == ReachY(a, b, r - 1, j)
      && Script(a, b) == Path(a, b, r - 1, j) + Reversed(pushed)
  }

  /** What one round of the walk pushes, coming from `(x, y)` back to `(x', y')`. */
  function Unwound(d: nat, x: int, y: int, x': int, y': int): seq<Step> {
    var kept := if x <= x' || y <= y' then 0 else Min(x - x', y - y');
    Keeps(kept) + if d == 0 then [] else if x - kept > x' then [Drop] else [Add]
  }

  /** The edit a round makes. */
  ghost function EditOf<T>(a: seq<T>, b: seq<T>, d: nat, j: nat): seq<Step>
    requires j <= d
  {
    if d == 0 then [] else if FromAbove(a, b, d, j) then [Add] else [Drop]
  }

  /** One round's pushes are that round's part of the path, reversed. */
  lemma UnwoundIsRound<T>(a: seq<T>, b: seq<T>, v: seq<int>, offset: nat, d: nat, j: nat)
    requires j <= d && ReadyFor(a, b, v, offset, d)
    ensures var k := 2 * j - d;
            var k' := if ComesDown(v, offset, d, k) then k + 1 else k - 1;
            var x' := v[k' + offset];
            && Entry(a, b, d, j) <= Reach(a, b, d, j)
            && Unwound(d, Reach(a, b, d, j), ReachY(a, b, d, j), x', x' - k') ==
               Keeps(Reach(a, b, d, j) - Entry(a, b, d, j)) + EditOf(a, b, d, j)
  {
    hide Reach, Slide, Dist, ReadyFor, ComesDown, FromAbove;
    ChoiceIsTieRule(a, b, v, offset, d, j);
    SlideOfRound(a, b, d, j);
  }

  /** Pushing a slide and then its edit is prepending the edit and the slide. */
  lemma PushedRound(rest: seq<Step>, edit: seq<Step>, count: nat, pushed: seq<Step>)
    requires |edit| <= 1
    ensures rest + Reversed(pushed + (Keeps(count) + edit)) == rest + edit + Keeps(count) + Reversed(pushed)
    ensures edit == [] ==> Reversed(pushed + (Keeps(count) + edit)) == Keeps(count) + Reversed(pushed)
  {
    hide Reversed;
    ReversedConcat(pushed, Keeps(count) + edit);
    ReversedConcat(Keeps(count), edit);
    ReversedKeeps(count);
    ReversedEdit(edit);
  }

  lemma ReversedEdit(edit: seq<Step>)
    requires |edit| <= 1
    ensures Reversed(edit) == edit
  {
    if |edit| == 1 {
      assert edit[1..] == [];
    }
  }

  /** The round of the walk back that undoes round `d` ends on the frontier point
      round `d` came from. */
  lemma UnwindStaysOnPath<T>(
    a: seq<T>, b: seq<T>, v: seq<int>, offset: nat, d: nat, j: nat, x: int, y: int, pushed: seq<Step>) returns (i: nat)
    requires ReadyFor(a, b, v, offset, d)
    requires OnPath(a, b, d + 1, j, x, y, pushed)
    ensures var k' := if ComesDown(v, offset, d, x - y) then x - y + 1 else x - y - 1;
            && 0 <= k' + offset < |v|
            && var x' := v[k' + offset];
               OnPath(a, b, d, i, x', x' - k', pushed + Unwound(d, x, y, x', x' - k'))
  {
    hide Reach, Slide, Dist, HoldsFrontier, FromAbove, Script, Entry, Unwound, Path, Reversed;
    var k' := if ComesDown(v, offset, d, x - y) then x - y + 1 else x - y - 1;
    var x', count := v[k' + offset], Reach(a, b, d, j) - Entry(a, b, d, j);
    UnwoundIsRound(a, b, v, offset, d, j);
    ChoiceIsTieRule(a, b, v, offset, d, j);
    i := if ComesDown(v, offset, d, x - y) then j else j - 1;
    PathByRounds(a, b, d, j);
    PushedRound(if d == 0 then [] else Path(a, b, d - 1, i), EditOf(a, b, d, j), count, pushed);
  }

  /** A path is the path of the round before, one edit, and a slide. */
  lemma PathByRounds<T>(a: seq<T>, b: seq<T>, d: nat, j: nat)
    requires j <= d
    ensures Entry(a, b, d, j) <= Reach(a, b, d, j)
    ensures var slid := Keeps(Reach(a, b, d, j) - Entry(a, b, d, j));
            && (d == 0 ==> Path(a, b, d, j) == slid)
            && (0 < d && FromAbove(a, b, d, j) ==> Path(a, b, d, j) == Path(a, b, d - 1, j) + EditOf(a, b, d, j) + slid)
            && (0 < d && !FromAbove(a, b, d, j) ==> Path(a, b, d, j) == Path(a, b, d - 1, j - 1) + EditOf(a, b, d, j) + slid)
  {
    hide Reach, Slide, Dist, Entry, FromAbove;
    SlideOfRound(a, b, d, j);
  }

  lemma WalkStarts<T>(a: seq<T>, b: seq<T>)
    ensures OnPath(a, b, if |a| + |b| == 0 then 0 else Rounds(a, b) + 1, Deletions(a, b), |a|, |b|, [])
  {
    hide Reach, Dist, Rounds, Deletions, Path;
    CornerOnRound(a, b);
    HitIsCorner(a, b, Rounds(a, b), Deletions(a, b));
    assert Script(a, b) + Reversed([]) == Script(a, b);
    if |a| + |b| == 0 {
      ScriptLeads(a, b);
    }
  }

  /** Undoes the rounds of a trace from the last to the first: the pushes, reversed,
      are the search's own path. */
  method Backtrack<T>(ghost a: seq<T>, ghost b: seq<T>, n: nat, m: nat, trace: seq<seq<int>>) returns (steps: seq<Step>)
    requires n == |a| && m == |b| && IsTrace(a, b, trace)
    ensures steps == Script(a, b)
  {
    hide Reach, Rounds, Script, Path, Unwound, HoldsFrontier, Deletions;
    steps := [];
    var x, y: int := n, m;
    var offset := n + m;
    ghost var j := Deletions(a, b);
    WalkStarts(a, b);
    for d := |trace| downto 0
      invariant OnPath(a, b, d, j, x, y, steps)
    {
      var v := trace[d];
      var k := x - y;
      j := UnwindStaysOnPath(a, b, v, offset, d, j, x, y, steps);
      var prevK := if k + d == 0 || (k != d && v[k - 1 + offset] < v[k + 1 + offset]) then k + 1 else k - 1;
      var prevX := v[prevK + offset];
      var prevY := prevX - prevK;
      steps := Unwind(d, x, y, prevX, prevY, steps);
      x := prevX;
      y := prevY;
    }
    steps := Reversed(steps);
  }

  /** The pushes of one round: a Keep while both coordinates can come down, then
      the edit. */
  method Unwind(d: nat, fromX: int, fromY: int, prevX: int, prevY: int, pushed: seq<Step>) returns (steps: seq<Step>)
    ensures steps == pushed + Unwound(d, fromX, fromY, prevX, prevY)
  {
    steps := pushed;
    var x, y := fromX, fromY;
    while x > prevX && y > prevY
      invariant 0 <= fromX - x == fromY - y
      invariant fromX > prevX && fromY > prevY ==> x >= prevX && y >= prevY
      invariant !(fromX > prevX && fromY > prevY) ==> x == fromX
      invariant steps == pushed + Keeps(fromX - x)
    {
      assert Keeps(fromX - x + 1) == Keeps(fromX - x) + [Keep];
      steps := steps + [Keep];
      x := x - 1;
      y := y - 1;
    }
    if d > 0 {
      // The round's one edit, told by which coordinate changes.
      if x > prevX {
        steps := steps + [Drop];
      } else {
        steps := steps + [Add];
      }
    }
  }

  /** The three stages composed: `OpsAreCorrect` says what the result is good for. */
  method Compute<T(==)>(a: seq<T>, b: seq<T>) returns (ops: seq<DiffOp>)
    ensures ops == Ops(a, b)
  {
    var trace := MyersTrace(a, b);
    var moves := Backtrack(a, b, |a|, |b|, trace);
    ops := Coalesce(moves);
  }
}
