/** Edit scripts: the steps of one, the runs it is reported as, and what
    either means for the two sequences it relates. */
module EditScript {
  import opened EditGraph

  /** One element's worth of a script. */
  datatype Step = Keep | Drop | Add

  /** A run of like steps, placed in the old sequence, the new one or both. */
  datatype DiffOp =
    | Equal(a: nat, b: nat, len: nat)
    | Delete(a: nat, len: nat)
    | Insert(b: nat, len: nat)

  predicate SameKind(p: DiffOp, q: DiffOp) {
    (p.Equal? && q.Equal?) || (p.Delete? && q.Delete?) || (p.Insert? && q.Insert?)
  }

  /** How far `op` advances in the old and in the new sequence. */
  function OldLen(op: DiffOp): nat { if op.Insert? then 0 else op.len }

  function NewLen(op: DiffOp): nat { if op.Delete? then 0 else op.len }

  function Edits(op: DiffOp): nat { if op.Equal? then 0 else op.len }

  /** `ops` leads from the starts of `a` and `b` to `(x, y)`: every op starts
      where the one before it stopped, none is empty, and an Equal run is the
      same elements on both sides. */
  ghost predicate LeadsTo<T>(a: seq<T>, b: seq<T>, ops: seq<DiffOp>, x: int, y: int)
    decreases ops
  {
    if ops == [] then x == 0 && y == 0
    else
      var op := ops[|ops| - 1];
      && op.len > 0
      && OldLen(op) <= x <= |a| && NewLen(op) <= y <= |b|
      && (!op.Insert? ==> op.a + op.len == x)
      && (!op.Delete? ==> op.b + op.len == y)
      && (op.Equal? ==> a[op.a..x] == b[op.b..y])
      && LeadsTo(a, b, ops[..|ops| - 1], x - OldLen(op), y - NewLen(op))
  }

  /** A complete script: it uses up both sequences, in order. */
  ghost predicate Tiles<T>(a: seq<T>, b: seq<T>, ops: seq<DiffOp>) {
    LeadsTo(a, b, ops, |a|, |b|)
  }

  /** The elements deleted plus the elements inserted. */
  ghost function Cost(ops: seq<DiffOp>): nat {
    if ops == [] then 0 else Cost(ops[..|ops| - 1]) + Edits(ops[|ops| - 1])
  }

  /** The elements of `a` a script keeps, in order. */
  ghost function Kept<T>(a: seq<T>, ops: seq<DiffOp>): seq<T> {
    if ops == [] then []
    else
      var op := ops[|ops| - 1];
      Kept(a, ops[..|ops| - 1])
      + (if op.Equal? && op.a + op.len <= |a| then a[op.a..op.a + op.len] else [])
  }

  /** What a script makes of its old sequence: kept runs from `a`, inserted ones from `b`. */
  ghost function Replay<T>(a: seq<T>, b: seq<T>, ops: seq<DiffOp>): seq<T> {
    if ops == [] then []
    else
      var op := ops[|ops| - 1];
      Replay(a, b, ops[..|ops| - 1])
      + match op
        case Equal(x, _, len) => if x + len <= |a| then a[x..x + len] else []
        case Delete(_, _) => []
        case Insert(y, len) => if y + len <= |b| then b[y..y + len] else []
  }

  /** The shape of a hunk: between Equal runs at most one Delete, then at most
      one Insert. */
  predicate Hunked(ops: seq<DiffOp>) {
    forall i | 0 < i < |ops| ::
      !SameKind(ops[i - 1], ops[i]) && !(ops[i - 1].Insert? && ops[i].Delete?)
  }

  /** Every script costs at least the distance of the point it leads to. */
  lemma {:induction false} CostAtLeastDist<T>(a: seq<T>, b: seq<T>, ops: seq<DiffOp>, x: nat, y: nat)
    requires LeadsTo(a, b, ops, x, y)
    ensures Dist(a, b, x, y) <= Cost(ops)
  {
    if ops != [] {
      var op := ops[|ops| - 1];
      CostAtLeastDist(a, b, ops[..|ops| - 1], x - OldLen(op), y - NewLen(op));
      RunDistance(a, b, op, x - OldLen(op), y - NewLen(op), op.len);
    }
  }

  lemma ShorterRun<T>(a: seq<T>, b: seq<T>, x: nat, y: nat, len: nat)
    requires 0 < len && x + len <= |a| && y + len <= |b| && a[x..x + len] == b[y..y + len]
    ensures a[x..x + len - 1] == b[y..y + len - 1] && a[x + len - 1] == b[y + len - 1]
  {
    assert a[x..x + len - 1] == a[x..x + len][..len - 1];
    assert b[y..y + len - 1] == b[y..y + len][..len - 1];
    assert a[x + len - 1] == a[x..x + len][len - 1];
    assert b[y + len - 1] == b[y..y + len][len - 1];
  }

  lemma {:induction false} RunDistance<T>(a: seq<T>, b: seq<T>, op: DiffOp, x: nat, y: nat, len: nat)
    requires op.Equal? ==> x + len <= |a| && y + len <= |b| && a[x..x + len] == b[y..y + len]
    ensures var x1, y1 := if op.Insert? then x else x + len, if op.Delete? then y else y + len;
            Dist(a, b, x1, y1) <= Dist(a, b, x, y) + if op.Equal? then 0 else len
    decreases len
  {
    if len > 0 {
      var m := len - 1;
      match op
      case Equal(_, _, _) =>
        ShorterRun(a, b, x, y, len);
        RunDistance(a, b, op, x, y, m);
        DistDiagonalStep(a, b, x + m, y + m);
      case Delete(_, _) =>
        RunDistance(a, b, op, x, y, m);
        DistLipschitz(a, b, x + m, y);
      case Insert(_, _) =>
        RunDistance(a, b, op, x, y, m);
        DistLipschitz(a, b, x, y + m);
    }
  }

  /** Replaying a script that leads to `(x, y)` writes the first `y` elements of `b`. */
  lemma {:induction false} ReplayWritesNew<T>(a: seq<T>, b: seq<T>, ops: seq<DiffOp>, x: nat, y: nat)
    requires x <= |a| && y <= |b| && LeadsTo(a, b, ops, x, y)
    ensures Replay(a, b, ops) == b[..y]
  {
    if ops != [] {
      var op := ops[|ops| - 1];
      ReplayWritesNew(a, b, ops[..|ops| - 1], x - OldLen(op), y - NewLen(op));
      hide LeadsTo;
      assert b[..y] == b[..y - NewLen(op)] + b[y - NewLen(op)..y];
    }
  }

  /** `c` is a subsequence of `s`, element `i` of it being element `at[i]` of `s`. */
  ghost predicate Embeds<T>(c: seq<T>, s: seq<T>, at: seq<nat>) {
    && |at| == |c|
    && (forall i | 0 <= i < |c| :: at[i] < |s| && s[at[i]] == c[i])
    && (forall i, j | 0 <= i < j < |c| :: at[i] < at[j])
  }

  ghost predicate IsSubsequence<T(!new)>(c: seq<T>, s: seq<T>) {
    exists at: seq<nat> :: Embeds(c, s, at)
  }

  /** `c` is a longest common subsequence of `a` and `b`. */
  ghost predicate IsLongestCommon<T(!new)>(c: seq<T>, a: seq<T>, b: seq<T>) {
    && IsSubsequence(c, a) && IsSubsequence(c, b)
    && forall c': seq<T> | IsSubsequence(c', a) && IsSubsequence(c', b) :: |c'| <= |c|
  }

  /** No common subsequence of the first `x` and the first `y` elements is longer
      than the distance allows. */
  lemma {:induction false} CommonIsBounded<T>(
    a: seq<T>, b: seq<T>, x: nat, y: nat, c: seq<T>, at: seq<nat>, bt: seq<nat>)
    requires x <= |a| && y <= |b|
    requires Embeds(c, a[..x], at) && Embeds(c, b[..y], bt)
    ensures 2 * |c| + Dist(a, b, x, y) <= x + y
    decreases x + y
  {
    var n := |c|;
    if n == 0 {
      DistBounds(a, b, x, y);
    } else if at[n - 1] < x - 1 {
      assert Embeds(c, a[..x - 1], at);
      CommonIsBounded(a, b, x - 1, y, c, at, bt);
      DistLipschitz(a, b, x - 1, y);
    } else if bt[n - 1] < y - 1 {
      assert Embeds(c, b[..y - 1], bt);
      CommonIsBounded(a, b, x, y - 1, c, at, bt);
      DistLipschitz(a, b, x, y - 1);
    } else {
      assert Embeds(c[..n - 1], a[..x - 1], at[..n - 1]);
      assert Embeds(c[..n - 1], b[..y - 1], bt[..n - 1]);
      CommonIsBounded(a, b, x - 1, y - 1, c[..n - 1], at[..n - 1], bt[..n - 1]);
      DistDiagonalStep(a, b, x - 1, y - 1);
    }
  }

  /** A subsequence goes on through a run that starts where its host stopped. */
  lemma RunExtendsSubsequence<T(!new)>(c: seq<T>, s: seq<T>, from: nat, to: nat)
    requires from <= to <= |s| && IsSubsequence(c, s[..from])
    ensures IsSubsequence(c + s[from..to], s[..to])
    ensures IsSubsequence(c, s[..to])
  {
    var at: seq<nat> :| Embeds(c, s[..from], at);
    assert Embeds(c, s[..to], at);
    var c', at' := c + s[from..to], at + seq(to - from, i requires 0 <= i => from + i);
    forall i | 0 <= i < |c'| ensures at'[i] < |s[..to]| && s[..to][at'[i]] == c'[i] {
      if i < |c| {
        assert at[i] < |s[..from]|;
        assert s[..from][at[i]] == c[i];
      }
    }
    assert Embeds(c', s[..to], at');
  }

  /** What a script keeps is a common subsequence. */
  lemma {:induction false} KeptIsCommon<T(!new)>(a: seq<T>, b: seq<T>, ops: seq<DiffOp>, x: nat, y: nat)
    requires x <= |a| && y <= |b| && LeadsTo(a, b, ops, x, y)
    ensures IsSubsequence(Kept(a, ops), a[..x]) && IsSubsequence(Kept(a, ops), b[..y])
  {
    hide IsSubsequence;
    if ops == [] {
      EmptyIsSubsequence(a[..x]);
      EmptyIsSubsequence(b[..y]);
    } else {
      var op := ops[|ops| - 1];
      var kept := Kept(a, ops[..|ops| - 1]);
      var x0, y0 := x - OldLen(op), y - NewLen(op);
      KeptIsCommon(a, b, ops[..|ops| - 1], x0, y0);
      assert Kept(a, ops) == kept + (if op.Equal? then a[x0..x] else []);
      assert op.Equal? ==> a[x0..x] == b[y0..y];
      KeptExtends(a, b, kept, op, x0, y0);
    }
  }

  lemma EmptyIsSubsequence<T(!new)>(s: seq<T>)
    ensures IsSubsequence([], s)
  {
    assert Embeds([], s, []);
  }

  lemma KeptExtends<T(!new)>(a: seq<T>, b: seq<T>, kept: seq<T>, op: DiffOp, x0: nat, y0: nat)
    requires x0 + OldLen(op) <= |a| && y0 + NewLen(op) <= |b|
    requires IsSubsequence(kept, a[..x0]) && IsSubsequence(kept, b[..y0])
    requires op.Equal? ==> a[x0..x0 + op.len] == b[y0..y0 + op.len]
    ensures var kept' := kept + if op.Equal? then a[x0..x0 + op.len] else [];
            IsSubsequence(kept', a[..x0 + OldLen(op)]) && IsSubsequence(kept', b[..y0 + NewLen(op)])
  {
    hide IsSubsequence;
    RunExtendsSubsequence(kept, a, x0, x0 + OldLen(op));
    RunExtendsSubsequence(kept, b, y0, y0 + NewLen(op));
    assert kept + [] == kept;
  }

  /** Every element a script does not keep is one edit. */
  lemma {:induction false} CostIsTheRest<T>(a: seq<T>, b: seq<T>, ops: seq<DiffOp>, x: nat, y: nat)
    requires x <= |a| && y <= |b| && LeadsTo(a, b, ops, x, y)
    ensures Cost(ops) + 2 * |Kept(a, ops)| == x + y
  {
    if ops != [] {
      var op := ops[|ops| - 1];
      CostIsTheRest(a, b, ops[..|ops| - 1], x - OldLen(op), y - NewLen(op));
    }
  }

  /** Minimality in the terms a reader of scripts cares about: a script as cheap
      as the distance is a cheapest one, and keeps a longest common subsequence. */
  lemma CheapestKeepsLongest<T(!new)>(a: seq<T>, b: seq<T>, ops: seq<DiffOp>)
    requires Tiles(a, b, ops) && Cost(ops) == Rounds(a, b)
    ensures forall ops' | Tiles(a, b, ops') :: Cost(ops) <= Cost(ops')
    ensures IsLongestCommon(Kept(a, ops), a, b)
    ensures Cost(ops) == |a| + |b| - 2 * |Kept(a, ops)|
  {
    forall ops' | Tiles(a, b, ops') ensures Cost(ops) <= Cost(ops') {
      CostAtLeastDist(a, b, ops', |a|, |b|);
    }
    assert a[..|a|] == a && b[..|b|] == b;
    KeptIsCommon(a, b, ops, |a|, |b|);
    CostIsTheRest(a, b, ops, |a|, |b|);
    forall c: seq<T> | IsSubsequence(c, a) && IsSubsequence(c, b) ensures |c| <= |Kept(a, ops)| {
      var ct: seq<nat> :| Embeds(c, a, ct);
      var dt: seq<nat> :| Embeds(c, b, dt);
      CommonIsBounded(a, b, |a|, |b|, c, ct, dt);
    }
  }
}
