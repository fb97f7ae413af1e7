/** The alignment and the marks that a diff gives a buffer's lines, and that the
    two agree. */
module Gutter {
  import opened Options
  import opened EditScript
  import opened Placement
  import Diff

  type Line = string

  /** The old line that an Equal run among the first `hi` ops pairs `line` with. */
  function OldLine(ops: seq<DiffOp>, hi: nat, line: nat): Option<nat>
    requires hi <= |ops|
  {
    if hi == 0 then None
    else
      var op := ops[hi - 1];
      if op.Equal? && op.b <= line < op.b + op.len then Some(op.a + (line - op.b))
      else OldLine(ops, hi - 1, line)
  }

  /** For each new line, the old line that an Equal run pairs it with. */
  ghost function Alignment(old_: seq<Line>, new_: seq<Line>): (al: seq<Option<nat>>)
    ensures |al| == |new_|
  {
    var ops := Diff.Ops(old_, new_);
    seq(|new_|, i requires 0 <= i < |new_| => OldLine(ops, |ops|, i))
  }

  /** Lines up the buffer's lines with an older version's, slot by slot. */
  method AlignTo(old_: seq<Line>, new_: seq<Line>) returns (aligned: seq<Option<nat>>)
    ensures aligned == Alignment(old_, new_)
  {
    hide Alignment;
    var out := new Option<nat>[|new_|](_ => None);
    var ops := Diff.Compute(old_, new_);
    for i := 0 to |ops|
      invariant forall line | 0 <= line < |new_| :: out[line] == OldLine(ops, i, line)
    {
      match ops[i] {
        case Equal(a, b, len) =>
          for k := 0 to len
            invariant forall line | 0 <= line < |new_| ::
                        out[line] == if b <= line < b + k then Some(a + (line - b)) else OldLine(ops, i, line)
          {
            if b + k < out.Length {
              out[b + k] := Some(a + k);
            }
          }
        case Delete(_, _) =>
        case Insert(_, _) =>
      }
    }
    aligned := out[..];
    AlignmentAt(old_, new_, aligned);
  }

  lemma AlignmentAt(old_: seq<Line>, new_: seq<Line>, al: seq<Option<nat>>)
    requires |al| == |new_|
    requires var ops := Diff.Ops(old_, new_);
             forall line | 0 <= line < |new_| :: al[line] == OldLine(ops, |ops|, line)
    ensures al == Alignment(old_, new_)
  {
  }

  /** What a covered line's op says about its alignment. */
  lemma {:induction false} OldLineCovered<T>(a: seq<T>, b: seq<T>, ops: seq<DiffOp>, hi: nat, i: nat, line: nat)
    requires Placed(a, b, ops) && i < hi <= |ops|
    requires NewAt(ops, i) <= line < NewAt(ops, i + 1)
    ensures ops[i].Equal? ==> OldLine(ops, hi, line) == Some(OldAt(ops, i) + (line - NewAt(ops, i)))
    ensures !ops[i].Equal? ==> OldLine(ops, hi, line) == None
    decreases hi
  {
    assert OpPlaced(a, b, ops, hi - 1);
    if i < hi - 1 {
      AtMonotone(ops, i + 1, hi - 1);
      OldLineCovered(a, b, ops, hi - 1, i, line);
    } else {
      assert OpPlaced(a, b, ops, i);
      if !ops[i].Equal? {
        NotCoveredBefore(a, b, ops, i, line);
      }
    }
  }

  lemma {:induction false} NotCoveredBefore<T>(a: seq<T>, b: seq<T>, ops: seq<DiffOp>, hi: nat, line: nat)
    requires Placed(a, b, ops) && hi <= |ops| && NewAt(ops, hi) <= line
    ensures OldLine(ops, hi, line) == None
    decreases hi
  {
    if hi > 0 {
      assert OpPlaced(a, b, ops, hi - 1);
      NotCoveredBefore(a, b, ops, hi - 1, line);
    }
  }

  /** The alignment pairs equal lines, in order. */
  lemma AlignmentIsCorrect(old_: seq<Line>, new_: seq<Line>)
    ensures var al := Alignment(old_, new_);
            && (forall j | 0 <= j < |al| && al[j].Some? :: al[j].value < |old_| && old_[al[j].value] == new_[j])
            && (forall i, j | 0 <= i < j < |al| && al[i].Some? && al[j].Some? :: al[i].value < al[j].value)
  {
    var ops, al := Diff.Ops(old_, new_), Alignment(old_, new_);
    Diff.OpsAreCorrect(old_, new_);
    TilesArePlaced(old_, new_, ops);
    forall j | 0 <= j < |al| && al[j].Some?
      ensures al[j].value < |old_| && old_[al[j].value] == new_[j]
    {
      PairIsEqual(old_, new_, ops, j);
    }
    forall i, j | 0 <= i < j < |al| && al[i].Some? && al[j].Some?
      ensures al[i].value < al[j].value
    {
      PairsInOrder(old_, new_, ops, i, j);
    }
  }

  lemma PairIsEqual<T>(a: seq<T>, b: seq<T>, ops: seq<DiffOp>, line: nat)
    requires Placed(a, b, ops) && line < |b| && OldLine(ops, |ops|, line).Some?
    ensures var p := OldLine(ops, |ops|, line).value; p < |a| && a[p] == b[line]
  {
    hide OldLine;
    var i := Covering(ops, |ops|, line);
    OldLineCovered(a, b, ops, |ops|, i, line);
    assert OpPlaced(a, b, ops, i);
    var op := ops[i];
    assert a[op.a..op.a + op.len][line - op.b] == b[op.b..op.b + op.len][line - op.b];
  }

  lemma PairsInOrder<T>(a: seq<T>, b: seq<T>, ops: seq<DiffOp>, i: nat, j: nat)
    requires Placed(a, b, ops) && i < j < |b|
    requires OldLine(ops, |ops|, i).Some? && OldLine(ops, |ops|, j).Some?
    ensures OldLine(ops, |ops|, i).value < OldLine(ops, |ops|, j).value
  {
    hide OldLine;
    var p := Covering(ops, |ops|, i);
    var q := Covering(ops, |ops|, j);
    OldLineCovered(a, b, ops, |ops|, p, i);
    OldLineCovered(a, b, ops, |ops|, q, j);
    if p < q {
      AtMonotone(ops, p + 1, q);
    } else if q < p {
      AtMonotone(ops, q + 1, p);
    }
  }

  datatype DiffMark = Added | Changed | Removed

  /** One past the old line of the nearest aligned line above `line`. */
  function Above(al: seq<Option<nat>>, line: nat): nat
    requires line <= |al|
  {
    if line == 0 then 0
    else if al[line - 1].Some? then al[line - 1].value + 1
    else Above(al, line - 1)
  }

  /** The old line of the nearest aligned line from `line` on, or `n` past the end. */
  function Below(al: seq<Option<nat>>, n: nat, line: nat): nat
    requires line <= |al|
    decreases |al| - line
  {
    if line == |al| then n
    else if al[line].Some? then al[line].value
    else Below(al, n, line + 1)
  }

  /** Old lines are missing between the aligned lines around `line`. */
  predicate Gap(al: seq<Option<nat>>, n: nat, line: nat)
    requires line <= |al|
  {
    Above(al, line) < Below(al, n, line)
  }

  /** What a line's mark means, from the alignment alone: an unaligned line is
      new, or changed when old lines went missing at the same place; an aligned
      line carries a deletion that no new line stands for, just below it or, for
      the first line, just above. */
  function MarkOf(al: seq<Option<nat>>, n: nat, line: nat): Option<DiffMark>
    requires line < |al|
  {
    if al[line].None? then Some(if Gap(al, n, line) then Changed else Added)
    else if (line + 1 == |al| || al[line + 1].Some?) && Gap(al, n, line + 1) then Some(Removed)
    else if line == 0 && Gap(al, n, 0) then Some(Removed)
    else None
  }

  /** The whole gutter. A buffer with no lines marks line 0 for what it lost. */
  function Marks(al: seq<Option<nat>>, n: nat): map<nat, DiffMark> {
    if al == [] then if n > 0 then map[0 := Removed] else map[]
    else map line: nat | line < |al| && MarkOf(al, n, line).Some? :: MarkOf(al, n, line).value
  }

  /** `len` lines from `b` on, all with the one mark. */
  function MarkedRun(b: nat, len: nat, mark: DiffMark): map<nat, DiffMark> {
    if len == 0 then map[] else MarkedRun(b, len - 1, mark)[b + len - 1 := mark]
  }

  lemma {:induction false} MarkedRunHas(b: nat, len: nat, mark: DiffMark, line: nat)
    ensures line in MarkedRun(b, len, mark) <==> b <= line < b + len
    ensures line in MarkedRun(b, len, mark) ==> MarkedRun(b, len, mark)[line] == mark
    decreases len
  {
    if len > 0 {
      MarkedRunHas(b, len - 1, mark, line);
    }
  }

  /** What op `i` puts in the gutter. */
  function Stamp(ops: seq<DiffOp>, m: nat, i: nat): map<nat, DiffMark>
    requires i < |ops|
  {
    match ops[i]
    case Equal(_, _, _) => map[]
    case Insert(b, len) =>
      MarkedRun(b, len, if i > 0 && ops[i - 1].Delete? then Changed else Added)
    case Delete(_, _) =>
      if i + 1 < |ops| && ops[i + 1].Insert? then map[]
      else
        var resume := if i + 1 < |ops| && ops[i + 1].Equal? then ops[i + 1].b else m;
        map[(if resume == 0 then 0 else resume - 1) := Removed]
  }

  function Stamps(ops: seq<DiffOp>, m: nat, hi: nat): map<nat, DiffMark>
    requires hi <= |ops|
  {
    if hi == 0 then map[] else Stamps(ops, m, hi - 1) + Stamp(ops, m, hi - 1)
  }

  /** The gutter's marks. The case the source calls unreachable, a Delete right
      after a Delete, really is: hunks have their shape. */
  method MarksFromDiff(old_: seq<Line>, new_: seq<Line>) returns (marks: map<nat, DiffMark>)
    ensures marks == Marks(Alignment(old_, new_), |old_|)
  {
    var ops := Diff.Compute(old_, new_);
    assert Hunked(ops) by {
      Diff.OpsAreCorrect(old_, new_);
    }
    hide Diff.Ops, Alignment, Marks, MarkedRun, Stamps, Hunked;
    marks := map[];
    NoStamps(ops, |new_|);
    var i := 0;
    while i < |ops|
      invariant 0 <= i <= |ops|
      invariant marks == Stamps(ops, |new_|, i)
      invariant 0 < i < |ops| && ops[i - 1].Delete? ==> !ops[i].Insert?
    {
      StampsStep(ops, |new_|, i);
      if i + 1 < |ops| {
        HunkShape(ops, i + 1);
        StampsStep(ops, |new_|, i + 1);
      }
      match ops[i] {
        case Equal(_, _, _) =>
          i := i + 1;
        case Insert(b, len) =>
          marks := MarkRun(marks, b, len, Added);
          i := i + 1;
        case Delete(_, _) =>
          if i + 1 < |ops| && ops[i + 1].Insert? {
            marks := MarkRun(marks, ops[i + 1].b, ops[i + 1].len, Changed);
            i := i + 2;
          } else {
            marks := MarkDeletion(marks, ops, |new_|, i);
            i := i + 1;
          }
      }
    }
    StampsAreMarks(old_, new_);
  }

  /** A deletion nothing replaces, marked beside where the next run resumes. */
  method MarkDeletion(marks: map<nat, DiffMark>, ops: seq<DiffOp>, m: nat, i: nat) returns (marked: map<nat, DiffMark>)
    requires i < |ops| && ops[i].Delete? && (i + 1 < |ops| ==> ops[i + 1].Equal?)
    ensures marked == marks + Stamp(ops, m, i)
  {
    var newLine;
    if i + 1 == |ops| {
      newLine := m;
    } else {
      newLine := ops[i + 1].b;
    }
    marked := marks[(if newLine == 0 then 0 else newLine - 1) := Removed];
  }

  method MarkRun(marks: map<nat, DiffMark>, b: nat, len: nat, mark: DiffMark) returns (marked: map<nat, DiffMark>)
    ensures marked == marks + MarkedRun(b, len, mark)
  {
    marked := marks;
    for line := b to b + len
      invariant marked == marks + MarkedRun(b, line - b, mark)
    {
      assert (marks + MarkedRun(b, line - b, mark))[line := mark] == marks + MarkedRun(b, line - b, mark)[line := mark];
      marked := marked[line := mark];
    }
  }

  lemma StampsStep(ops: seq<DiffOp>, m: nat, i: nat)
    requires i < |ops|
    ensures Stamps(ops, m, i + 1) == Stamps(ops, m, i) + Stamp(ops, m, i)
    ensures ops[i].Equal? || Stamp(ops, m, i) == map[] ==> Stamps(ops, m, i + 1) == Stamps(ops, m, i)
  {
  }

  lemma NoStamps(ops: seq<DiffOp>, m: nat)
    ensures Stamps(ops, m, 0) == map[]
  {
  }

  /** One past the last old line kept before op `i`. */
  function LastKept(ops: seq<DiffOp>, i: nat): nat
    requires i <= |ops|
  {
    if i == 0 then 0 else if ops[i - 1].Equal? then OldAt(ops, i) else LastKept(ops, i - 1)
  }

  /** The first old line kept from op `i` on. */
  function NextKept(ops: seq<DiffOp>, i: nat): nat
    requires i <= |ops|
    decreases |ops| - i
  {
    if i == |ops| || ops[i].Equal? then OldAt(ops, i) else NextKept(ops, i + 1)
  }

  ghost predicate Laid<T>(a: seq<T>, b: seq<T>, ops: seq<DiffOp>, al: seq<Option<nat>>) {
    && Placed(a, b, ops) && Hunked(ops)
    && |al| == |b|
    && forall line: nat | line < |al| :: al[line] == OldLine(ops, |ops|, line)
  }

  lemma HunkShape(ops: seq<DiffOp>, i: nat)
    requires Hunked(ops) && 0 < i < |ops|
    ensures !SameKind(ops[i - 1], ops[i]) && !(ops[i - 1].Insert? && ops[i].Delete?)
  {
  }

  lemma LaidAt<T>(a: seq<T>, b: seq<T>, ops: seq<DiffOp>, al: seq<Option<nat>>, i: nat)
    requires Laid(a, b, ops, al) && i < |ops|
    ensures OpPlaced(a, b, ops, i)
    ensures NewAt(ops, i + 1) <= |al|
    ensures i + 1 < |ops| ==> !SameKind(ops[i], ops[i + 1]) && !(ops[i].Insert? && ops[i + 1].Delete?)
    ensures i > 0 ==> !SameKind(ops[i - 1], ops[i]) && !(ops[i - 1].Insert? && ops[i].Delete?)
  {
    AtMonotone(ops, i + 1, |ops|);
    assert i + 1 < |ops| ==> !SameKind(ops[i + 1 - 1], ops[i + 1]);
  }

  lemma LineOf<T>(a: seq<T>, b: seq<T>, ops: seq<DiffOp>, al: seq<Option<nat>>, i: nat, t: nat)
    requires Laid(a, b, ops, al) && i < |ops| && t < NewLen(ops[i])
    ensures NewAt(ops, i) + t < |al|
    ensures ops[i].Equal? ==> al[NewAt(ops, i) + t] == Some(OldAt(ops, i) + t)
    ensures !ops[i].Equal? ==> al[NewAt(ops, i) + t] == None
  {
    hide OldLine;
    LaidAt(a, b, ops, al, i);
    OldLineCovered(a, b, ops, |ops|, i, NewAt(ops, i) + t);
  }

  /** What lies above a place `t` lines into op `i`. */
  lemma {:induction false} AboveIs<T>(a: seq<T>, b: seq<T>, ops: seq<DiffOp>, al: seq<Option<nat>>, i: nat, t: nat)
    requires Laid(a, b, ops, al) && i <= |ops| && t <= (if i < |ops| then NewLen(ops[i]) else 0)
    ensures NewAt(ops, i) + t <= |al|
    ensures Above(al, NewAt(ops, i) + t) ==
            if t > 0 && ops[i].Equal? then OldAt(ops, i) + t else LastKept(ops, i)
    decreases i, t
  {
    hide Laid;
    if t > 0 {
      LineOf(a, b, ops, al, i, t - 1);
      AboveIs(a, b, ops, al, i, t - 1);
    } else if i > 0 {
      AboveIs(a, b, ops, al, i - 1, NewLen(ops[i - 1]));
      LaidAt(a, b, ops, al, i - 1);
    }
  }

  /** What lies below it. */
  lemma {:induction false} BelowIs<T>(a: seq<T>, b: seq<T>, ops: seq<DiffOp>, al: seq<Option<nat>>, i: nat, t: nat)
    requires Laid(a, b, ops, al) && i <= |ops| && t <= (if i < |ops| then NewLen(ops[i]) else 0)
    ensures NewAt(ops, i) + t <= |al|
    ensures Below(al, |a|, NewAt(ops, i) + t) ==
            if i < |ops| && ops[i].Equal? && t < ops[i].len then OldAt(ops, i) + t
            else if i < |ops| then NextKept(ops, if t == 0 then i else i + 1)
            else NextKept(ops, i)
    decreases |ops| - i, |al| - t
  {
    if i < |ops| {
      LaidAt(a, b, ops, al, i);
      hide Laid, Hunked, Placed, OpPlaced, SameKind;
      if t < NewLen(ops[i]) {
        LineOf(a, b, ops, al, i, t);
        if ops[i].Insert? {
          BelowIs(a, b, ops, al, i, t + 1);
        }
      } else {
        BelowIs(a, b, ops, al, i + 1, 0);
      }
    } else {
      LaidToEnd(a, b, ops, al);
    }
  }

  lemma LaidToEnd<T>(a: seq<T>, b: seq<T>, ops: seq<DiffOp>, al: seq<Option<nat>>)
    requires Laid(a, b, ops, al)
    ensures NewAt(ops, |ops|) == |al| && OldAt(ops, |ops|) == |a|
  {
  }

  /** Whether old lines went missing at the start of op `i`. */
  lemma GapAt<T>(a: seq<T>, b: seq<T>, ops: seq<DiffOp>, al: seq<Option<nat>>, i: nat)
    requires Laid(a, b, ops, al) && i <= |ops|
    ensures NewAt(ops, i) <= |al|
    ensures Gap(al, |a|, NewAt(ops, i)) <==> LastKept(ops, i) < NextKept(ops, i)
  {
    hide Laid, Above, Below, LastKept;
    AboveIs(a, b, ops, al, i, 0);
    BelowIs(a, b, ops, al, i, 0);
  }

  lemma {:induction false} StampIsMark<T>(a: seq<T>, b: seq<T>, ops: seq<DiffOp>, al: seq<Option<nat>>, i: nat, line: nat)
    requires Laid(a, b, ops, al) && i < |ops| && al != []
    requires line in Stamp(ops, |b|, i)
    ensures line < |al| && MarkOf(al, |a|, line) == Some(Stamp(ops, |b|, i)[line])
  {
    LaidAt(a, b, ops, al, i);
    if ops[i].Insert? {
      MarkedRunHas(ops[i].b, ops[i].len, if i > 0 && ops[i - 1].Delete? then Changed else Added, line);
      InsertIsMark(a, b, ops, al, i, line - ops[i].b);
    } else {
      DeleteIsMark(a, b, ops, al, i);
    }
  }

  lemma InsertIsMark<T>(a: seq<T>, b: seq<T>, ops: seq<DiffOp>, al: seq<Option<nat>>, i: nat, t: nat)
    requires Laid(a, b, ops, al) && i < |ops| && ops[i].Insert? && t < ops[i].len
    ensures NewAt(ops, i) + t < |al|
    ensures MarkOf(al, |a|, NewAt(ops, i) + t) == Some(if i > 0 && ops[i - 1].Delete? then Changed else Added)
  {
    LaidAt(a, b, ops, al, i);
    if i > 0 {
      LaidAt(a, b, ops, al, i - 1);
    }
    hide Laid, Above, Below;
    LineOf(a, b, ops, al, i, t);
    AboveIs(a, b, ops, al, i, t);
    BelowIs(a, b, ops, al, i, t);
    assert NextKept(ops, i) == OldAt(ops, i);
  }

  lemma DeleteIsMark<T>(a: seq<T>, b: seq<T>, ops: seq<DiffOp>, al: seq<Option<nat>>, i: nat)
    requires Laid(a, b, ops, al) && i < |ops| && ops[i].Delete? && al != []
    requires !(i + 1 < |ops| && ops[i + 1].Insert?)
    ensures var resume := if i + 1 < |ops| && ops[i + 1].Equal? then ops[i + 1].b else |b|;
            var line := if resume == 0 then 0 else resume - 1;
            && line < |al| && MarkOf(al, |a|, line) == Some(Removed)
            && resume == NewAt(ops, i)
  {
    LaidAt(a, b, ops, al, i);
    if i > 0 {
      LaidAt(a, b, ops, al, i - 1);
      LineOf(a, b, ops, al, i - 1, NewLen(ops[i - 1]) - 1);
    }
    if i + 1 < |ops| {
      LaidAt(a, b, ops, al, i + 1);
      LineOf(a, b, ops, al, i + 1, 0);
    }
    GapAt(a, b, ops, al, i);
    assert LastKept(ops, i) == OldAt(ops, i);
    assert NextKept(ops, i) == OldAt(ops, i + 1);
  }

  /** The line a deletion's mark is said to go on: the one where the next run
      resumes, or the last. */
  function NamedLine(ops: seq<DiffOp>, m: nat, i: nat): nat {
    if i + 1 < |ops| && ops[i + 1].Equal? then ops[i + 1].b else if m == 0 then 0 else m - 1
  }

  /** It goes there exactly when nothing is left to resume or it resumes at the top;
      anywhere else it goes on the line before. */
  lemma MarkedAsNamed<T>(a: seq<T>, b: seq<T>, ops: seq<DiffOp>, al: seq<Option<nat>>, i: nat)
    requires Laid(a, b, ops, al) && i < |ops| && ops[i].Delete?
    requires !(i + 1 < |ops| && ops[i + 1].Insert?)
    ensures NamedLine(ops, |b|, i) in Stamp(ops, |b|, i) <==> i + 1 == |ops| || NewAt(ops, i) == 0
    ensures i + 1 < |ops| && NewAt(ops, i) > 0 ==> Stamp(ops, |b|, i) == map[NamedLine(ops, |b|, i) - 1 := Removed]
  {
    LaidAt(a, b, ops, al, i);
    if i + 1 < |ops| {
      LaidAt(a, b, ops, al, i + 1);
    } else {
      assert NewAt(ops, |ops|) == |b|;
    }
  }

  /** The line after the first deleted: the next run resumes at line 1, and it is
      line 0 that is marked. */
  lemma MarkedLineBefore(x: Line, y: Line, z: Line)
    requires x != y && y != z && x != z
    ensures Alignment([x, y, z], [x, z]) == [Some(0), Some(2)]
    ensures Marks(Alignment([x, y, z], [x, z]), 3) == map[0 := Removed]
  {
    var old_, new_ := [x, y, z], [x, z];
    var al := Alignment(old_, new_);
    hide Alignment;
    BothKept(x, y, z);
    AlignmentIsLongest(old_, new_, new_);
    AlignmentIsCorrect(old_, new_);
    assert AlignedCount(al, 2) == AlignedCount(al, 1) + if al[1].Some? then 1 else 0;
    assert AlignedCount(al, 1) == AlignedCount(al, 0) + if al[0].Some? then 1 else 0;
    assert al == [Some(0), Some(2)];
    MarksOfTwo(al);
  }

  lemma MarksOfTwo(al: seq<Option<nat>>)
    requires al == [Some(0), Some(2)]
    ensures Marks(al, 3) == map[0 := Removed]
  {
    assert Above(al, 1) == 1 && Below(al, 3, 1) == 2;
    assert Above(al, 2) == 3 && Below(al, 3, 2) == 3;
    assert MarkOf(al, 3, 0) == Some(Removed) && MarkOf(al, 3, 1) == None;
  }

  lemma BothKept(x: Line, y: Line, z: Line)
    ensures IsSubsequence([x, z], [x, y, z]) && IsSubsequence([x, z], [x, z])
  {
    assert Embeds([x, z], [x, y, z], [0, 2]);
    assert Embeds([x, z], [x, z], [0, 1]);
  }

  /** How many of the first `n` lines are aligned. */
  function AlignedCount(al: seq<Option<nat>>, n: nat): nat
    requires n <= |al|
  {
    if n == 0 then 0 else AlignedCount(al, n - 1) + if al[n - 1].Some? then 1 else 0
  }

  lemma {:induction false} AlignedInPrefix<T>(a: seq<T>, b: seq<T>, ops: seq<DiffOp>, al: seq<Option<nat>>, i: nat, t: nat)
    requires Laid(a, b, ops, al) && i <= |ops| && t <= (if i < |ops| then NewLen(ops[i]) else 0)
    ensures NewAt(ops, i) + t <= |al|
    ensures AlignedCount(al, NewAt(ops, i) + t) == |Kept(a, ops[..i])| + if i < |ops| && ops[i].Equal? then t else 0
    decreases i, t
  {
    hide Laid;
    if t > 0 {
      LineOf(a, b, ops, al, i, t - 1);
      AlignedInPrefix(a, b, ops, al, i, t - 1);
    } else if i > 0 {
      LaidAt(a, b, ops, al, i - 1);
      AlignedInPrefix(a, b, ops, al, i - 1, NewLen(ops[i - 1]));
      assert ops[..i][..i - 1] == ops[..i - 1];
    }
  }

  lemma LaidByDiff(old_: seq<Line>, new_: seq<Line>)
    ensures Laid(old_, new_, Diff.Ops(old_, new_), Alignment(old_, new_))
  {
    hide Diff.Ops;
    Diff.OpsAreCorrect(old_, new_);
    TilesArePlaced(old_, new_, Diff.Ops(old_, new_));
  }

  lemma AlignedAreKept(old_: seq<Line>, new_: seq<Line>)
    ensures AlignedCount(Alignment(old_, new_), |new_|) == |Kept(old_, Diff.Ops(old_, new_))|
  {
    hide Alignment, AlignedCount, Kept, Diff.Ops, OldLine, Hunked, OpPlaced, NewLen;
    var ops, al := Diff.Ops(old_, new_), Alignment(old_, new_);
    LaidByDiff(old_, new_);
    AlignedInPrefix(old_, new_, ops, al, |ops|, 0);
    assert ops[..|ops|] == ops;
  }

  /** As many lines are aligned as could be: a longest common subsequence's worth. */
  lemma AlignmentIsLongest(old_: seq<Line>, new_: seq<Line>, common: seq<Line>)
    requires IsSubsequence(common, old_) && IsSubsequence(common, new_)
    ensures |common| <= AlignedCount(Alignment(old_, new_), |new_|)
  {
    hide Alignment, AlignedCount, Kept, Diff.Ops, IsSubsequence, Tiles, Hunked, Replay, Cost;
    AlignedAreKept(old_, new_);
    Diff.OpsAreCorrect(old_, new_);
  }

  /** Every marked line was stamped by some op. */
  lemma {:induction false} MarkIsStamp<T>(a: seq<T>, b: seq<T>, ops: seq<DiffOp>, al: seq<Option<nat>>, line: nat) returns (i: nat)
    requires Laid(a, b, ops, al) && line < |al| && MarkOf(al, |a|, line).Some?
    ensures i < |ops| && line in Stamp(ops, |b|, i)
  {
    i := Covering(ops, |ops|, line);
    LaidAt(a, b, ops, al, i);
    var t := line - NewAt(ops, i);
    LineOf(a, b, ops, al, i, t);
    if ops[i].Equal? {
      AboveIs(a, b, ops, al, i, t + 1);
      BelowIs(a, b, ops, al, i, t + 1);
      if t + 1 == ops[i].len && Gap(al, |a|, line + 1) && (line + 1 == |al| || al[line + 1].Some?) {
        DeletionBelow(a, b, ops, al, i);
        i := i + 1;
      } else {
        assert line == 0 && Gap(al, |a|, 0);
        DeletionAbove(a, b, ops, al, i);
        i := i - 1;
      }
    } else {
      MarkedRunHas(ops[i].b, ops[i].len, if i > 0 && ops[i - 1].Delete? then Changed else Added, line);
    }
  }

  lemma DeletionBelow<T>(a: seq<T>, b: seq<T>, ops: seq<DiffOp>, al: seq<Option<nat>>, i: nat)
    requires Laid(a, b, ops, al) && i < |ops| && ops[i].Equal?
    requires NewAt(ops, i + 1) <= |al| && Gap(al, |a|, NewAt(ops, i + 1))
    requires NewAt(ops, i + 1) == |al| || al[NewAt(ops, i + 1)].Some?
    ensures i + 1 < |ops| && NewAt(ops, i + 1) - 1 in Stamp(ops, |b|, i + 1)
  {
    LaidAt(a, b, ops, al, i);
    GapAt(a, b, ops, al, i + 1);
    assert i + 1 < |ops|;
    LaidAt(a, b, ops, al, i + 1);
    if ops[i + 1].Insert? {
      assert false;
    }
    if i + 2 < |ops| {
      LaidAt(a, b, ops, al, i + 2);
      LineOf(a, b, ops, al, i + 2, 0);
    }
  }

  lemma DeletionAbove<T>(a: seq<T>, b: seq<T>, ops: seq<DiffOp>, al: seq<Option<nat>>, i: nat)
    requires Laid(a, b, ops, al) && i < |ops| && ops[i].Equal?
    requires NewAt(ops, i) == 0 && al != [] && Gap(al, |a|, 0)
    ensures i > 0 && 0 in Stamp(ops, |b|, i - 1)
  {
    LaidAt(a, b, ops, al, i);
    GapAt(a, b, ops, al, i);
    if i > 0 {
      LaidAt(a, b, ops, al, i - 1);
    }
  }

  lemma {:induction false} StampsSound<T>(a: seq<T>, b: seq<T>, ops: seq<DiffOp>, al: seq<Option<nat>>, hi: nat, line: nat)
    requires Laid(a, b, ops, al) && hi <= |ops| && al != []
    requires line in Stamps(ops, |b|, hi)
    ensures line < |al| && MarkOf(al, |a|, line) == Some(Stamps(ops, |b|, hi)[line])
    decreases hi
  {
    hide Laid, MarkOf, Stamp;
    if line in Stamp(ops, |b|, hi - 1) {
      StampIsMark(a, b, ops, al, hi - 1, line);
    } else {
      StampsSound(a, b, ops, al, hi - 1, line);
    }
  }

  lemma {:induction false} StampsKeep(ops: seq<DiffOp>, m: nat, hi: nat, i: nat, line: nat)
    requires i < hi <= |ops| && line in Stamp(ops, m, i)
    ensures line in Stamps(ops, m, hi)
    decreases hi
  {
    hide Stamp;
    if i < hi - 1 {
      StampsKeep(ops, m, hi - 1, i, line);
    }
  }

  lemma EmptyBufferMarks<T>(a: seq<T>, b: seq<T>, ops: seq<DiffOp>)
    requires Placed(a, b, ops) && Hunked(ops) && b == []
    ensures Stamps(ops, |b|, |ops|) == if |a| > 0 then map[0 := Removed] else map[]
  {
    forall i: nat | i < |ops| ensures ops[i].Delete? {
      assert OpPlaced(a, b, ops, i);
      AtMonotone(ops, i + 1, |ops|);
    }
    if |ops| > 1 {
      HunkShape(ops, 1);
      assert false;
    }
    if |ops| == 1 {
      assert OpPlaced(a, b, ops, 0);
    }
  }

  lemma MarksAre(al: seq<Option<nat>>, n: nat, marks: map<nat, DiffMark>)
    requires al != []
    requires forall line: nat | line in marks :: line < |al| && MarkOf(al, n, line) == Some(marks[line])
    requires forall line: nat | line < |al| && MarkOf(al, n, line).Some? :: line in marks
    ensures marks == Marks(al, n)
  {
    hide MarkOf;
  }

  lemma StampsAreMarks(old_: seq<Line>, new_: seq<Line>)
    ensures Stamps(Diff.Ops(old_, new_), |new_|, |Diff.Ops(old_, new_)|) == Marks(Alignment(old_, new_), |old_|)
  {
    var ops, al, m := Diff.Ops(old_, new_), Alignment(old_, new_), |new_|;
    Diff.OpsAreCorrect(old_, new_);
    TilesArePlaced(old_, new_, ops);
    LaidByDiff(old_, new_);
    hide Laid, MarkOf, Stamp, Stamps, Alignment, Diff.Ops, Marks;
    if al == [] {
      EmptyBufferMarks(old_, new_, ops);
    } else {
      var stamps := Stamps(ops, m, |ops|);
      forall line: nat | line in stamps
        ensures line < |al| && MarkOf(al, |old_|, line) == Some(stamps[line])
      {
        StampsSound(old_, new_, ops, al, |ops|, line);
      }
      forall line: nat | line < |al| && MarkOf(al, |old_|, line).Some? ensures line in stamps {
        var i := MarkIsStamp(old_, new_, ops, al, line);
        StampsKeep(ops, m, |ops|, i, line);
      }
      MarksAre(al, |old_|, stamps);
    }
  }

  /** What the editor relies on: the gutter and the alignment agree. A line is
      Added or Changed exactly when nothing old came to it, so a Removed mark
      only ever falls on a line that came from somewhere. */
  lemma GutterAgreesWithAlignment(old_: seq<Line>, new_: seq<Line>, line: nat)
    requires line < |new_|
    ensures var marks, al := Marks(Alignment(old_, new_), |old_|), Alignment(old_, new_);
            && (line in marks && marks[line] != Removed <==> al[line].None?)
            && (line in marks && marks[line] == Removed ==> al[line].Some?)
  {
  }
}
