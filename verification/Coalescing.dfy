/** How steps become runs. */
module Coalescing {
  import opened EditGraph
  import opened EditScript

  /** `steps` leads from the starts of `a` and `b` to `(x, y)`. */
  ghost predicate StepsLeadTo<T>(a: seq<T>, b: seq<T>, steps: seq<Step>, x: int, y: int)
    decreases steps
  {
    if steps == [] then x == 0 && y == 0
    else
      var before := steps[..|steps| - 1];
      match steps[|steps| - 1]
      case Keep => Match(a, b, x - 1, y - 1) && StepsLeadTo(a, b, before, x - 1, y - 1)
      case Drop => 0 < x <= |a| && StepsLeadTo(a, b, before, x - 1, y)
      case Add => 0 < y <= |b| && StepsLeadTo(a, b, before, x, y - 1)
  }

  /** How many edits `steps` makes. */
  ghost function EditCount(steps: seq<Step>): nat {
    if steps == [] then 0
    else EditCount(steps[..|steps| - 1]) + if steps[|steps| - 1].Keep? then 0 else 1
  }

  /** No insertion is directly followed by a deletion. */
  ghost predicate DeletesFirst(steps: seq<Step>) {
    forall i | 0 < i < |steps| :: !(steps[i - 1].Add? && steps[i].Drop?)
  }

  function OldCount(steps: seq<Step>): nat {
    if steps == [] then 0
    else OldCount(steps[..|steps| - 1]) + if steps[|steps| - 1].Add? then 0 else 1
  }

  function NewCount(steps: seq<Step>): nat {
    if steps == [] then 0
    else NewCount(steps[..|steps| - 1]) + if steps[|steps| - 1].Drop? then 0 else 1
  }

  function Unit(step: Step, ai: nat, bi: nat): DiffOp {
    match step
    case Keep => Equal(ai, bi, 1)
    case Drop => Delete(ai, 1)
    case Add => Insert(bi, 1)
  }

  function Grown(op: DiffOp): DiffOp {
    match op
    case Equal(a, b, len) => Equal(a, b, len + 1)
    case Delete(a, len) => Delete(a, len + 1)
    case Insert(b, len) => Insert(b, len + 1)
  }

  /** One more step onto the runs so far: it lengthens the last run or starts a new one. */
  function Push(out: seq<DiffOp>, step: Step, ai: nat, bi: nat): seq<DiffOp> {
    var op := Unit(step, ai, bi);
    var n := |out|;
    if n > 0 && SameKind(out[n - 1], op) then out[..n - 1] + [Grown(out[n - 1])] else out + [op]
  }

  /** The runs of a whole script. */
  function Runs(steps: seq<Step>): seq<DiffOp> {
    if steps == [] then []
    else
      var before := steps[..|steps| - 1];
      Push(Runs(before), steps[|steps| - 1], OldCount(before), NewCount(before))
  }

  /** The counters of the loop say where the path is. */
  lemma {:induction false} CountsArePlace<T>(a: seq<T>, b: seq<T>, steps: seq<Step>, x: int, y: int)
    requires StepsLeadTo(a, b, steps, x, y)
    ensures OldCount(steps) == x && NewCount(steps) == y
  {
    if steps != [] {
      var step := steps[|steps| - 1];
      CountsArePlace(a, b, steps[..|steps| - 1], if step.Add? then x else x - 1, if step.Drop? then y else y - 1);
    }
  }

  /** Coalescing keeps the path and its cost. */
  lemma {:induction false} RunsKeepPath<T>(a: seq<T>, b: seq<T>, steps: seq<Step>, x: nat, y: nat)
    requires StepsLeadTo(a, b, steps, x, y)
    ensures LeadsTo(a, b, Runs(steps), x, y)
    ensures Cost(Runs(steps)) == EditCount(steps)
  {
    hide LeadsTo, Cost, Push, StepsLeadTo, Runs, EditCount, OldCount, NewCount;
    StepsUnfold(a, b, steps, x, y);
    if steps != [] {
      var before, step := steps[..|steps| - 1], steps[|steps| - 1];
      var x0, y0 := if step.Add? then x else x - 1, if step.Drop? then y else y - 1;
      CountsArePlace(a, b, before, x0, y0);
      RunsKeepPath(a, b, before, x0, y0);
      PushKeepsPath(a, b, Runs(before), step, x0, y0);
    }
  }

  // One step's worth of each of these, and where it leaves the path.
  lemma StepsUnfold<T>(a: seq<T>, b: seq<T>, steps: seq<Step>, x: int, y: int)
    requires StepsLeadTo(a, b, steps, x, y)
    ensures steps == [] ==> x == 0 && y == 0 && LeadsTo(a, b, Runs(steps), x, y) && Cost(Runs(steps)) == EditCount(steps) == 0
    ensures steps != [] ==>
              var before, step := steps[..|steps| - 1], steps[|steps| - 1];
              var x0, y0 := if step.Add? then x else x - 1, if step.Drop? then y else y - 1;
              && 0 <= x0 <= |a| && 0 <= y0 <= |b| && StepsLeadTo(a, b, before, x0, y0)
              && (step.Keep? ==> Match(a, b, x0, y0)) && (step.Drop? ==> x0 < |a|) && (step.Add? ==> y0 < |b|)
              && Runs(steps) == Push(Runs(before), step, OldCount(before), NewCount(before))
              && EditCount(steps) == EditCount(before) + if step.Keep? then 0 else 1
  {
    hide Push;
    StepsStayInside(a, b, steps, x, y);
    if steps != [] {
      var before, step := steps[..|steps| - 1], steps[|steps| - 1];
      StepsStayInside(a, b, before, if step.Add? then x else x - 1, if step.Drop? then y else y - 1);
    }
  }

  lemma {:induction false} StepsStayInside<T>(a: seq<T>, b: seq<T>, steps: seq<Step>, x: int, y: int)
    requires StepsLeadTo(a, b, steps, x, y)
    ensures 0 <= x <= |a| && 0 <= y <= |b|
  {
    if steps != [] {
      var step := steps[|steps| - 1];
      StepsStayInside(a, b, steps[..|steps| - 1], if step.Add? then x else x - 1, if step.Drop? then y else y - 1);
    }
  }

  /** Coalescing steps that delete first gives every hunk its shape. */
  lemma {:induction false} RunsAreHunked(steps: seq<Step>)
    requires DeletesFirst(steps)
    ensures Hunked(Runs(steps))
    ensures steps != [] ==>
              Runs(steps) != [] && SameKind(Runs(steps)[|Runs(steps)| - 1], Unit(steps[|steps| - 1], 0, 0))
  {
    if steps != [] {
      var before, step := steps[..|steps| - 1], steps[|steps| - 1];
      RunsAreHunked(before);
      assert before != [] ==> before[|before| - 1] == steps[|steps| - 2];
      hide Hunked, Push;
      PushKeepsShape(Runs(before), step, OldCount(before), NewCount(before));
    }
  }

  lemma PushKeepsPath<T>(a: seq<T>, b: seq<T>, out: seq<DiffOp>, step: Step, x: nat, y: nat)
    requires LeadsTo(a, b, out, x, y)
    requires step.Keep? ==> Match(a, b, x, y)
    requires step.Drop? ==> x < |a|
    requires step.Add? ==> y < |b|
    requires x <= |a| && y <= |b|
    ensures LeadsTo(a, b, Push(out, step, x, y), if step.Add? then x else x + 1, if step.Drop? then y else y + 1)
    ensures Cost(Push(out, step, x, y)) == Cost(out) + if step.Keep? then 0 else 1
  {
    var pushed := Push(out, step, x, y);
    var n := |out|;
    if n > 0 && SameKind(out[n - 1], Unit(step, x, y)) {
      assert pushed[..n - 1] == out[..n - 1] && |pushed| == n;
      if step.Keep? {
        RunGrows(a, b, out[n - 1], x, y);
      }
    } else {
      assert pushed[..n] == out && |pushed| == n + 1;
    }
  }

  lemma RunGrows<T>(a: seq<T>, b: seq<T>, op: DiffOp, x: nat, y: nat)
    requires op.Equal? && op.a <= x && op.b <= y && Match(a, b, x, y) && a[op.a..x] == b[op.b..y]
    ensures a[op.a..x + 1] == b[op.b..y + 1]
  {
    assert a[op.a..x + 1] == a[op.a..x] + [a[x]];
    assert b[op.b..y + 1] == b[op.b..y] + [b[y]];
  }

  lemma PushKeepsShape(out: seq<DiffOp>, step: Step, x: nat, y: nat)
    requires Hunked(out)
    requires out != [] && out[|out| - 1].Insert? ==> !step.Drop?
    ensures Hunked(Push(out, step, x, y))
    ensures Push(out, step, x, y) != []
    ensures SameKind(Push(out, step, x, y)[|Push(out, step, x, y)| - 1], Unit(step, 0, 0))
  {
  }

  /** Merges like steps into runs, as the loop does: the last run of `out` grows
      in place, or a new one is pushed. */
  method Coalesce(steps: seq<Step>) returns (out: seq<DiffOp>)
    ensures out == Runs(steps)
  {
    out := [];
    var ai, bi := 0, 0;
    for i := 0 to |steps|
      invariant out == Runs(steps[..i])
      invariant ai == OldCount(steps[..i]) && bi == NewCount(steps[..i])
    {
      assert steps[..i + 1][..|steps[..i + 1]| - 1] == steps[..i];
      match steps[i] {
        case Keep =>
          if |out| > 0 && out[|out| - 1].Equal? {
            out := out[..|out| - 1] + [Grown(out[|out| - 1])];
          } else {
            out := out + [Equal(ai, bi, 1)];
          }
          ai, bi := ai + 1, bi + 1;
        case Drop =>
          if |out| > 0 && out[|out| - 1].Delete? {
            out := out[..|out| - 1] + [Grown(out[|out| - 1])];
          } else {
            out := out + [Delete(ai, 1)];
          }
          ai := ai + 1;
        case Add =>
          if |out| > 0 && out[|out| - 1].Insert? {
            out := out[..|out| - 1] + [Grown(out[|out| - 1])];
          } else {
            out := out + [Insert(bi, 1)];
          }
          bi := bi + 1;
      }
    }
    assert steps[..|steps|] == steps;
  }
}
