/** From an accepted plan to its commit: the two halves meet. */
module FileAtomic {
  import opened Options
  import opened Paths
  import opened Disks
  import opened FilePlan
  import opened FileMeaning
  import opened FileWorld
  import opened FilePlanned
  import opened FileUndo
  import opened FileSteps
  import opened FileCommit

  // Aside names

  lemma {:induction false} DecimalDigits(n: nat)
    ensures |Decimal(n)| > 0 && '-' !in Decimal(n)
  {
    if n >= 10 {
      DecimalDigits(n / 10);
    }
  }

  lemma DigitInjective(i: nat, j: nat)
    requires i < 10 && j < 10 && "0123456789"[i] == "0123456789"[j]
    ensures i == j
  {
  }

  lemma DecimalLast(n: nat)
    ensures Decimal(n) == (if n < 10 then [] else Decimal(n / 10)) + ["0123456789"[n % 10]]
  {
  }

  lemma {:induction false} DecimalInjective(m: nat, n: nat)
    requires Decimal(m) == Decimal(n)
    ensures m == n
    decreases m
  {
    hide Decimal;
    DecimalLast(m);
    DecimalLast(n);
    var s, l := Decimal(m), |Decimal(m)| - 1;
    var p, q := if m < 10 then [] else Decimal(m / 10), if n < 10 then [] else Decimal(n / 10);
    assert p == s[..l] == q;
    assert s[l] == "0123456789"[m % 10] == "0123456789"[n % 10];
    DigitInjective(m % 10, n % 10);
    DecimalDigits(m / 10);
    DecimalDigits(n / 10);
    if m >= 10 {
      DecimalInjective(m / 10, n / 10);
    }
  }

  lemma AfterLastDash(x: string, d: string, y: string, e: string)
    requires x + "-" + d == y + "-" + e && '-' !in d && '-' !in e
    ensures d == e
  {
    var s := x + "-" + d;
    assert s[|x|] == '-' && s[|y|] == '-';
    assert forall i | |x| < i < |s| :: s[i] == d[i - |x| - 1];
    assert forall i | |y| < i < |s| :: s[i] == e[i - |y| - 1];
    assert |x| == |y|;
    assert d == s[|x| + 1..] && e == s[|y| + 1..];
  }

  /** `name` is the aside name numbered `k` of something. */
  ghost predicate AsideNumbered(name: string, pid: string, k: nat) {
    exists base: string :: name == AsideName(base, pid, k)
  }

  lemma OneNumber(name: string, pid: string, j: nat, k: nat)
    requires AsideNumbered(name, pid, j) && AsideNumbered(name, pid, k)
    ensures j == k
  {
    var b: string :| name == AsideName(b, pid, j);
    var c: string :| name == AsideName(c, pid, k);
    DecimalDigits(j);
    DecimalDigits(k);
    AfterLastDash("." + b + ".bish-deleted-" + pid, Decimal(j), "." + c + ".bish-deleted-" + pid, Decimal(k));
    DecimalInjective(j, k);
  }

  /** No component of `path` is an aside name numbered `lo` or more. */
  ghost predicate Plain(path: Path, pid: string, lo: nat) {
    forall i, k: nat | 0 <= i < |path| && lo <= k :: !AsideNumbered(path[i], pid, k)
  }

  lemma PlainConcat(p: Path, q: Path, pid: string, lo: nat)
    ensures Plain(p + q, pid, lo) <==> Plain(p, pid, lo) && Plain(q, pid, lo)
  {
    hide AsideNumbered;
    if Plain(p + q, pid, lo) {
      forall i, k: nat | 0 <= i < |p| && lo <= k ensures !AsideNumbered(p[i], pid, k) {
        assert (p + q)[i] == p[i];
      }
      forall i, k: nat | 0 <= i < |q| && lo <= k ensures !AsideNumbered(q[i], pid, k) {
        assert (p + q)[|p| + i] == q[i];
      }
    }
  }

  lemma AsideIsNotPlain(path: Path, pid: string, lo: nat, n: nat, q: Path)
    requires lo <= n && Under(q, AsideFor(path, pid, n))
    ensures !Plain(q, pid, lo)
  {
    var aside := AsideFor(path, pid, n);
    var name := aside[|aside| - 1];
    assert AsideNumbered(name, pid, n);
    assert q[|aside| - 1] == q[..|aside|][|aside| - 1] == name;
  }

  lemma AsideIsPlainAbove(path: Path, pid: string, n: nat)
    requires path != [] && Plain(path, pid, n)
    ensures Plain(AsideFor(path, pid, n), pid, n + 1)
  {
    var aside := AsideFor(path, pid, n);
    forall i, k: nat | 0 <= i < |aside| && n + 1 <= k ensures !AsideNumbered(aside[i], pid, k) {
      if i < |path| - 1 {
        assert aside[i] == path[i];
      } else if AsideNumbered(aside[i], pid, k) {
        assert AsideNumbered(aside[i], pid, n);
        OneNumber(aside[i], pid, n, k);
      }
    }
  }

  /** The tree without what a commit has put aside. */
  ghost function Visible(t: Tree, pid: string, lo: nat): Tree {
    map q | q in t && Plain(q, pid, lo) :: t[q]
  }

  /** A commit in progress that numbered its first aside `lo` and will number its
      next `n`: put the asides aside, and the tree is the planned one. */
  ghost predicate InStep(t: Tree, planned: Tree, pid: string, lo: nat, n: nat) {
    && WellFormed(t) && lo <= n
    && Visible(t, pid, lo) == planned
    && forall q | q in t :: Plain(q, pid, n)
  }

  ghost predicate PlainAction(action: Action, pid: string, lo: nat) {
    match action
    case DoCreate(path) => Plain(path, pid, lo)
    case DoRename(from, to) => Plain(from, pid, lo) && Plain(to, pid, lo)
    case DoDelete(path) => Plain(path, pid, lo)
  }

  lemma PlainMoved(path: Path, from: Path, to: Path, pid: string, lo: nat)
    requires Under(path, from)
    ensures Plain(path, pid, lo) <==> Plain(from, pid, lo) && Plain(path[|from|..], pid, lo)
    ensures Plain(Moved(path, from, to), pid, lo) <==> Plain(to, pid, lo) && Plain(path[|from|..], pid, lo)
  {
    hide Plain;
    assert path == from + path[|from|..];
    PlainConcat(from, path[|from|..], pid, lo);
    PlainConcat(to, path[|from|..], pid, lo);
  }

  /** Renaming between plain names, the asides stay out of sight. */
  lemma VisibleRelocate(t: Tree, from: Path, to: Path, pid: string, lo: nat)
    requires Plain(from, pid, lo) && Plain(to, pid, lo)
    ensures Visible(Relocate(t, from, to), pid, lo) == Relocate(Visible(t, pid, lo), from, to)
  {
    hide Plain, Relocate;
    var seen := Visible(t, pid, lo);
    var left, right := Visible(Relocate(t, from, to), pid, lo), Relocate(seen, from, to);
    forall q ensures q in left <==> q in right
      ensures q in left ==> left[q] == right[q]
    {
      RelocateAt(t, from, to, q);
      RelocateAt(seen, from, to, q);
      if Under(q, to) {
        PlainMoved(q, to, from, pid, lo);
      }
    }
  }

  /** Putting something aside is deleting it, as far as can be seen. */
  lemma VisibleAside(t: Tree, path: Path, pid: string, lo: nat, n: nat)
    requires lo <= n
    ensures Visible(Relocate(t, path, AsideFor(path, pid, n)), pid, lo) == Without(Visible(t, pid, lo), path)
  {
    hide Plain, Relocate, AsideFor;
    var aside := AsideFor(path, pid, n);
    var left, right := Visible(Relocate(t, path, aside), pid, lo), Without(Visible(t, pid, lo), path);
    forall q ensures q in left <==> q in right
      ensures q in left ==> left[q] == right[q]
    {
      RelocateAt(t, path, aside, q);
      if Under(q, aside) {
        AsideIsNotPlain(path, pid, lo, n, q);
      }
    }
  }

  lemma PlainAfterRelocate(t: Tree, from: Path, to: Path, pid: string, n: nat)
    requires forall q | q in t :: Plain(q, pid, n)
    requires Plain(to, pid, n)
    ensures forall q | q in Relocate(t, from, to) :: Plain(q, pid, n)
  {
    hide Plain, Relocate;
    forall q | q in Relocate(t, from, to) ensures Plain(q, pid, n) {
      RelocateAt(t, from, to, q);
      if Under(q, to) && Moved(q, to, from) in t {
        PlainMoved(q, to, from, pid, n);
      }
    }
  }

  lemma PlainWeaken(path: Path, pid: string, lo: nat, n: nat)
    requires lo <= n && Plain(path, pid, lo)
    ensures Plain(path, pid, n)
  {
    hide AsideNumbered;
  }

  lemma NoParentsToMake(t: Tree, path: Path)
    requires path != [] && Parent(path).value in t
    ensures WithParents(t, path) == t && CanMakeParents(t, path)
  {
    assert MissingAbove(t, path) == [];
  }

  /** A step that fits the planned tree fits the disk, finds its target free, and
      keeps the two in step. */
  lemma StepKeepsInStep(t: Tree, planned: Tree, action: Action, pid: string, lo: nat, n: nat)
    requires InStep(t, planned, pid, lo, n) && Fits(planned, action) && PlainAction(action, pid, lo)
    ensures var aside := AsideOf(action, pid, n);
            && TargetFree(t, action, aside)
            && Possible(t, action, aside)
            && InStep(Effect(t, action, aside), Apply(planned, action, File("")), pid, lo, After(action, n))
  {
    match action
    case DoCreate(path) => CreateInStep(t, planned, path, pid, lo, n);
    case DoRename(from, to) => RenameInStep(t, planned, from, to, pid, lo, n);
    case DoDelete(path) => DeleteInStep(t, planned, path, pid, lo, n);
  }

  lemma CreateInStep(t: Tree, planned: Tree, path: Path, pid: string, lo: nat, n: nat)
    requires InStep(t, planned, pid, lo, n) && CanMake(planned, path) && Plain(path, pid, lo)
    ensures Possible(t, DoCreate(path), [])
    ensures InStep(Effect(t, DoCreate(path), []), planned[path := File("")], pid, lo, n)
  {
    hide Plain, WithParents, CanMakeParents;
    NoParentsToMake(t, path);
    MakeKeepsWellFormed(t, path, File(""));
    PlainWeaken(path, pid, lo, n);
  }

  lemma RenameInStep(t: Tree, planned: Tree, from: Path, to: Path, pid: string, lo: nat, n: nat)
    requires InStep(t, planned, pid, lo, n) && CanRename(planned, from, to) && to !in planned
    requires Plain(from, pid, lo) && Plain(to, pid, lo)
    ensures TargetFree(t, DoRename(from, to), []) && Possible(t, DoRename(from, to), [])
    ensures InStep(Effect(t, DoRename(from, to), []), Relocate(planned, from, to), pid, lo, n)
  {
    hide Plain, WithParents, CanMakeParents, Relocate;
    NoParentsToMake(t, to);
    RenameKeepsWellFormed(t, from, to);
    VisibleRelocate(t, from, to, pid, lo);
    PlainWeaken(to, pid, lo, n);
    PlainAfterRelocate(t, from, to, pid, n);
  }

  lemma DeleteInStep(t: Tree, planned: Tree, path: Path, pid: string, lo: nat, n: nat)
    requires InStep(t, planned, pid, lo, n) && path in planned && path != []
    ensures var aside := AsideFor(path, pid, n);
            && aside !in t
            && CanRename(t, path, aside)
            && InStep(Relocate(t, path, aside), Without(planned, path), pid, lo, n + 1)
  {
    var aside := AsideFor(path, pid, n);
    AsideBeside(path, pid, n);
    assert Plain(path, pid, n);
    hide Plain, Relocate, AsideFor;
    assert Under(aside, aside);
    AsideIsNotPlain(path, pid, n, n, aside);
    RenameKeepsWellFormed(t, path, aside);
    VisibleAside(t, path, pid, lo, n);
    AsideIsPlainAbove(path, pid, n);
    forall q | q in t ensures Plain(q, pid, n + 1) {
      PlainWeaken(q, pid, n, n + 1);
    }
    PlainAfterRelocate(t, path, aside, pid, n + 1);
  }

  lemma AsideBeside(path: Path, pid: string, n: nat)
    requires path != []
    ensures var aside := AsideFor(path, pid, n);
            aside != [] && |aside| == |path| && Parent(aside) == Parent(path) && (Under(aside, path) ==> aside == path)
  {
  }

  lemma {:induction false} GroundedAt(t: Tree, changes: seq<Action>, i: nat)
    requires Grounded(t, changes) && i < |changes|
    ensures Fits(Forward(t, changes[..i]), changes[i])
    ensures Forward(t, changes[..i + 1]) == Apply(Forward(t, changes[..i]), changes[i], File(""))
    decreases |changes|
  {
    var before := changes[..|changes| - 1];
    assert changes[..i + 1][..i] == changes[..i];
    if i < |changes| - 1 {
      GroundedAt(t, before, i);
      assert before[..i] == changes[..i];
    }
  }

  lemma {:induction false} RunKeepsInStep(
    start: Tree, changes: seq<Action>, i: nat, t: Tree, pid: string, lo: nat, n: nat)
    returns (last: nat)
    requires Grounded(start, changes) && i <= |changes|
    requires forall j | 0 <= j < |changes| :: PlainAction(changes[j], pid, lo)
    requires InStep(t, Forward(start, changes[..i]), pid, lo, n)
    ensures FreeRun(t, changes[i..], pid, n) && PossibleRun(t, changes[i..], pid, n)
    ensures InStep(RunAll(t, changes[i..], pid, n), Forward(start, changes), pid, lo, last)
    decreases |changes| - i
  {
    hide InStep, Forward, Grounded, PlainAction, Possible, Effect, TargetFree, AsideOf, After;
    if i == |changes| {
      assert changes[..i] == changes;
      last := n;
    } else {
      var action := changes[i];
      GroundedAt(start, changes, i);
      StepKeepsInStep(t, Forward(start, changes[..i]), action, pid, lo, n);
      assert changes[i..][0] == action && changes[i..][1..] == changes[i + 1..];
      last := RunKeepsInStep(start, changes, i + 1, Effect(t, action, AsideOf(action, pid, n)), pid, lo, After(action, n));
    }
  }

  /** Nothing on the disk or in the plan is named like an aside this process has
      yet to name. */
  ghost predicate NamesAreFree(t: Tree, changes: seq<Action>, pid: string, number: nat) {
    && (forall q | q in t :: Plain(q, pid, number))
    && forall j | 0 <= j < |changes| :: PlainAction(changes[j], pid, number)
  }

  /** A plan that fits its tree runs: every step is possible, every target free,
      and what it leaves is the planned tree with the deleted files put aside. */
  lemma GroundedPlanRuns(t: Tree, changes: seq<Action>, pid: string, number: nat)
    requires WellFormed(t) && Grounded(t, changes) && NamesAreFree(t, changes, pid, number)
    ensures FreeRun(t, changes, pid, number) && PossibleRun(t, changes, pid, number)
    ensures Visible(RunAll(t, changes, pid, number), pid, number) == Forward(t, changes)
  {
    assert Visible(t, pid, number) == t;
    assert changes[..0] == [] && changes[0..] == changes;
    assert Forward(t, []) == t;
    var last := RunKeepsInStep(t, changes, 0, t, pid, number, number);
  }

  /** Planning then committing, as a workspace edit does. Refused by the planner, it
      touches nothing. Otherwise it does what `CommitOn` says of the planned steps;
      and when the plan's provisos hold and its aside names are free, either all that
      the operations mean is there (with what they delete put aside, and every bit of
      it can be taken back) or nothing changed, short of a refusal while taking
      back; and what stops it is its last call's refusal. */
  method Carry(disk: Disk, names: AsideNames, operations: seq<(nat, Operation)>, unsaved: seq<Path>)
    returns (done: Option<Done>, ghost end: nat)
    requires WellFormed(disk.tree)
    modifies disk, names`next
    ensures done.Some? ==> fresh(done.value)
    ensures old(disk.calls) <= end <= disk.calls
    ensures var planned := PlanAll(old(disk.tree), Planner([], unsaved), operations);
            if planned.Err? then
              done.None? && disk.tree == old(disk.tree) && disk.calls == old(disk.calls) && names.next == old(names.next)
            else
              var changes := Actions(planned.value.steps);
              var went := CommitOn(disk.refuses, Fresh(old(disk.tree), old(disk.calls), old(names.next)), changes, names.pid);
              && done.Some? == went.ok
              && disk.tree == went.trail.tree && disk.calls == went.trail.calls && names.next == went.trail.number
              && (done.Some? ==> done.value.undo == went.trail.log && done.value.aside == went.trail.aside)
              && (Sensible(old(disk.tree), changes) && NamesAreFree(old(disk.tree), changes, names.pid, old(names.next)) ==>
                    && (done.Some? <==> Unrefused(disk.refuses, old(disk.calls), end))
                    && (done.Some? ==>
                          && Visible(disk.tree, names.pid, old(names.next)) == MeantAll(old(disk.tree), operations, File(""))
                          && RunUndo(disk.tree, done.value.undo) == old(disk.tree))
                    && (done.None? ==> old(disk.calls) < end && disk.refuses(end - 1))
                    && (done.None? && Unrefused(disk.refuses, end, disk.calls) ==> disk.tree == old(disk.tree)))
  {
    hide Sensible, NamesAreFree, Visible, Forward, RunUndo, WellFormed, Grounded, PlanAll, CleanRun, FreeRun, PossibleRun,
         RunAll, CommitOn, Unrefused, MeantAll, Origins, Carried;
    ghost var s := Fresh(disk.tree, disk.calls, names.next);
    end := disk.calls;
    var plan := Plan(disk, operations, unsaved);
    if plan.Err? {
      return None, end;
    }
    ghost var changes := Actions(plan.value);
    if Sensible(s.tree, changes) && NamesAreFree(s.tree, changes, names.pid, s.number) {
      AcceptedFitsIffSensible(s.tree, unsaved, operations);
      AcceptedDoesWhatIsMeant(s.tree, unsaved, operations);
      GroundedPlanRuns(s.tree, changes, names.pid, s.number);
      FreeRunIsClean(disk.refuses, s, changes, names.pid);
    }
    done, end := Commit(disk, names, plan.value);
  }
}
