/** The end of an edit: what it put aside is deleted for good, where it can be found. */
module FileFinish {
  import opened Paths
  import opened Disks
  import opened FilePlan
  import opened FileWorld
  import opened FileUndo
  import opened FileSteps
  import opened FileAtomic
  import opened FileUnseen

  function Finished(t: Tree, aside: Path): Tree {
    if CanRemoveAll(t, aside) then Without(t, aside) else if CanRemoveFile(t, aside) then t - {aside} else t
  }

  /** Each aside removed in its turn, the first at call `calls`. */
  function FinishFrom(refuses: Refusals, calls: nat, t: Tree, asides: seq<Path>): Tree
    decreases asides
  {
    if asides == [] then t
    else FinishFrom(refuses, calls + 1, if refuses(calls) then t else Finished(t, asides[0]), asides[1..])
  }

  /** `Done::finish`: a directory goes with all that is in it, and a failure is let be. */
  method Finish(disk: Disk, asides: seq<Path>)
    modifies disk
    ensures disk.tree == FinishFrom(disk.refuses, old(disk.calls), old(disk.tree), asides)
    ensures disk.calls == old(disk.calls) + |asides|
  {
    assert asides[0..] == asides;
    for i := 0 to |asides|
      invariant disk.calls == old(disk.calls) + i
      invariant FinishFrom(disk.refuses, disk.calls, disk.tree, asides[i..]) ==
                FinishFrom(disk.refuses, old(disk.calls), old(disk.tree), asides)
    {
      assert asides[i..][0] == asides[i] && asides[i..][1..] == asides[i + 1..];
      if IsDirectory(disk.tree, asides[i]) {
        var _ := disk.RemoveAll(asides[i]);
      } else {
        var _ := disk.RemoveFile(asides[i]);
      }
    }
  }

  /** The tree without anything at or under `gone`. */
  function WithoutAll(t: Tree, gone: seq<Path>): Tree {
    map p | p in t && !Gone(p, gone) :: t[p]
  }

  predicate Gone(p: Path, gone: seq<Path>) {
    exists i | 0 <= i < |gone| :: Under(p, gone[i])
  }

  lemma FinishedIsWithout(t: Tree, aside: Path)
    requires WellFormed(t) && aside != []
    ensures Finished(t, aside) == Without(t, aside) && WellFormed(Without(t, aside))
  {
    if aside !in t {
      NothingUnderMissing(t, aside);
    } else if t[aside].File? {
      NothingUnderEmpty(t, aside);
    }
    WithoutKeepsWellFormed(t, aside);
  }

  lemma WithoutKeepsWellFormed(t: Tree, gone: Path)
    requires WellFormed(t) && gone != []
    ensures WellFormed(Without(t, gone))
  {
    forall p | p in Without(t, gone) && p != [] ensures IsDirectory(Without(t, gone), Parent(p).value) {
      if Under(Parent(p).value, gone) {
        ParentAbove(p, gone);
      }
    }
  }

  lemma GoneFirst(p: Path, gone: seq<Path>)
    requires gone != []
    ensures Gone(p, gone) <==> Under(p, gone[0]) || Gone(p, gone[1..])
  {
    if i :| 0 <= i < |gone[1..]| && Under(p, gone[1..][i]) {
      assert Under(p, gone[i + 1]);
    }
    if i :| 0 <= i < |gone| && Under(p, gone[i]) {
      assert i > 0 ==> gone[1..][i - 1] == gone[i];
    }
  }

  /** With nothing refused, everything put aside that is where it was put goes. */
  lemma {:induction false} FinishRemovesAsides(refuses: Refusals, calls: nat, t: Tree, asides: seq<Path>)
    requires WellFormed(t) && [] !in asides && Unrefused(refuses, calls, calls + |asides|)
    ensures FinishFrom(refuses, calls, t, asides) == WithoutAll(t, asides)
    decreases asides
  {
    hide WellFormed, Under, Finished;
    if asides != [] {
      assert asides == [asides[0]] + asides[1..];
      FinishedIsWithout(t, asides[0]);
      var rest := Without(t, asides[0]);
      FinishRemovesAsides(refuses, calls + 1, rest, asides[1..]);
      forall p | p in t ensures Gone(p, asides) <==> Under(p, asides[0]) || Gone(p, asides[1..]) {
        GoneFirst(p, asides);
      }
    }
  }

  // Where the asides are

  /** The names that the deletes among the changes put their paths aside under. */
  function Asides(changes: seq<Action>, pid: string, number: nat): seq<Path> {
    if changes == [] then []
    else
      var n := |changes| - 1;
      Asides(changes[..n], pid, number)
      + if changes[n].DoDelete? then [AsideFor(changes[n].path, pid, NumberAfter(changes[..n], number))] else []
  }

  /** Where those are after the changes: each moved along by every later rename, and
      by every later delete, of something above it. */
  function Ends(changes: seq<Action>, pid: string, number: nat): seq<Path> {
    if changes == [] then []
    else
      var n := |changes| - 1;
      var before := Ends(changes[..n], pid, number);
      match changes[n]
      case DoCreate(_) => before
      case DoRename(from, to) => MoveAll(before, from, to)
      case DoDelete(path) =>
        var aside := AsideFor(path, pid, NumberAfter(changes[..n], number));
        MoveAll(before, path, aside) + [aside]
  }

  lemma {:induction false} AsidesFirst(changes: seq<Action>, pid: string, number: nat)
    requires changes != []
    ensures Asides(changes, pid, number) ==
            (if changes[0].DoDelete? then [AsideFor(changes[0].path, pid, number)] else [])
            + Asides(changes[1..], pid, After(changes[0], number))
    decreases changes
  {
    hide AsideFor;
    var n := |changes| - 1;
    if n > 0 {
      AsidesFirst(changes[..n], pid, number);
      NumberAfterFirst(changes[..n], number);
      assert changes[..n][1..] == changes[1..][..n - 1];
    } else {
      assert changes[..0] == [] && changes[1..] == [];
    }
  }

  /** A commit that goes through remembers exactly those names, in order. */
  lemma {:induction false} CommitRemembersAsides(refuses: Refusals, s: Trail, actions: seq<Action>, pid: string)
    requires WellFormed(s.tree) && StepsOn(refuses, s, actions, pid).ok
    ensures StepsOn(refuses, s, actions, pid).trail.aside == s.aside + Asides(actions, pid, s.number)
    decreases actions
  {
    if actions == [] {
      assert s.aside + [] == s.aside;
    } else {
      FirstOfSteps(refuses, s, actions, pid);
      hide *;
      AsidesFirst(actions, pid, s.number);
      StepRemembers(refuses, s, actions[0], pid);
      var next := StepOn(refuses, s, actions[0], pid).trail;
      CommitRemembersAsides(refuses, next, actions[1..], pid);
      AddedInTurn(s.aside, if actions[0].DoDelete? then [AsideFor(actions[0].path, pid, s.number)] else [],
                  Asides(actions[1..], pid, next.number));
    }
  }

  lemma AddedInTurn(a: seq<Path>, b: seq<Path>, c: seq<Path>)
    ensures a + b + c == a + (b + c)
  {
  }

  lemma FirstOfSteps(refuses: Refusals, s: Trail, actions: seq<Action>, pid: string)
    requires actions != [] && StepsOn(refuses, s, actions, pid).ok
    ensures var went := StepOn(refuses, s, actions[0], pid);
            went.ok && StepsOn(refuses, s, actions, pid) == StepsOn(refuses, went.trail, actions[1..], pid)
  {
    hide StepOn;
  }

  lemma StepRemembers(refuses: Refusals, s: Trail, action: Action, pid: string)
    requires WellFormed(s.tree) && StepOn(refuses, s, action, pid).ok
    ensures var trail := StepOn(refuses, s, action, pid).trail;
            && trail.aside == s.aside + (if action.DoDelete? then [AsideFor(action.path, pid, s.number)] else [])
            && trail.number == After(action, s.number) && WellFormed(trail.tree)
  {
    StepGoes(refuses, s, action, pid, s.tree);
    hide ParentsOn, MissingAbove, CanMake, CanRename, Relocate, WellFormed, AsideFor;
    if action.DoCreate? {
      ParentsFromNone(refuses, s, action.path, s.tree);
    } else if action.DoRename? {
      ParentsFromNone(refuses, s, action.to, s.tree);
    }
  }

  /** All that is out of sight is at or under one of `ends`, each of which is there. */
  ghost predicate HiddenAt(t: Tree, ends: seq<Path>, pid: string, lo: nat) {
    && (forall q | q in t && !Plain(q, pid, lo) :: Gone(q, ends))
    && forall i | 0 <= i < |ends| :: ends[i] in t && !Plain(ends[i], pid, lo)
  }

  lemma NotPlainBelow(q: Path, e: Path, pid: string, lo: nat)
    requires Under(q, e) && !Plain(e, pid, lo)
    ensures !Plain(q, pid, lo)
  {
    hide Plain;
    assert q == e + q[|e|..];
    PlainConcat(e, q[|e|..], pid, lo);
  }

  lemma UnderBoth(q: Path, a: Path, b: Path)
    requires Under(q, a) && Under(q, b)
    ensures if |a| <= |b| then Under(b, a) else Under(a, b)
  {
    if |a| <= |b| {
      assert b[..|a|] == q[..|b|][..|a|] == q[..|a|];
    } else {
      assert a[..|b|] == q[..|a|][..|b|] == q[..|b|];
    }
  }

  lemma MovedUnder(q: Path, e: Path, from: Path, to: Path)
    requires Under(q, e) && Under(e, from)
    ensures Under(q, from) && Under(Moved(q, from, to), Moved(e, from, to))
  {
    assert q[..|from|] == q[..|e|][..|from|];
    assert Moved(q, from, to)[..|to| + |e| - |from|] == to + q[|from|..|e|] == to + e[|from|..];
  }

  lemma GoneAt(q: Path, gone: seq<Path>, i: nat)
    requires i < |gone| && Under(q, gone[i])
    ensures Gone(q, gone)
  {
  }

  /** Where hidden things are after a subtree is moved, out of `from`, which is not
      hidden, to `to`; what lies under `to` and is not covered is the caller's. */
  lemma EndsMoveAlong(t: Tree, ends: seq<Path>, from: Path, to: Path, pid: string, lo: nat, q: Path)
    requires HiddenAt(t, ends, pid, lo) && Plain(from, pid, lo)
    requires q in Relocate(t, from, to)
    requires if Under(q, to) && Moved(q, to, from) in t then !Plain(Moved(q, to, from), pid, lo) else !Plain(q, pid, lo)
    ensures Gone(q, MoveAll(ends, from, to))
  {
    hide Plain, Relocate;
    RelocateAt(t, from, to, q);
    var was := if Under(q, to) && Moved(q, to, from) in t then Moved(q, to, from) else q;
    var i :| 0 <= i < |ends| && Under(was, ends[i]);
    if was != q || (Under(q, to) && Moved(q, to, from) in t) {
      MovedIsUnder(q, to, from);
      UnderBoth(was, ends[i], from);
      if Under(from, ends[i]) {
        NotPlainBelow(from, ends[i], pid, lo);
      }
      MovedUnder(was, ends[i], from, to);
    } else if Under(ends[i], from) {
      MovedUnder(q, ends[i], from, to);
    }
    GoneAt(q, MoveAll(ends, from, to), i);
  }

  lemma EndsStay(t: Tree, ends: seq<Path>, from: Path, to: Path)
    requires forall i | 0 <= i < |ends| :: ends[i] in t
    ensures forall i | 0 <= i < |ends| :: MoveAll(ends, from, to)[i] in Relocate(t, from, to)
  {
    hide Relocate;
    forall i | 0 <= i < |ends| ensures MoveAll(ends, from, to)[i] in Relocate(t, from, to) {
      RelocateAt(t, from, to, MoveAll(ends, from, to)[i]);
      if Under(ends[i], from) {
        MovedIsUnder(ends[i], from, to);
      }
    }
  }

  lemma RenameHides(t: Tree, ends: seq<Path>, from: Path, to: Path, pid: string, lo: nat)
    requires HiddenAt(t, ends, pid, lo) && Plain(from, pid, lo) && Plain(to, pid, lo)
    ensures HiddenAt(Relocate(t, from, to), MoveAll(ends, from, to), pid, lo)
  {
    hide Plain, Relocate, Gone;
    var t', ends' := Relocate(t, from, to), MoveAll(ends, from, to);
    forall q | q in t' && !Plain(q, pid, lo) ensures Gone(q, ends') {
      RelocateAt(t, from, to, q);
      if Under(q, to) {
        PlainMoved(q, to, from, pid, lo);
      }
      EndsMoveAlong(t, ends, from, to, pid, lo, q);
    }
    EndsStay(t, ends, from, to);
    forall i | 0 <= i < |ends'| ensures !Plain(ends'[i], pid, lo) {
      if Under(ends[i], from) {
        PlainMoved(ends[i], from, to, pid, lo);
      }
    }
  }

  lemma DeleteHides(t: Tree, ends: seq<Path>, path: Path, pid: string, lo: nat, n: nat)
    requires HiddenAt(t, ends, pid, lo) && Plain(path, pid, lo) && lo <= n && path in t
    ensures var aside := AsideFor(path, pid, n);
            HiddenAt(Relocate(t, path, aside), MoveAll(ends, path, aside) + [aside], pid, lo)
  {
    hide Plain, Relocate, AsideFor, Gone;
    var aside := AsideFor(path, pid, n);
    var t', moved := Relocate(t, path, aside), MoveAll(ends, path, aside);
    var ends' := moved + [aside];
    forall q | q in t' && !Plain(q, pid, lo) ensures Gone(q, ends') {
      if Under(q, aside) {
        GoneAt(q, ends', |moved|);
      } else {
        RelocateAt(t, path, aside, q);
        EndsMoveAlong(t, ends, path, aside, pid, lo, q);
        GoneStill(q, moved, aside);
      }
    }
    EndsStay(t, ends, path, aside);
    RelocateAt(t, path, aside, aside);
    assert Under(aside, aside) && Moved(aside, aside, path) == path;
    AsideIsNotPlain(path, pid, lo, n, aside);
    forall i | 0 <= i < |moved| ensures !Plain(moved[i], pid, lo) {
      if Under(ends[i], path) {
        MovedIsUnder(ends[i], path, aside);
        AsideIsNotPlain(path, pid, lo, n, moved[i]);
      }
    }
  }

  lemma GoneStill(q: Path, gone: seq<Path>, more: Path)
    requires Gone(q, gone)
    ensures Gone(q, gone + [more])
  {
    var i :| 0 <= i < |gone| && Under(q, gone[i]);
    assert Under(q, (gone + [more])[i]);
  }

  /** After any part of a plan that fits, all that is hidden is where `Ends` says. */
  lemma {:induction false} HiddenAtEnds(t: Tree, changes: seq<Action>, pid: string, number: nat)
    requires WellFormed(t) && Grounded(t, changes) && NamesAreFree(t, changes, pid, number)
    ensures HiddenAt(RunAll(t, changes, pid, number), Ends(changes, pid, number), pid, number)
    ensures InStep(RunAll(t, changes, pid, number), Forward(t, changes), pid, number, NumberAfter(changes, number))
    decreases changes
  {
    if changes == [] {
      StartsInStep(t, changes, pid, number);
    } else {
      hide Plain, Relocate, AsideFor, Possible, Gone, HiddenAt, InStep, RunAll, WithParents, Forward;
      var k := |changes| - 1;
      var before, last := changes[..k], changes[k];
      HiddenAtEnds(t, before, pid, number);
      RunAllLast(t, changes, pid, number);
      var now, planned, n := RunAll(t, before, pid, number), Forward(t, before), NumberAfter(before, number);
      LastFits(t, changes);
      assert PlainAction(last, pid, number);
      StepKeepsInStep(now, planned, last, pid, number, n);
      LastHides(now, planned, last, Ends(before, pid, number), pid, number, n);
    }
  }

  lemma LastFits(t: Tree, changes: seq<Action>)
    requires Grounded(t, changes) && changes != []
    ensures var k := |changes| - 1;
            && Fits(Forward(t, changes[..k]), changes[k])
            && Forward(t, changes) == Apply(Forward(t, changes[..k]), changes[k], File(""))
  {
  }

  lemma LastHides(now: Tree, planned: Tree, last: Action, ends: seq<Path>, pid: string, lo: nat, n: nat)
    requires InStep(now, planned, pid, lo, n) && Fits(planned, last) && PlainAction(last, pid, lo)
    requires HiddenAt(now, ends, pid, lo)
    ensures var aside := AsideOf(last, pid, n);
            HiddenAt(Effect(now, last, aside),
                     match last
                     case DoCreate(_) => ends
                     case DoRename(from, to) => MoveAll(ends, from, to)
                     case DoDelete(path) => MoveAll(ends, path, aside) + [aside], pid, lo)
  {
    hide Plain, Relocate, AsideFor, WithParents, Gone;
    match last
    case DoCreate(path) =>
      NoParentsToMake(now, path);
    case DoRename(from, to) =>
      NoParentsToMake(now, to);
      RenameHides(now, ends, from, to, pid, lo);
    case DoDelete(path) =>
      DeleteHides(now, ends, path, pid, lo, n);
  }

  /** Every aside is, at the end, still at or under a name that finishing looks at. */
  predicate NoneStrays(changes: seq<Action>, pid: string, number: nat) {
    forall i | 0 <= i < |Ends(changes, pid, number)| :: Gone(Ends(changes, pid, number)[i], Asides(changes, pid, number))
  }

  lemma {:induction false} AsidesAreHidden(t: Tree, changes: seq<Action>, pid: string, number: nat, q: Path)
    requires forall j | 0 <= j < |changes| :: PlainAction(changes[j], pid, number)
    requires Gone(q, Asides(changes, pid, number))
    ensures !Plain(q, pid, number)
    decreases changes
  {
    hide Plain, PlainAction, AsideFor;
    var n := |changes| - 1;
    var before := Asides(changes[..n], pid, number);
    if changes[n].DoDelete? {
      var aside := AsideFor(changes[n].path, pid, NumberAfter(changes[..n], number));
      NumberGrows(changes[..n], number);
      if Under(q, aside) {
        AsideIsNotPlain(changes[n].path, pid, number, NumberAfter(changes[..n], number), q);
      } else {
        var i :| 0 <= i < |before + [aside]| && Under(q, (before + [aside])[i]);
        assert Under(q, before[i]);
        AsidesAreHidden(t, changes[..n], pid, number, q);
      }
    } else {
      assert before + [] == before;
      AsidesAreHidden(t, changes[..n], pid, number, q);
    }
  }

  lemma {:induction false} NumberGrows(actions: seq<Action>, number: nat)
    ensures NumberAfter(actions, number) >= number
  {
    if actions != [] {
      NumberGrows(actions[..|actions| - 1], number);
    }
  }

  /** Finished, an edit leaves exactly the planned tree when none of its asides has
      been moved from where it was put, by a later rename of a directory above it,
      to where finishing does not look; and otherwise leaves that one behind. */
  lemma FinishedIsPlanned(t: Tree, changes: seq<Action>, pid: string, number: nat)
    requires WellFormed(t) && Grounded(t, changes) && NamesAreFree(t, changes, pid, number)
    ensures WithoutAll(RunAll(t, changes, pid, number), Asides(changes, pid, number)) == Forward(t, changes) <==>
            NoneStrays(changes, pid, number)
  {
    hide Plain, Forward, RunAll, Gone, Ends, Asides;
    var run, asides, ends := RunAll(t, changes, pid, number), Asides(changes, pid, number), Ends(changes, pid, number);
    HiddenAtEnds(t, changes, pid, number);
    forall q | q in run && Gone(q, asides) ensures !Plain(q, pid, number) {
      AsidesAreHidden(t, changes, pid, number, q);
    }
    if NoneStrays(changes, pid, number) {
      forall q | q in run && !Plain(q, pid, number) ensures Gone(q, asides) {
        GoneThrough(q, ends, asides);
      }
    } else {
      var i :| 0 <= i < |ends| && !Gone(ends[i], asides);
      assert ends[i] in WithoutAll(run, asides) && ends[i] !in Visible(run, pid, number);
    }
  }

  lemma GoneThrough(q: Path, ends: seq<Path>, asides: seq<Path>)
    requires Gone(q, ends) && forall i | 0 <= i < |ends| :: Gone(ends[i], asides)
    ensures Gone(q, asides)
  {
    var i :| 0 <= i < |ends| && Under(q, ends[i]);
    var j :| 0 <= j < |asides| && Under(ends[i], asides[j]);
    assert q[..|asides[j]|] == q[..|ends[i]|][..|asides[j]|];
  }

  /** The input: a file deleted and its directory renamed leaves the file behind, under
      its aside name in the renamed directory. */
  lemma RenamedAsideStrays(dir: string, name: string, to: string, pid: string, number: nat)
    requires dir != to
    ensures var changes := [DoDelete([dir, name]), DoRename([dir], [to])];
            && Asides(changes, pid, number) == [[dir, AsideName(name, pid, number)]]
            && Ends(changes, pid, number) == [[to, AsideName(name, pid, number)]]
            && !NoneStrays(changes, pid, number)
  {
    hide AsideName, Asides, Ends;
    var hidden := AsideName(name, pid, number);
    PutAside(dir, name, pid, number);
    RenamedAfter(DoDelete([dir, name]), [dir], [to], pid, number);
    var was: Path, is_: Path := [dir, hidden], [to, hidden];
    assert Moved(was, [dir], [to]) == is_ by {
      assert was[1..] == [hidden] && was[..1] == [dir];
      assert [to] + [hidden] == is_;
    }
    assert MoveAll([was], [dir], [to]) == [is_];
    assert !Under(is_, was) by {
      assert is_[..2] == is_ && is_[0] != was[0];
    }
    assert !Gone(is_, [was]);
    var changes := [DoDelete([dir, name]), DoRename([dir], [to])];
    assert Ends(changes, pid, number)[0] == is_;
  }

  lemma PutAside(dir: string, name: string, pid: string, number: nat)
    ensures var changes := [DoDelete([dir, name])];
            Asides(changes, pid, number) == Ends(changes, pid, number) == [[dir, AsideName(name, pid, number)]]
  {
    hide AsideName;
    var changes := [DoDelete([dir, name])];
    assert changes[..0] == [] && [dir, name][..1] == [dir];
    assert [dir] + [AsideName(name, pid, number)] == [dir, AsideName(name, pid, number)];
  }

  lemma RenamedAfter(first: Action, from: Path, to: Path, pid: string, number: nat)
    ensures var changes := [first, DoRename(from, to)];
            && Asides(changes, pid, number) == Asides([first], pid, number)
            && Ends(changes, pid, number) == MoveAll(Ends([first], pid, number), from, to)
  {
    assert [first, DoRename(from, to)][..1] == [first];
  }
}
