/** The directories that a commit makes on the way, which the planner never hears of. */
module FileUnseen {
  import opened Options
  import opened Paths
  import opened Disks
  import opened FilePlan
  import opened FileWorld
  import opened FilePlanned
  import opened FileSteps
  import opened FileAtomic

  /** The number of the next aside name. */
  function NumberAfter(actions: seq<Action>, number: nat): nat {
    if actions == [] then number else After(actions[|actions| - 1], NumberAfter(actions[..|actions| - 1], number))
  }

  lemma {:induction false} NumberAfterFirst(actions: seq<Action>, number: nat)
    requires actions != []
    ensures NumberAfter(actions, number) == NumberAfter(actions[1..], After(actions[0], number))
    decreases actions
  {
    if |actions| > 1 {
      NumberAfterFirst(actions[..|actions| - 1], number);
      assert actions[..|actions| - 1][1..] == actions[1..][..|actions| - 2];
    }
  }

  lemma {:induction false} RunAllLast(t: Tree, actions: seq<Action>, pid: string, number: nat)
    requires actions != []
    ensures var n := |actions| - 1;
            RunAll(t, actions, pid, number) ==
            Effect(RunAll(t, actions[..n], pid, number), actions[n], AsideOf(actions[n], pid, NumberAfter(actions[..n], number)))
    decreases actions
  {
    hide Effect, AsideOf, After;
    var n := |actions| - 1;
    if n > 0 {
      var first := Effect(t, actions[0], AsideOf(actions[0], pid, number));
      NumberAfterFirst(actions[..n], number);
      RunAllLast(first, actions[1..], pid, After(actions[0], number));
      assert actions[1..][..n - 1] == actions[..n][1..];
    }
  }

  /** The disk when step `k` has its turn. */
  function Before(t: Tree, changes: seq<Action>, pid: string, number: nat, k: nat): Tree
    requires k <= |changes|
  {
    RunAll(t, changes[..k], pid, number)
  }

  /** Step `k` is possible, and nothing at all is where it renames to. */
  predicate RunsFreely(t: Tree, changes: seq<Action>, pid: string, number: nat, k: nat)
    requires k < |changes|
  {
    var now := Before(t, changes, pid, number, k);
    && Possible(now, changes[k], AsideOf(changes[k], pid, NumberAfter(changes[..k], number)))
    && (changes[k].DoRename? ==> changes[k].to !in now)
  }

  /** Step `k` makes no directory on the way. */
  predicate FindsDirectory(t: Tree, changes: seq<Action>, pid: string, number: nat, k: nat)
    requires k < |changes|
  {
    var placed := Placed(changes[k]);
    placed.Some? && placed.value != [] ==> Parent(placed.value).value in Before(t, changes, pid, number, k)
  }

  /** With `k` steps planned and taken, the planner answers as the disk does. */
  ghost predicate SeesAll(t: Tree, changes: seq<Action>, pid: string, number: nat, k: nat)
    requires k <= |changes|
  {
    forall q :: ExistsIn(t, changes[..k], q) <==> q in Visible(Before(t, changes, pid, number, k), pid, number)
  }

  lemma FitsAsPlanned(now: Tree, planned: Tree, action: Action, pid: string, lo: nat, n: nat)
    requires InStep(now, planned, pid, lo, n) && PlainAction(action, pid, lo)
    requires Possible(now, action, AsideOf(action, pid, n)) && (action.DoRename? ==> action.to !in now)
    requires Placed(action).Some? ==> Placed(action).value != [] && Parent(Placed(action).value).value in now
    ensures Fits(planned, action)
  {
    hide CanMakeParents, WithParents, AsideFor;
    if Placed(action).Some? {
      var path := Placed(action).value;
      NoParentsToMake(now, path);
      PlainParent(path, pid, lo);
    }
    hide Plain;
  }

  lemma PlainParent(path: Path, pid: string, lo: nat)
    requires path != [] && Plain(path, pid, lo)
    ensures Plain(Parent(path).value, pid, lo)
  {
    hide AsideNumbered;
    var up := Parent(path).value;
    assert forall i | 0 <= i < |up| :: up[i] == path[i];
  }

  lemma PlacedIsBelow(t: Tree, action: Action, aside: Path)
    requires Possible(t, action, aside) && Placed(action).Some?
    ensures Placed(action).value != []
  {
  }

  /** As long as every directory was found, the planner's tree is the disk's. */
  lemma {:induction false} FoundIsGrounded(t: Tree, changes: seq<Action>, pid: string, number: nat, k: nat)
    requires WellFormed(t) && NamesAreFree(t, changes, pid, number) && k <= |changes|
    requires forall j: nat | j < k :: RunsFreely(t, changes, pid, number, j) && FindsDirectory(t, changes, pid, number, j)
    ensures Grounded(t, changes[..k])
    ensures InStep(Before(t, changes, pid, number, k), Forward(t, changes[..k]), pid, number, NumberAfter(changes[..k], number))
  {
    hide Plain, PlainAction, Possible, Effect, AsideOf, After, InStep;
    if k == 0 {
      StartsInStep(t, changes, pid, number);
    } else {
      var j := k - 1;
      FoundIsGrounded(t, changes, pid, number, j);
      assert changes[..k][..j] == changes[..j];
      RunAllLast(t, changes[..k], pid, number);
      assert RunsFreely(t, changes, pid, number, j) && FindsDirectory(t, changes, pid, number, j);
      assert PlainAction(changes[j], pid, number);
      var now, planned, n := Before(t, changes, pid, number, j), Forward(t, changes[..j]), NumberAfter(changes[..j], number);
      if Placed(changes[j]).Some? {
        PlacedIsBelow(now, changes[j], AsideOf(changes[j], pid, n));
      }
      FitsAsPlanned(now, planned, changes[j], pid, number, n);
      StepKeepsInStep(now, planned, changes[j], pid, number, n);
    }
  }

  lemma StartsInStep(t: Tree, changes: seq<Action>, pid: string, number: nat)
    requires WellFormed(t) && NamesAreFree(t, changes, pid, number)
    ensures InStep(RunAll(t, [], pid, number), Forward(t, []), pid, number, number)
  {
    assert Visible(t, pid, number) == t;
  }

  lemma GroundedSeesAll(t: Tree, changes: seq<Action>, pid: string, number: nat, k: nat)
    requires WellFormed(t) && k <= |changes| && Grounded(t, changes[..k])
    requires InStep(Before(t, changes, pid, number, k), Forward(t, changes[..k]), pid, number, NumberAfter(changes[..k], number))
    ensures SeesAll(t, changes, pid, number, k)
  {
    hide Grounded, Forward, ExistsIn, Visible, Before;
    forall q ensures ExistsIn(t, changes[..k], q) <==> q in Forward(t, changes[..k]) {
      ExistsAgrees(t, changes[..k], q);
    }
  }

  /** The first directory missing is made, and the planner denies it. */
  lemma MadeIsDenied(t: Tree, changes: seq<Action>, pid: string, number: nat, k: nat)
    requires WellFormed(t) && k < |changes| && Grounded(t, changes[..k]) && PlainAction(changes[k], pid, number)
    requires InStep(Before(t, changes, pid, number, k), Forward(t, changes[..k]), pid, number, NumberAfter(changes[..k], number))
    requires RunsFreely(t, changes, pid, number, k) && !FindsDirectory(t, changes, pid, number, k)
    ensures !SeesAll(t, changes, pid, number, k + 1)
  {
    hide Grounded, Forward, InStep, Plain;
    var now, action, before := Before(t, changes, pid, number, k), changes[k], changes[..k];
    var up := Parent(Placed(action).value).value;
    PlainParent(Placed(action).value, pid, number);
    assert changes[..k + 1][..k] == before;
    assert changes[..k + 1][k] == action;
    RunAllLast(t, changes[..k + 1], pid, number);
    UpIsMade(now, action, AsideOf(action, pid, NumberAfter(before, number)), up);
    UpWasNotThere(t, before, now, pid, number, NumberAfter(before, number), up);
    UpIsDenied(t, before, action, up);
    assert before + [action] == changes[..k + 1];
    assert up in Visible(Before(t, changes, pid, number, k + 1), pid, number);
  }

  lemma UpWasNotThere(t: Tree, before: seq<Action>, now: Tree, pid: string, lo: nat, n: nat, up: Path)
    requires WellFormed(t) && Grounded(t, before) && InStep(now, Forward(t, before), pid, lo, n) && up !in now
    ensures !ExistsIn(t, before, up)
  {
    hide Grounded, Forward, ExistsIn, Plain;
    ExistsAgrees(t, before, up);
  }

  lemma UpIsDenied(t: Tree, before: seq<Action>, action: Action, up: Path)
    requires !ExistsIn(t, before, up) && Placed(action).Some? && Placed(action).value != []
    requires up == Parent(Placed(action).value).value
    ensures !ExistsIn(t, before + [action], up)
  {
    assert (before + [action])[..|before|] == before;
  }

  lemma UpIsMade(now: Tree, action: Action, aside: Path, up: Path)
    requires Possible(now, action, aside) && Placed(action).Some? && Placed(action).value != []
    requires up == Parent(Placed(action).value).value && (action.DoRename? ==> action.to !in now)
    ensures up in Effect(now, action, aside)
  {
    hide CanMakeParents, WithParents;
    var made := WithParents(now, Placed(action).value);
    assert IsDirectory(made, up);
    if action.DoRename? {
      RelocateAt(made, action.from, action.to, up);
      if Under(up, action.from) {
        ParentAbove(action.to, action.from);
      }
    }
  }

  /** Over a run free of surprises, the planner answers as the disk does, for every
      path and at every moment, exactly when each create and each rename found its
      directory there by its turn. */
  lemma MadeDirectoriesAreUnseen(t: Tree, changes: seq<Action>, pid: string, number: nat)
    requires WellFormed(t) && NamesAreFree(t, changes, pid, number)
    requires forall k: nat | k < |changes| :: RunsFreely(t, changes, pid, number, k)
    ensures (forall k: nat | k <= |changes| :: SeesAll(t, changes, pid, number, k)) <==>
            (forall k: nat | k < |changes| :: FindsDirectory(t, changes, pid, number, k))
  {
    hide SeesAll, FindsDirectory, RunsFreely, Grounded, InStep, PlainAction, Plain, Before, Forward;
    if forall k: nat | k < |changes| :: FindsDirectory(t, changes, pid, number, k) {
      forall k: nat | k <= |changes| ensures SeesAll(t, changes, pid, number, k) {
        FoundIsGrounded(t, changes, pid, number, k);
        GroundedSeesAll(t, changes, pid, number, k);
      }
    }
    if forall k: nat | k <= |changes| :: SeesAll(t, changes, pid, number, k) {
      AllFound(t, changes, pid, number, |changes|);
    }
  }

  lemma {:induction false} AllFound(t: Tree, changes: seq<Action>, pid: string, number: nat, n: nat)
    requires WellFormed(t) && NamesAreFree(t, changes, pid, number) && n <= |changes|
    requires forall k: nat | k < |changes| :: RunsFreely(t, changes, pid, number, k)
    requires forall k: nat | k <= |changes| :: SeesAll(t, changes, pid, number, k)
    ensures forall k: nat | k < n :: FindsDirectory(t, changes, pid, number, k)
  {
    hide SeesAll, FindsDirectory, RunsFreely, Grounded, InStep, Plain, Before, Forward;
    if n > 0 {
      AllFound(t, changes, pid, number, n - 1);
      if !FindsDirectory(t, changes, pid, number, n - 1) {
        FoundIsGrounded(t, changes, pid, number, n - 1);
        assert PlainAction(changes[n - 1], pid, number);
        MadeIsDenied(t, changes, pid, number, n - 1);
        assert false;
      }
    }
  }

  /** Inputs: one directory missing, then asked for right after it is made. */
  lemma MadeDirectoryIsMissed(dir: string, name: string, from: string)
    requires from != dir
    ensures var t: Tree := map[[] := Directory];
            var action := DoCreate([dir, name]);
            Possible(t, action, []) && !ExistsIn(t, [action], [dir]) && [dir] in Effect(t, action, [])
    ensures var t: Tree := map[[] := Directory, [from] := File("")];
            var action := DoRename([from], [dir, name]);
            Possible(t, action, []) && !ExistsIn(t, [action], [dir]) && [dir] in Effect(t, action, [])
  {
    var bare: Tree := map[[] := Directory];
    var held: Tree := bare[[from] := File("")];
    OneMissing(bare, dir, name);
    OneMissing(held, dir, name);
    assert Possible(bare, DoCreate([dir, name]), []);
    assert WellFormed(held) && !Under([dir, name], [from]);
    assert Possible(held, DoRename([from], [dir, name]), []);
    UpIsMade(bare, DoCreate([dir, name]), [], [dir]);
    UpIsMade(held, DoRename([from], [dir, name]), [], [dir]);
    UpIsDenied(bare, [], DoCreate([dir, name]), [dir]);
    UpIsDenied(held, [], DoRename([from], [dir, name]), [dir]);
    assert [] + [DoCreate([dir, name])] == [DoCreate([dir, name])];
    assert [] + [DoRename([from], [dir, name])] == [DoRename([from], [dir, name])];
  }

  lemma OneMissing(t: Tree, dir: string, name: string)
    requires IsDirectory(t, []) && [dir] !in t
    ensures WithParents(t, [dir, name]) == t[[dir] := Directory] && CanMakeParents(t, [dir, name])
    ensures Parent([dir, name]).value == [dir]
  {
    var path: Path := [dir, name];
    assert path[..1] == [dir] && path[..1][..0] == [];
    assert MissingAbove(t, path[..1]) == [];
    assert MissingAbove(t, path) == [[dir]];
    assert MadeFrom(t, [[dir]], 1) == MadeFrom(t, [[dir]], 0)[[dir] := Directory];
  }

  /** At the end of a run alone it is not so: what was made may be deleted again, and
      the planner then answers as the disk does though a directory was missing. */
  lemma MadeAndDeleted(dir: string, name: string, pid: string, number: nat)
    requires Plain([dir, name], pid, number)
    ensures var t: Tree, changes := map[[] := Directory], [DoCreate([dir, name]), DoDelete([dir])];
            && NamesAreFree(t, changes, pid, number)
            && RunsFreely(t, changes, pid, number, 0) && RunsFreely(t, changes, pid, number, 1)
            && !FindsDirectory(t, changes, pid, number, 0)
            && SeesAll(t, changes, pid, number, 2)
  {
    hide *;
    NamedFreely(dir, name, pid, number);
    FirstRunsFreely(dir, name, pid, number);
    SecondRunsFreely(dir, name, pid, number);
    SeenAtTheEnd(dir, name, pid, number);
  }

  lemma NamedFreely(dir: string, name: string, pid: string, number: nat)
    requires Plain([dir, name], pid, number)
    ensures NamesAreFree(map[[] := Directory], [DoCreate([dir, name]), DoDelete([dir])], pid, number)
    ensures Plain([dir], pid, number)
  {
    PlainParent([dir, name], pid, number);
    assert Parent([dir, name]).value == [dir];
  }

  /** The tree with the one file in the directory made for it. */
  function OneMade(dir: string, name: string): Tree {
    var bare: Tree := map[[] := Directory];
    bare[[dir] := Directory][[dir, name] := File("")]
  }

  lemma FirstRunsFreely(dir: string, name: string, pid: string, number: nat)
    ensures var t: Tree, changes := map[[] := Directory], [DoCreate([dir, name]), DoDelete([dir])];
            && RunsFreely(t, changes, pid, number, 0) && !FindsDirectory(t, changes, pid, number, 0)
            && Before(t, changes, pid, number, 1) == OneMade(dir, name) && NumberAfter(changes[..1], number) == number
  {
    var t: Tree, changes := map[[] := Directory], [DoCreate([dir, name]), DoDelete([dir])];
    hide WithParents, CanMakeParents;
    OneMissing(t, dir, name);
    assert changes[..0] == [] && changes[..1] == [changes[0]] && [changes[0]][..0] == [];
    RunAllLast(t, changes[..1], pid, number);
  }

  lemma SecondRunsFreely(dir: string, name: string, pid: string, number: nat)
    requires Plain([dir, name], pid, number)
    ensures var t: Tree, changes := map[[] := Directory], [DoCreate([dir, name]), DoDelete([dir])];
            && RunsFreely(t, changes, pid, number, 1)
            && Before(t, changes, pid, number, 2) == Relocate(OneMade(dir, name), [dir], AsideFor([dir], pid, number))
  {
    hide AsideFor, RunAll, NumberAfter;
    var t: Tree, changes := map[[] := Directory], [DoCreate([dir, name]), DoDelete([dir])];
    FirstRunsFreely(dir, name, pid, number);
    AsideIsNew(dir, name, pid, number);
    assert changes[..2] == changes;
    RunAllLast(t, changes, pid, number);
  }

  lemma AsideIsNew(dir: string, name: string, pid: string, number: nat)
    requires Plain([dir, name], pid, number)
    ensures var aside := AsideFor([dir], pid, number);
            |aside| == 1 && aside != [dir] && Parent(aside) == Some([])
  {
    var aside := AsideFor([dir], pid, number);
    assert [dir][..0] == [];
    assert !AsideNumbered([dir, name][0], pid, number);
  }

  lemma SeenAtTheEnd(dir: string, name: string, pid: string, number: nat)
    requires Plain([dir, name], pid, number)
    ensures SeesAll(map[[] := Directory], [DoCreate([dir, name]), DoDelete([dir])], pid, number, 2)
  {
    hide Relocate, RunAll, FindIn, Plain, AsideFor;
    var t: Tree, changes := map[[] := Directory], [DoCreate([dir, name]), DoDelete([dir])];
    assert changes[..2] == changes;
    SecondRunsFreely(dir, name, pid, number);
    VisibleAside(OneMade(dir, name), [dir], pid, number, number);
    RootAlone(dir, name, pid, number);
    forall q ensures ExistsIn(t, changes, q) <==> q in t {
      FindAfterBoth(dir, name, q);
    }
  }

  lemma RootAlone(dir: string, name: string, pid: string, number: nat)
    ensures Without(Visible(OneMade(dir, name), pid, number), [dir]) == map[[] := Directory]
  {
    assert Plain([], pid, number);
    assert Under([dir, name], [dir]) && Under([dir], [dir]);
  }

  lemma FindAfterBoth(dir: string, name: string, q: Path)
    ensures FindIn([DoCreate([dir, name]), DoDelete([dir])], q) == if Under(q, [dir]) then Missing else OnDisk(q)
  {
    var create, changes := [DoCreate([dir, name])], [DoCreate([dir, name]), DoDelete([dir])];
    assert create[..0] == [] && changes[..1] == create;
    assert FindIn(create, q) == if q == [dir, name] then Created else OnDisk(q);
    assert Under([dir, name], [dir]);
  }
}
