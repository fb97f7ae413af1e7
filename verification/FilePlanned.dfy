/** What an accepted plan is known to be good for. */
module FilePlanned {
  import opened Options
  import opened Paths
  import opened Disks
  import opened FilePlan
  import opened FileWorld

  /** What the planner leaves to its callers: every target has a directory to go
      in, and no rename is into its own subtree or from inside its own target. */
  predicate Sensible(t: Tree, changes: seq<Action>) {
    if changes == [] then true
    else
      var before := changes[..|changes| - 1];
      && Sensible(t, before)
      && match changes[|changes| - 1]
         case DoCreate(path) => path != [] && IsDirectory(Forward(t, before), Parent(path).value)
         case DoRename(from, to) =>
           && from != [] && to != [] && IsDirectory(Forward(t, before), Parent(to).value)
           && !Under(to, from) && !Under(from, to)
         case DoDelete(path) => path != []
  }

  lemma ActionsExtend(steps: seq<Step>, step: Step)
    ensures var all := Actions(steps + [step]);
            |all| == |steps| + 1 && all[..|steps|] == Actions(steps) && all[|steps|] == step.action
  {
  }

  /** One action more. */
  lemma GroundedExtends(t: Tree, steps: seq<Step>, step: Step)
    requires Grounded(t, Actions(steps)) && Fits(Forward(t, Actions(steps)), step.action)
    ensures Grounded(t, Actions(steps + [step]))
  {
    ActionsExtend(steps, step);
  }

  lemma SensibleLast(t: Tree, steps: seq<Step>, step: Step)
    requires Sensible(t, Actions(steps + [step]))
    ensures Sensible(t, Actions(steps))
    ensures var now := Forward(t, Actions(steps));
            match step.action
            case DoCreate(path) => path != [] && IsDirectory(now, Parent(path).value)
            case DoRename(from, to) =>
              && from != [] && to != [] && IsDirectory(now, Parent(to).value)
              && !Under(to, from) && !Under(from, to)
            case DoDelete(path) => path != []
  {
    ActionsExtend(steps, step);
  }

  lemma ForwardLast(t: Tree, steps: seq<Step>, step: Step)
    ensures Forward(t, Actions(steps + [step])) == Apply(Forward(t, Actions(steps)), step.action, File(""))
  {
    ActionsExtend(steps, step);
  }

  /** A created file, after whatever was there is deleted or was not there. */
  lemma CreateFits(t: Tree, steps: seq<Step>, step: Step)
    requires WellFormed(t) && Grounded(t, Actions(steps)) && step.action.DoCreate?
    requires step.action.path !in Forward(t, Actions(steps))
    requires Sensible(t, Actions(steps + [step]))
    ensures Grounded(t, Actions(steps + [step]))
  {
    SensibleLast(t, steps, step);
    GroundedExtends(t, steps, step);
  }

  lemma RenameFits(t: Tree, steps: seq<Step>, step: Step)
    requires WellFormed(t) && Grounded(t, Actions(steps)) && step.action.DoRename?
    requires step.action.from in Forward(t, Actions(steps))
    requires step.action.to !in Forward(t, Actions(steps))
    requires Sensible(t, Actions(steps + [step]))
    ensures Grounded(t, Actions(steps + [step]))
  {
    SensibleLast(t, steps, step);
    GroundedExtends(t, steps, step);
  }

  lemma DeleteFits(t: Tree, steps: seq<Step>, step: Step)
    requires WellFormed(t) && Grounded(t, Actions(steps)) && step.action.DoDelete?
    requires step.action.path in Forward(t, Actions(steps))
    requires Sensible(t, Actions(steps + [step]))
    ensures Grounded(t, Actions(steps + [step]))
    ensures step.action.path !in Forward(t, Actions(steps + [step]))
    ensures forall p | p in Forward(t, Actions(steps)) && !Under(p, step.action.path) :: p in Forward(t, Actions(steps + [step]))
  {
    SensibleLast(t, steps, step);
    GroundedExtends(t, steps, step);
    ForwardLast(t, steps, step);
  }

  lemma PlanOneGrounded(t: Tree, p: Planner, position: nat, op: Operation)
    requires WellFormed(t) && Grounded(t, Actions(p.steps))
    requires PlanOne(t, p, position, op).Ok?
    requires Sensible(t, Actions(PlanOne(t, p, position, op).value.steps))
    ensures Grounded(t, Actions(PlanOne(t, p, position, op).value.steps))
  {
    hide Sensible, Grounded, WellFormed, ExistsIn, IsDirectoryWithFilesIn, FirstUnder, MoveAll, Actions, Forward, World;
    var steps, changes := p.steps, Actions(p.steps);
    match op
    case Create(path, overwrite, ignoreIfExists) =>
      ExistsAgrees(t, changes, path);
      if !ExistsIn(t, changes, path) {
        CreateFits(t, steps, Step(position, DoCreate(path)));
      } else if overwrite {
        var gone := steps + [Step(position, DoDelete(path))];
        SensibleLast(t, gone, Step(position, DoCreate(path)));
        DeleteFits(t, steps, Step(position, DoDelete(path)));
        CreateFits(t, gone, Step(position, DoCreate(path)));
      }
    case Rename(from, to, overwrite, ignoreIfExists) =>
      ExistsAgrees(t, changes, from);
      ExistsAgrees(t, changes, to);
      if !ExistsIn(t, changes, to) {
        RenameFits(t, steps, Step(position, DoRename(from, to)));
      } else if overwrite {
        var gone := steps + [Step(position, DoDelete(to))];
        SensibleLast(t, gone, Step(position, DoRename(from, to)));
        DeleteFits(t, steps, Step(position, DoDelete(to)));
        RenameFits(t, gone, Step(position, DoRename(from, to)));
      }
    case Delete(path, recursive, ignoreIfNotExists) =>
      ExistsAgrees(t, changes, path);
      if ExistsIn(t, changes, path) {
        DeleteFits(t, steps, Step(position, DoDelete(path)));
      }
  }

  /** Planning only adds steps. */
  lemma {:induction false} PlanAllExtends(t: Tree, p: Planner, operations: seq<(nat, Operation)>)
    requires PlanAll(t, p, operations).Ok?
    ensures var steps := PlanAll(t, p, operations).value.steps;
            |p.steps| <= |steps| && steps[..|p.steps|] == p.steps
    decreases operations
  {
    if operations != [] {
      var next := PlanOne(t, p, operations[0].0, operations[0].1).value;
      assert |p.steps| <= |next.steps| && next.steps[..|p.steps|] == p.steps;
      PlanAllExtends(t, next, operations[1..]);
      var steps := PlanAll(t, p, operations).value.steps;
      assert steps[..|p.steps|] == steps[..|next.steps|][..|p.steps|];
    }
  }

  lemma {:induction false} SensiblePrefix(t: Tree, changes: seq<Action>, n: nat)
    requires n <= |changes| && Sensible(t, changes)
    ensures Sensible(t, changes[..n])
    decreases |changes|
  {
    if n < |changes| {
      SensiblePrefix(t, changes[..|changes| - 1], n);
      assert changes[..|changes| - 1][..n] == changes[..n];
    } else {
      assert changes[..n] == changes;
    }
  }

  lemma {:induction false} AcceptedIsGrounded(t: Tree, p: Planner, operations: seq<(nat, Operation)>)
    requires WellFormed(t) && Grounded(t, Actions(p.steps))
    requires PlanAll(t, p, operations).Ok?
    ensures var changes := Actions(PlanAll(t, p, operations).value.steps);
            Sensible(t, changes) ==> Grounded(t, changes)
    decreases operations
  {
    if operations != [] && Sensible(t, Actions(PlanAll(t, p, operations).value.steps)) {
      var next := PlanOne(t, p, operations[0].0, operations[0].1).value;
      var steps := PlanAll(t, p, operations).value.steps;
      PlanAllExtends(t, next, operations[1..]);
      SensiblePrefix(t, Actions(steps), |next.steps|);
      assert Actions(steps)[..|next.steps|] == Actions(next.steps);
      PlanOneGrounded(t, p, operations[0].0, operations[0].1);
      AcceptedIsGrounded(t, next, operations[1..]);
    }
  }

  lemma {:induction false} GroundedIsSensible(t: Tree, changes: seq<Action>)
    requires WellFormed(t) && Grounded(t, changes)
    ensures Sensible(t, changes)
  {
    if changes != [] {
      var before, last := changes[..|changes| - 1], changes[|changes| - 1];
      GroundedIsSensible(t, before);
      ForwardIsWellFormed(t, before);
      if last.DoRename? {
        NothingUnderMissing(Forward(t, before), last.to);
      }
    }
  }

  /** Of the plans the planner accepts, exactly those whose provisos hold fit the
      tree at every step: every check it makes is right, and those are all the
      ones it does not make. */
  lemma AcceptedFitsIffSensible(t: Tree, unsaved: seq<Path>, operations: seq<(nat, Operation)>)
    requires WellFormed(t) && PlanAll(t, Planner([], unsaved), operations).Ok?
    ensures var changes := Actions(PlanAll(t, Planner([], unsaved), operations).value.steps);
            Grounded(t, changes) <==> Sensible(t, changes)
  {
    var p := Planner([], unsaved);
    assert Actions(p.steps) == [];
    AcceptedIsGrounded(t, p, operations);
    var changes := Actions(PlanAll(t, p, operations).value.steps);
    if Grounded(t, changes) {
      GroundedIsSensible(t, changes);
    }
  }

  // Unsaved changes

  /** No delete among `steps` ever reaches the file that starts at `path`. */
  predicate Spared(steps: seq<Step>, path: Path) {
    if steps == [] then true
    else
      var before := steps[..|steps| - 1];
      && Spared(before, path)
      && match steps[|steps| - 1].action
         case DoDelete(gone) => !Under(Follow(before, path), gone)
         case _ => true
  }

  /** The planner knows where each unsaved file is, and has spared it. */
  ghost predicate KeepsUnsaved(p: Planner, unsaved: seq<Path>) {
    && |p.unsaved| == |unsaved|
    && forall k | 0 <= k < |unsaved| :: p.unsaved[k] == Follow(p.steps, unsaved[k]) && Spared(p.steps, unsaved[k])
  }

  lemma {:induction false} NoneUnder(unsaved: seq<Path>, path: Path, k: nat)
    requires FirstUnder(unsaved, path).None? && k < |unsaved|
    ensures !Under(unsaved[k], path)
    decreases |unsaved|
  {
    if k > 0 {
      NoneUnder(unsaved[1..], path, k - 1);
    }
  }

  lemma StepKeepsUnsaved(p: Planner, unsaved: seq<Path>, step: Step)
    requires KeepsUnsaved(p, unsaved)
    requires step.action.DoDelete? ==> FirstUnder(p.unsaved, step.action.path).None?
    ensures KeepsUnsaved(
              Planner(p.steps + [step], if step.action.DoRename? then MoveAll(p.unsaved, step.action.from, step.action.to) else p.unsaved),
              unsaved)
  {
    var steps := p.steps + [step];
    assert steps[..|steps| - 1] == p.steps;
    forall k | 0 <= k < |unsaved| ensures Spared(steps, unsaved[k]) {
      if step.action.DoDelete? {
        NoneUnder(p.unsaved, step.action.path, k);
      }
    }
  }

  lemma PlanOneKeepsUnsaved(t: Tree, p: Planner, unsaved: seq<Path>, position: nat, op: Operation)
    requires KeepsUnsaved(p, unsaved) && PlanOne(t, p, position, op).Ok?
    ensures KeepsUnsaved(PlanOne(t, p, position, op).value, unsaved)
  {
    hide KeepsUnsaved, ExistsIn, IsDirectoryWithFilesIn, FirstUnder, MoveAll, Actions;
    var changes := Actions(p.steps);
    match op
    case Create(path, _, _) =>
      if ExistsIn(t, changes, path) && op.overwrite {
        StepKeepsUnsaved(p, unsaved, Step(position, DoDelete(path)));
        StepKeepsUnsaved(p.(steps := p.steps + [Step(position, DoDelete(path))]), unsaved, Step(position, DoCreate(path)));
      } else if !ExistsIn(t, changes, path) {
        StepKeepsUnsaved(p, unsaved, Step(position, DoCreate(path)));
      }
    case Rename(from, to, _, _) =>
      if ExistsIn(t, changes, to) && op.overwrite {
        StepKeepsUnsaved(p, unsaved, Step(position, DoDelete(to)));
        StepKeepsUnsaved(p.(steps := p.steps + [Step(position, DoDelete(to))]), unsaved, Step(position, DoRename(from, to)));
      } else if !ExistsIn(t, changes, to) {
        StepKeepsUnsaved(p, unsaved, Step(position, DoRename(from, to)));
      }
    case Delete(path, _, _) =>
      if ExistsIn(t, changes, path) {
        StepKeepsUnsaved(p, unsaved, Step(position, DoDelete(path)));
      }
  }

  /** Acceptance spares every path of `unsaved`, under whatever name the renames
      before a delete have given it. */
  lemma {:induction false} AcceptedSparesUnsaved(t: Tree, p: Planner, unsaved: seq<Path>, operations: seq<(nat, Operation)>)
    requires KeepsUnsaved(p, unsaved) && PlanAll(t, p, operations).Ok?
    ensures forall path | path in unsaved :: Spared(PlanAll(t, p, operations).value.steps, path)
    decreases operations
  {
    if operations != [] {
      var next := PlanOne(t, p, operations[0].0, operations[0].1).value;
      PlanOneKeepsUnsaved(t, p, unsaved, operations[0].0, operations[0].1);
      AcceptedSparesUnsaved(t, next, unsaved, operations[1..]);
    }
  }

  /** A spared file ends where the buffer following it says. */
  lemma {:induction false} SparedIsTracked(steps: seq<Step>, path: Path)
    ensures Spared(steps, path) <==> Track(Actions(steps), path).Some?
    ensures Spared(steps, path) ==> Track(Actions(steps), path) == Some(Follow(steps, path))
  {
    if steps != [] {
      var before := steps[..|steps| - 1];
      SparedIsTracked(before, path);
      assert Actions(steps)[..|steps| - 1] == Actions(before);
    }
  }

  /** The steps that come after a text change. */
  function Later(steps: seq<Step>, position: nat): seq<Step> {
    if steps == [] then []
    else (if steps[0].position > position then [steps[0]] else []) + Later(steps[1..], position)
  }

  /** A text change lands where its file is tracked to by the steps after it, or
      nowhere when one of those deletes the file. */
  lemma {:induction false} DestinationIsTrack(steps: seq<Step>, position: nat, path: Path)
    ensures DestinationIn(steps, position, path) == Track(Actions(Later(steps, position)), path)
    decreases |steps|
  {
    if steps != [] {
      var rest := steps[1..];
      if steps[0].position > position {
        var later := Later(steps, position);
        TrackFirst(Actions(later), path);
        assert later[1..] == Later(rest, position);
        assert Actions(later)[1..] == Actions(Later(rest, position));
        match TrackOne(steps[0].action, path)
        case None =>
        case Some(at) => DestinationIsTrack(rest, position, at);
      } else {
        DestinationIsTrack(rest, position, path);
        assert [] + Later(rest, position) == Later(rest, position);
      }
    }
  }

  lemma {:induction false} TrackFirst(changes: seq<Action>, path: Path)
    requires changes != []
    ensures Track(changes, path) ==
            match TrackOne(changes[0], path)
            case None => None
            case Some(at) => Track(changes[1..], at)
    decreases |changes|
  {
    var before := changes[..|changes| - 1];
    if before != [] {
      TrackFirst(before, path);
      assert changes[1..][..|changes| - 2] == before[1..];
    } else {
      assert changes[1..] == [] && before == [];
    }
  }

  // When the check for files in a directory is right

  /** Where an action puts something. */
  function Placed(action: Action): Option<Path> {
    match action
    case DoCreate(path) => Some(path)
    case DoRename(_, to) => Some(to)
    case DoDelete(_) => None
  }

  /** Carried through `changes`, `path` ends as `q`'s entry `z`. */
  predicate EndsAt(changes: seq<Action>, path: Path, z: Path) {
    Track(changes, path) == Some(z)
  }

  /** The disk's entries of `at`, one of which ends at `z`. */
  predicate EntryStays(t: Tree, changes: seq<Action>, at: Path, z: Path) {
    exists e | e in t :: e != [] && Parent(e).value == at && EndsAt(changes, e, z)
  }

  /** Some create or rename puts its file where the steps after it take it to `z`. */
  predicate EntryComes(changes: seq<Action>, z: Path) {
    exists i | 0 <= i < |changes| :: Placed(changes[i]).Some? && EndsAt(changes[i + 1..], Placed(changes[i]).value, z)
  }

  lemma TrackOneMore(before: seq<Action>, last: Action, path: Path, y: Path)
    requires EndsAt(before, path, y) && TrackOne(last, y).Some?
    ensures EndsAt(before + [last], path, TrackOne(last, y).value)
  {
    assert (before + [last])[..|before|] == before;
  }

  lemma EntryStaysOn(t: Tree, before: seq<Action>, last: Action, at: Path, y: Path)
    requires EntryStays(t, before, at, y) && TrackOne(last, y).Some?
    ensures EntryStays(t, before + [last], at, TrackOne(last, y).value)
  {
    var e :| e in t && e != [] && Parent(e).value == at && EndsAt(before, e, y);
    TrackOneMore(before, last, e, y);
  }

  lemma EntryComesOn(before: seq<Action>, last: Action, y: Path)
    requires EntryComes(before, y) && TrackOne(last, y).Some?
    ensures EntryComes(before + [last], TrackOne(last, y).value)
  {
    var i :| 0 <= i < |before| && Placed(before[i]).Some? && EndsAt(before[i + 1..], Placed(before[i]).value, y);
    var changes := before + [last];
    TrackOneMore(before[i + 1..], last, Placed(before[i]).value, y);
    assert changes[i + 1..] == before[i + 1..] + [last] && changes[i] == before[i];
  }

  lemma EntryJustPut(before: seq<Action>, last: Action)
    requires Placed(last).Some?
    ensures EntryComes(before + [last], Placed(last).value)
  {
    var changes := before + [last];
    assert changes[|before| + 1..] == [] && changes[|before|] == last;
    assert EndsAt(changes[|before| + 1..], Placed(last).value, Placed(last).value);
  }

  /** What stands in a planned directory was in it on the disk, or was put there. */
  lemma {:induction false} EntryHasOrigin(t: Tree, changes: seq<Action>, z: Path, at: Path)
    requires WellFormed(t) && Grounded(t, changes) && z in Forward(t, changes) && z != []
    requires FindIn(changes, Parent(z).value) == OnDisk(at)
    ensures EntryStays(t, changes, at, z) || EntryComes(changes, z)
    decreases |changes|
  {
    hide Forward, Apply, Fits, TrackOne, FindIn, EntryStays, EntryComes, WellFormed;
    if changes == [] {
      EntryAtStart(t, z, at);
    } else {
      var before, last := changes[..|changes| - 1], changes[|changes| - 1];
      ForwardOneMore(t, changes);
      var y := if last.DoRename? && Under(z, last.to) then Moved(z, last.to, last.from) else z;
      assert changes == before + [last];
      if Placed(last) == Some(z) {
        EntryJustPut(before, last);
      } else {
        EntryBefore(t, before, last, z, at);
        EntryHasOrigin(t, before, y, at);
        if EntryStays(t, before, at, y) {
          EntryStaysOn(t, before, last, at, y);
        } else {
          EntryComesOn(before, last, y);
        }
      }
    }
  }

  lemma EntryAtStart(t: Tree, z: Path, at: Path)
    requires z in Forward(t, []) && z != [] && FindIn([], Parent(z).value) == OnDisk(at)
    ensures EntryStays(t, [], at, z)
  {
    assert EndsAt([], z, z);
  }

  // One step back, an entry not just put there was an entry already.
  lemma EntryBefore(t: Tree, before: seq<Action>, last: Action, z: Path, at: Path)
    requires WellFormed(t) && Grounded(t, before) && Fits(Forward(t, before), last)
    requires z in Apply(Forward(t, before), last, File("")) && z != [] && Placed(last) != Some(z)
    requires FindIn(before + [last], Parent(z).value) == OnDisk(at)
    ensures var y := if last.DoRename? && Under(z, last.to) then Moved(z, last.to, last.from) else z;
            && y in Forward(t, before) && y != [] && FindIn(before, Parent(y).value) == OnDisk(at)
            && TrackOne(last, y) == Some(z)
  {
    hide WellFormed, Grounded, Forward;
    var now := Forward(t, before);
    assert (before + [last])[..|before|] == before;
    match last
    case DoCreate(_) =>
    case DoDelete(gone) =>
    case DoRename(from, to) =>
      RelocateAt(now, from, to, z);
      ForwardIsWellFormed(t, before);
      NothingUnderMissing(now, to);
      if Under(z, to) {
        ParentIsUnder(z, to);
        ParentMoves(z, to, from);
        MovedIsUnder(z, to, from);
      } else {
        ParentBeside(z, from);
        ParentBeside(z, to);
      }
  }

  lemma ParentBeside(z: Path, dir: Path)
    requires z != [] && !Under(z, dir)
    ensures !Under(Parent(z).value, dir)
  {
    if Under(Parent(z).value, dir) { ParentAbove(z, dir); }
  }

  // One step on, what is tracked is still there.
  lemma TrackedIsThere(now: Tree, last: Action, y: Path)
    requires y in now && Fits(now, last) && TrackOne(last, y).Some?
    ensures TrackOne(last, y).value in Apply(now, last, File(""))
  {
    if last.DoRename? {
      var z := Moved(y, last.from, last.to);
      RelocateAt(now, last.from, last.to, z);
      if Under(y, last.from) { MovedIsUnder(y, last.from, last.to); }
    }
  }

  lemma PutIsThere(now: Tree, last: Action)
    requires Fits(now, last) && Placed(last).Some?
    ensures Placed(last).value in Apply(now, last, File(""))
  {
    if last.DoRename? {
      TrackedIsThere(now, last, last.from);
      assert Moved(last.from, last.from, last.to) == last.to;
    }
  }

  lemma TrackSplits(changes: seq<Action>, path: Path, z: Path) returns (y: Path)
    requires changes != [] && EndsAt(changes, path, z)
    ensures EndsAt(changes[..|changes| - 1], path, y) && TrackOne(changes[|changes| - 1], y) == Some(z)
  {
    y := Track(changes[..|changes| - 1], path).value;
  }

  /** And what stayed in it or was put there stands in it. */
  lemma {:induction false} EntryLands(t: Tree, changes: seq<Action>, at: Path, z: Path)
    requires WellFormed(t) && Grounded(t, changes) && (EntryStays(t, changes, at, z) || EntryComes(changes, z))
    ensures z in Forward(t, changes)
    decreases |changes|
  {
    if changes == [] {
    } else {
      hide Forward, Apply, Fits, TrackOne, Placed;
      var before, last := changes[..|changes| - 1], changes[|changes| - 1];
      ForwardOneMore(t, changes);
      if EntryStays(t, changes, at, z) {
        var e :| e in t && e != [] && Parent(e).value == at && EndsAt(changes, e, z);
        var y := TrackSplits(changes, e, z);
        EntryLands(t, before, at, y);
        TrackedIsThere(Forward(t, before), last, y);
      } else {
        var i :| 0 <= i < |changes| && Placed(changes[i]).Some?
                 && EndsAt(changes[i + 1..], Placed(changes[i]).value, z);
        if i == |changes| - 1 {
          assert changes[i + 1..] == [];
          PutIsThere(Forward(t, before), last);
        } else {
          var y := TrackSplits(changes[i + 1..], Placed(changes[i]).value, z);
          assert changes[i + 1..][..|changes| - i - 2] == before[i + 1..] && before[i] == changes[i];
          EntryLands(t, before, at, y);
          TrackedIsThere(Forward(t, before), last, y);
        }
      }
    }
  }

  lemma ForwardOneMore(t: Tree, changes: seq<Action>)
    requires changes != [] && Grounded(t, changes)
    ensures var before, last := changes[..|changes| - 1], changes[|changes| - 1];
            && Grounded(t, before) && Fits(Forward(t, before), last)
            && Forward(t, changes) == Apply(Forward(t, before), last, File(""))
  {
  }

  /** Carried through `changes`, `path` ends as an entry of `q`. */
  predicate EndsIn(changes: seq<Action>, path: Path, q: Path) {
    var end := Track(changes, path);
    end.Some? && end.value != [] && Parent(end.value).value == q
  }

  /** What a caller can tell from the steps alone: some entry of the disk's `at` is
      tracked to stay in `q`, or some create or rename ends in `q`. */
  predicate LeftFull(t: Tree, changes: seq<Action>, at: Path, q: Path) {
    || (exists e | e in t :: e != [] && Parent(e).value == at && EndsIn(changes, e, q))
    || (exists i | 0 <= i < |changes| ::
          Placed(changes[i]).Some? && EndsIn(changes[i + 1..], Placed(changes[i]).value, q))
  }

  lemma LeftFullIsFull(t: Tree, changes: seq<Action>, at: Path, q: Path)
    requires WellFormed(t) && Grounded(t, changes) && FindIn(changes, q) == OnDisk(at)
    ensures HasEntries(Forward(t, changes), q) <==> LeftFull(t, changes, at, q)
  {
    hide Forward, Grounded, WellFormed, FindIn, Track;
    if HasEntries(Forward(t, changes), q) {
      var z :| z in Forward(t, changes) && z != [] && Parent(z).value == q;
      EntryHasOrigin(t, changes, z, at);
      if EntryStays(t, changes, at, z) {
        var e :| e in t && e != [] && Parent(e).value == at && EndsAt(changes, e, z);
        assert EndsIn(changes, e, q);
      } else {
        var i :| 0 <= i < |changes| && Placed(changes[i]).Some?
                 && EndsAt(changes[i + 1..], Placed(changes[i]).value, z);
        assert EndsIn(changes[i + 1..], Placed(changes[i]).value, q);
      }
    } else if LeftFull(t, changes, at, q) {
      if e :| e in t && e != [] && Parent(e).value == at && EndsIn(changes, e, q) {
        var z := Track(changes, e).value;
        assert EndsAt(changes, e, z);
        EntryLands(t, changes, at, z);
      } else {
        var i :| 0 <= i < |changes| && Placed(changes[i]).Some?
                 && EndsIn(changes[i + 1..], Placed(changes[i]).value, q);
        var z := Track(changes[i + 1..], Placed(changes[i]).value).value;
        assert EndsAt(changes[i + 1..], Placed(changes[i]).value, z);
        EntryLands(t, changes, at, z);
      }
    }
  }

  /** The planner's check for a directory with files in it, against the tree that
      the steps so far make: right for every path, unless that path is a directory
      of the disk whose being empty there and being left empty by the steps differ. */
  lemma EmptyCheckIsRight(t: Tree, changes: seq<Action>, q: Path)
    requires WellFormed(t) && Grounded(t, changes)
    ensures var found := FindIn(changes, q);
            (IsDirectoryWithFilesIn(t, changes, q) <==> HasEntries(Forward(t, changes), q)) <==>
            (found.OnDisk? && IsDirectory(t, found.at) ==> (HasEntries(t, found.at) <==> LeftFull(t, changes, found.at, q)))
  {
    hide Forward, Grounded, WellFormed, LeftFull, FindIn;
    var found, now := FindIn(changes, q), Forward(t, changes);
    if found.OnDisk? && IsDirectory(t, found.at) {
      LeftFullIsFull(t, changes, found.at, q);
    } else {
      NoEntriesElsewhere(t, changes, q);
    }
  }

  lemma NoEntriesElsewhere(t: Tree, changes: seq<Action>, q: Path)
    requires WellFormed(t) && Grounded(t, changes)
    requires var found := FindIn(changes, q); !(found.OnDisk? && IsDirectory(t, found.at))
    ensures !HasEntries(Forward(t, changes), q)
  {
    hide Grounded, FindIn, ApplyAll;
    FindAgrees(t, changes, q);
    WorldMirrorsForward(t, changes);
    ForwardIsWellFormed(t, changes);
  }

  /** An input for each way it goes wrong, since the disk is asked and not the plan:
      a file planned into an empty directory is deleted with it, and a directory
      whose files are all planned away is refused. */
  lemma EmptyCheckAsksDisk(name: string, file: string)
    ensures var t: Tree := map[[] := Directory, [name] := Directory];
            PlanAll(t, Planner([], []),
                    [(0, Create([name, file], false, false)), (0, Delete([name], false, false))]).Ok?
    ensures var t: Tree := map[[] := Directory, [name] := Directory, [name, file] := File("")];
            PlanAll(t, Planner([], []),
                    [(0, Delete([name, file], false, false)), (0, Delete([name], false, false))]) == Err(HasFiles([name]))
  {
    var start, inside, dir := Planner([], []), [name, file], [name];
    var none: seq<(nat, Operation)> := [];
    assert Actions([]) == [];
    var t: Tree := map[[] := Directory, dir := Directory];
    var made := Planner([Step(0, DoCreate(inside))], []);
    assert |inside| == 2 && |dir| == 1;
    assert Actions(start.steps) == [] && FindIn([], inside) == OnDisk(inside);
    assert !ExistsIn(t, [], inside);
    assert start.steps + [Step(0, DoCreate(inside))] == made.steps;
    assert PlanOne(t, start, 0, Create(inside, false, false)) == Ok(made);
    assert Actions(made.steps) == [DoCreate(inside)];
    assert FindIn([DoCreate(inside)], dir) == OnDisk(dir);
    assert PlanOne(t, made, 0, Delete(dir, false, false)).Ok?;
    PlanTwo(t, start, Create(inside, false, false), Delete(dir, false, false));

    var full: Tree := t[inside := File("")];
    var emptied := Planner([Step(0, DoDelete(inside))], []);
    assert !Under([], inside) && !Under(dir, inside);
    assert start.steps + [Step(0, DoDelete(inside))] == emptied.steps;
    assert ExistsIn(full, [], inside) && !IsDirectoryWithFilesIn(full, [], inside);
    assert PlanOne(full, start, 0, Delete(inside, false, false)) == Ok(emptied);
    assert Actions(emptied.steps) == [DoDelete(inside)];
    assert FindIn([DoDelete(inside)], dir) == OnDisk(dir);
    assert Parent(inside).value == dir;
    assert PlanOne(full, emptied, 0, Delete(dir, false, false)) == Err(HasFiles(dir));
    PlanTwo(full, start, Delete(inside, false, false), Delete(dir, false, false));
  }

  lemma PlanTwo(t: Tree, p: Planner, first: Operation, second: Operation)
    ensures PlanAll(t, p, [(0, first), (0, second)]) ==
            match PlanOne(t, p, 0, first)
            case Err(why) => Err(why)
            case Ok(next) => PlanOne(t, next, 0, second)
  {
    var both: seq<(nat, Operation)> := [(0, first), (0, second)];
    assert both[1..] == [(0, second)];
    if PlanOne(t, p, 0, first).Ok? {
      var next, last := PlanOne(t, p, 0, first).value, both[1..];
      assert last[1..] == [];
      assert PlanAll(t, next, last) == PlanOne(t, next, 0, second);
    }
  }
}
