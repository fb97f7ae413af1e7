/** What the operations ask for, on trees, against what the planner makes of them. */
module FileMeaning {
  import opened Options
  import opened Paths
  import opened Disks
  import opened FilePlan
  import opened FileWorld
  import opened FilePlanned

  type Edit = seq<(nat, Operation)>

  /** What one operation makes of a tree, `made` being a new file. A create makes its
      file where there is none and replaces what is there only to overwrite it, a
      rename likewise, a delete takes a subtree away; else the tree is as it was. */
  function Meant<V>(m: map<Path, V>, op: Operation, made: V): map<Path, V> {
    match op
    case Create(path, overwrite, _) =>
      if path !in m then m[path := made] else if overwrite then Without(m, path)[path := made] else m
    case Rename(from, to, overwrite, _) =>
      if to !in m then Relocate(m, from, to) else if overwrite then Relocate(Without(m, to), from, to) else m
    case Delete(path, _, _) => if path in m then Without(m, path) else m
  }

  function MeantAll<V>(m: map<Path, V>, edit: Edit, made: V): map<Path, V> {
    if edit == [] then m else Meant(MeantAll(m, edit[..|edit| - 1], made), edit[|edit| - 1].1, made)
  }

  /** Where everything on the disk stands after an edit: each path with its origin. */
  function Origins(t: Tree, edit: Edit): map<Path, Found> {
    MeantAll(map p | p in t :: OnDisk(p), edit, Created)
  }

  /** Where the unsaved files are after an edit: a rename takes them along. */
  function Carried(t: Tree, unsaved: seq<Path>, edit: Edit): seq<Path> {
    if edit == [] then unsaved
    else
      var n := |edit| - 1;
      var before, op := Carried(t, unsaved, edit[..n]), edit[n].1;
      if op.Rename? && (op.to !in Origins(t, edit[..n]) || op.overwrite) then MoveAll(before, op.from, op.to) else before
  }

  /** What an operation would take away that is there. */
  function Removes(w: map<Path, Found>, op: Operation): Option<Path> {
    match op
    case Create(path, overwrite, _) => if path in w && overwrite then Some(path) else None
    case Rename(from, to, overwrite, _) => if from in w && to in w && overwrite then Some(to) else None
    case Delete(path, _, _) => if path in w then Some(path) else None
  }

  predicate FirstWithin(unsaved: seq<Path>, dir: Path, open: Path) {
    exists k | 0 <= k < |unsaved| ::
      unsaved[k] == open && Under(open, dir) && forall j | 0 <= j < k :: !Under(unsaved[j], dir)
  }

  predicate FullOnDisk(t: Tree, found: Found) {
    found.OnDisk? && IsDirectory(t, found.at) && HasEntries(t, found.at)
  }

  /** Why an operation cannot be done where everything stands as in `w` and the
      unsaved files are at `unsaved`: what it needs is missing, what it makes is
      there, what it deletes has files, or what it takes away holds unsaved changes. */
  predicate Refuses(t: Tree, w: map<Path, Found>, unsaved: seq<Path>, op: Operation, why: Refusal) {
    match why
    case DoesNotExist(path) =>
      && path !in w
      && ((op.Rename? && path == op.from) || (op.Delete? && path == op.path && !op.ignoreIfNotExists))
    case AlreadyExists(path) =>
      && path in w && !op.Delete? && !op.overwrite && !op.ignoreIfExists
      && if op.Create? then path == op.path else path == op.to && op.from in w
    case HasFiles(path) =>
      path in w && op.Delete? && path == op.path && !op.recursive && FullOnDisk(t, w[path])
    case UnsavedChanges(open) =>
      && Removes(w, op).Some? && FirstWithin(unsaved, Removes(w, op).value, open)
      && (op.Delete? ==> op.recursive || !FullOnDisk(t, w[op.path]))
  }

  // One operation

  lemma {:induction false} FirstUnderIsFirst(unsaved: seq<Path>, dir: Path, open: Path)
    ensures FirstUnder(unsaved, dir) == Some(open) <==> FirstWithin(unsaved, dir, open)
    ensures FirstUnder(unsaved, dir).None? ==> !FirstWithin(unsaved, dir, open)
    decreases |unsaved|
  {
    if unsaved != [] {
      var rest := unsaved[1..];
      FirstUnderIsFirst(rest, dir, open);
      if FirstWithin(rest, dir, open) && !Under(unsaved[0], dir) {
        var k :| 0 <= k < |rest| && rest[k] == open && Under(open, dir) && forall j | 0 <= j < k :: !Under(rest[j], dir);
        assert unsaved[k + 1] == open;
        forall j | 0 <= j < k + 1 ensures !Under(unsaved[j], dir) {
          assert j > 0 ==> unsaved[j] == rest[j - 1];
        }
      }
      if FirstWithin(unsaved, dir, open) {
        var k :| 0 <= k < |unsaved| && unsaved[k] == open && Under(open, dir) && forall j | 0 <= j < k :: !Under(unsaved[j], dir);
        if k > 0 {
          assert rest[k - 1] == open;
          forall j | 0 <= j < k - 1 ensures !Under(rest[j], dir) {
            assert rest[j] == unsaved[j + 1];
          }
        }
      }
    }
  }

  /** The planner's three questions about a path, answered from where things stand. */
  lemma AsksAreAnswered(t: Tree, changes: seq<Action>, q: Path)
    requires WellFormed(t) && Grounded(t, changes)
    ensures var w := World(t, changes);
            && (ExistsIn(t, changes, q) <==> q in w)
            && (q in w ==> (IsDirectoryWithFilesIn(t, changes, q) <==> FullOnDisk(t, w[q])))
  {
    hide Grounded, FindIn, HasEntries;
    FindAgrees(t, changes, q);
    WorldMirrorsForward(t, changes);
  }

  /** The planner refuses an operation exactly when, and for the reason that, it
      cannot be done. */
  lemma RefusesRightly(t: Tree, p: Planner, position: nat, op: Operation, why: Refusal)
    requires WellFormed(t) && Grounded(t, Actions(p.steps))
    ensures PlanOne(t, p, position, op) == Err(why) <==> Refuses(t, World(t, Actions(p.steps)), p.unsaved, op, why)
  {
    hide WellFormed, Grounded, ExistsIn, IsDirectoryWithFilesIn, FullOnDisk, FirstUnder, FirstWithin, MoveAll, World, Actions;
    var changes := Actions(p.steps);
    var path := if op.Rename? then op.to else op.path;
    AsksAreAnswered(t, changes, path);
    if op.Rename? {
      AsksAreAnswered(t, changes, op.from);
    }
    if why.UnsavedChanges? {
      FirstUnderIsFirst(p.unsaved, path, why.open);
    }
    if FirstUnder(p.unsaved, path).Some? {
      FirstUnderIsFirst(p.unsaved, path, FirstUnder(p.unsaved, path).value);
    }
  }

  lemma SameKeys<V, W>(m: map<Path, V>, n: map<Path, W>, action: Action, made: V, made': W)
    requires m.Keys == n.Keys
    ensures Apply(m, action, made).Keys == Apply(n, action, made').Keys
  {
    if action.DoRename? {
      forall q ensures q in Apply(m, action, made) <==> q in Apply(n, action, made') {
        RelocateAt(m, action.from, action.to, q);
        RelocateAt(n, action.from, action.to, q);
      }
    }
  }

  lemma {:induction false} SameKeysAll<V, W>(m: map<Path, V>, n: map<Path, W>, changes: seq<Action>, made: V, made': W)
    requires m.Keys == n.Keys
    ensures ApplyAll(m, changes, made).Keys == ApplyAll(n, changes, made').Keys
  {
    if changes != [] {
      var before := changes[..|changes| - 1];
      SameKeysAll(m, n, before, made, made');
      SameKeys(ApplyAll(m, before, made), ApplyAll(n, before, made'), changes[|changes| - 1], made, made');
    }
  }

  lemma ApplyLast<V>(m: map<Path, V>, steps: seq<Step>, step: Step, made: V)
    ensures ApplyAll(m, Actions(steps + [step]), made) == Apply(ApplyAll(m, Actions(steps), made), step.action, made)
  {
    ActionsExtend(steps, step);
  }

  /** The steps planned for an operation do what it asks for, to any map kept in
      step with the tree, and stand where it stood among the text changes. */
  lemma PlansWhatIsMeant<V>(t: Tree, p: Planner, position: nat, op: Operation, m: map<Path, V>, made: V)
    requires WellFormed(t) && Grounded(t, Actions(p.steps)) && m.Keys == t.Keys
    requires PlanOne(t, p, position, op).Ok?
    ensures var next := PlanOne(t, p, position, op).value;
            ApplyAll(m, Actions(next.steps), made) == Meant(ApplyAll(m, Actions(p.steps), made), op, made)
  {
    hide WellFormed, Grounded, ExistsIn, IsDirectoryWithFilesIn, FirstUnder, MoveAll, ApplyAll, Actions, Without, Relocate;
    var steps, changes := p.steps, Actions(p.steps);
    SameKeysAll(m, map q | q in t :: OnDisk(q), changes, made, Created);
    var path := if op.Rename? then op.to else op.path;
    AsksAreAnswered(t, changes, path);
    var gone := steps + [Step(position, DoDelete(path))];
    ApplyLast(m, steps, Step(position, DoDelete(path)), made);
    match op
    case Create(_, _, _) =>
      ApplyLast(m, steps, Step(position, DoCreate(path)), made);
      ApplyLast(m, gone, Step(position, DoCreate(path)), made);
    case Rename(from, _, _, _) =>
      ApplyLast(m, steps, Step(position, DoRename(from, path)), made);
      ApplyLast(m, gone, Step(position, DoRename(from, path)), made);
    case Delete(_, _, _) =>
  }

  /** It carries the unsaved files along, and adds steps at the one position. */
  lemma PlanOneCarries(t: Tree, p: Planner, position: nat, op: Operation)
    requires WellFormed(t) && Grounded(t, Actions(p.steps)) && PlanOne(t, p, position, op).Ok?
    ensures var next := PlanOne(t, p, position, op).value;
            && next.unsaved == (if op.Rename? && (op.to !in World(t, Actions(p.steps)) || op.overwrite)
                                then MoveAll(p.unsaved, op.from, op.to) else p.unsaved)
            && |p.steps| <= |next.steps| && next.steps[..|p.steps|] == p.steps
            && forall k | |p.steps| <= k < |next.steps| :: next.steps[k].position == position
  {
    hide WellFormed, Grounded, ExistsIn, IsDirectoryWithFilesIn, FirstUnder, MoveAll, World, Actions;
    if op.Rename? {
      AsksAreAnswered(t, Actions(p.steps), op.to);
    }
  }

  // The whole edit

  lemma {:induction false} PlanAllLast(t: Tree, p: Planner, edit: Edit)
    requires edit != []
    ensures var n := |edit| - 1;
            PlanAll(t, p, edit) ==
            match PlanAll(t, p, edit[..n])
            case Err(why) => Err(why)
            case Ok(q) => PlanOne(t, q, edit[n].0, edit[n].1)
    decreases edit
  {
    hide PlanOne;
    var n := |edit| - 1;
    if n > 0 {
      assert edit[..n][1..] == edit[1..][..n - 1];
      var first := PlanOne(t, p, edit[0].0, edit[0].1);
      if first.Ok? {
        PlanAllLast(t, first.value, edit[1..]);
      }
    } else {
      assert edit[1..] == [];
    }
  }

  lemma {:induction false} GroundedPrefix(t: Tree, changes: seq<Action>, n: nat)
    requires n <= |changes| && Grounded(t, changes)
    ensures Grounded(t, changes[..n])
    decreases |changes|
  {
    if n < |changes| {
      GroundedPrefix(t, changes[..|changes| - 1], n);
      assert changes[..|changes| - 1][..n] == changes[..n];
    } else {
      assert changes[..n] == changes;
    }
  }

  function Planned(t: Tree, unsaved: seq<Path>, edit: Edit): Result<Planner, Refusal> {
    PlanAll(t, Planner([], unsaved), edit)
  }

  /** The plan is accepted so far and its steps fit the tree. */
  ghost predicate Stands(t: Tree, unsaved: seq<Path>, edit: Edit) {
    Planned(t, unsaved, edit).Ok? && Grounded(t, Actions(Planned(t, unsaved, edit).value.steps))
  }

  /** With a plan that stands, all but its last operation stood before. */
  lemma StoodBefore(t: Tree, unsaved: seq<Path>, edit: Edit)
    requires edit != [] && Stands(t, unsaved, edit)
    ensures Stands(t, unsaved, edit[..|edit| - 1])
  {
    var n := |edit| - 1;
    PlanAllLast(t, Planner([], unsaved), edit);
    var before, after := Planned(t, unsaved, edit[..n]).value, Planned(t, unsaved, edit).value;
    assert after == PlanOne(t, before, edit[n].0, edit[n].1).value;
    PlanOneExtends(t, before, edit[n].0, edit[n].1);
    assert Actions(after.steps)[..|before.steps|] == Actions(before.steps);
    GroundedPrefix(t, Actions(after.steps), |before.steps|);
  }

  lemma PlanOneExtends(t: Tree, p: Planner, position: nat, op: Operation)
    requires PlanOne(t, p, position, op).Ok?
    ensures p.steps <= PlanOne(t, p, position, op).value.steps
  {
    hide ExistsIn, IsDirectoryWithFilesIn, FirstUnder, MoveAll, Actions;
  }

  /** Any map kept in step with the tree ends as the edit means it to. */
  lemma {:induction false} StepsDoAllThatIsMeant<V>(t: Tree, unsaved: seq<Path>, edit: Edit, m: map<Path, V>, made: V)
    requires WellFormed(t) && m.Keys == t.Keys && Stands(t, unsaved, edit)
    ensures ApplyAll(m, Actions(Planned(t, unsaved, edit).value.steps), made) == MeantAll(m, edit, made)
    decreases edit
  {
    if edit != [] {
      hide WellFormed, PlanOne, Grounded, ApplyAll, Meant, PlanAll;
      var n := |edit| - 1;
      StoodBefore(t, unsaved, edit);
      StepsDoAllThatIsMeant(t, unsaved, edit[..n], m, made);
      PlanAllLast(t, Planner([], unsaved), edit);
      PlansWhatIsMeant(t, Planned(t, unsaved, edit[..n]).value, edit[n].0, edit[n].1, m, made);
    } else {
      assert Actions([]) == [];
    }
  }

  /** An accepted plan that fits its tree does what was asked for: the tree its
      steps make is the one its operations mean, one after another, with every
      entry's origin and every unsaved file where they say. */
  lemma {:induction false} AcceptedDoesWhatIsMeant(t: Tree, unsaved: seq<Path>, edit: Edit)
    requires WellFormed(t) && Stands(t, unsaved, edit)
    ensures var p := Planned(t, unsaved, edit).value;
            && Forward(t, Actions(p.steps)) == MeantAll(t, edit, File(""))
            && World(t, Actions(p.steps)) == Origins(t, edit)
            && p.unsaved == Carried(t, unsaved, edit)
    decreases edit
  {
    hide WellFormed, PlanOne, Grounded, ApplyAll, MeantAll, PlanAll;
    StepsDoAllThatIsMeant(t, unsaved, edit, t, File(""));
    StepsDoAllThatIsMeant(t, unsaved, edit, map p | p in t :: OnDisk(p), Created);
    if edit == [] {
      NothingPlanned(t, Planner([], unsaved));
    } else {
      var n := |edit| - 1;
      StoodBefore(t, unsaved, edit);
      AcceptedDoesWhatIsMeant(t, unsaved, edit[..n]);
      PlanAllLast(t, Planner([], unsaved), edit);
      PlanOneCarries(t, Planned(t, unsaved, edit[..n]).value, edit[n].0, edit[n].1);
    }
  }

  lemma NothingPlanned(t: Tree, p: Planner)
    ensures PlanAll(t, p, []) == Ok(p)
  {
  }

  /** Operation `i` cannot be done where the ones before it leave things. */
  predicate RefusedAt(t: Tree, unsaved: seq<Path>, edit: Edit, i: nat, why: Refusal)
    requires i < |edit|
  {
    Refuses(t, Origins(t, edit[..i]), Carried(t, unsaved, edit[..i]), edit[i].1, why)
  }

  /** It is the first of which that is so. */
  ghost predicate FirstRefused(t: Tree, unsaved: seq<Path>, edit: Edit, i: nat, why: Refusal)
    requires i < |edit|
  {
    RefusedAt(t, unsaved, edit, i, why) && forall j: nat, y | j < i :: !RefusedAt(t, unsaved, edit, j, y)
  }

  lemma LastRefused(t: Tree, unsaved: seq<Path>, edit: Edit, why: Refusal)
    requires WellFormed(t) && edit != [] && Stands(t, unsaved, edit[..|edit| - 1])
    ensures Planned(t, unsaved, edit) == Err(why) <==> RefusedAt(t, unsaved, edit, |edit| - 1, why)
  {
    hide WellFormed, PlanOne, Grounded, PlanAll, Refuses, Origins, Carried;
    var n := |edit| - 1;
    PlanAllLast(t, Planner([], unsaved), edit);
    AcceptedDoesWhatIsMeant(t, unsaved, edit[..n]);
    RefusesRightly(t, Planned(t, unsaved, edit[..n]).value, edit[n].0, edit[n].1, why);
  }

  lemma RefusedAtPrefix(t: Tree, unsaved: seq<Path>, edit: Edit, n: nat, j: nat, why: Refusal)
    requires j < n <= |edit|
    ensures RefusedAt(t, unsaved, edit[..n], j, why) <==> RefusedAt(t, unsaved, edit, j, why)
  {
    hide Refuses, Origins, Carried;
    assert edit[..n][..j] == edit[..j];
  }

  /** As far as the plan is accepted, it fits. */
  ghost predicate FitsAsFar(t: Tree, unsaved: seq<Path>, edit: Edit) {
    forall n | 0 <= n <= |edit| :: Planned(t, unsaved, edit[..n]).Ok? ==> Stands(t, unsaved, edit[..n])
  }

  lemma FitsLessFar(t: Tree, unsaved: seq<Path>, edit: Edit, n: nat)
    requires n <= |edit| && FitsAsFar(t, unsaved, edit)
    ensures FitsAsFar(t, unsaved, edit[..n])
    ensures Planned(t, unsaved, edit[..n]).Ok? ==> Stands(t, unsaved, edit[..n])
  {
    hide Planned, Stands;
    forall k | 0 <= k <= n ensures Planned(t, unsaved, edit[..n][..k]).Ok? ==> Stands(t, unsaved, edit[..n][..k]) {
      assert edit[..n][..k] == edit[..k];
    }
  }

  /** A plan whose accepted part fits the tree is refused exactly when some operation
      cannot be done where those before it leave things, and then for the first
      one's reason. */
  lemma {:induction false} RefusedWhenImpossible(t: Tree, unsaved: seq<Path>, edit: Edit, why: Refusal)
    requires WellFormed(t) && FitsAsFar(t, unsaved, edit)
    ensures Planned(t, unsaved, edit) == Err(why) <==> exists i: nat | i < |edit| :: FirstRefused(t, unsaved, edit, i, why)
    decreases edit
  {
    hide WellFormed, Stands, PlanAll, PlanOne, RefusedAt, FitsAsFar;
    if edit == [] {
      NothingPlanned(t, Planner([], unsaved));
    } else {
      var n := |edit| - 1;
      PlanAllLast(t, Planner([], unsaved), edit);
      FitsLessFar(t, unsaved, edit, n);
      if Planned(t, unsaved, edit[..n]).Ok? {
        forall i: nat, y: Refusal | i < n ensures !FirstRefused(t, unsaved, edit, i, y) {
          RefusedWhenImpossible(t, unsaved, edit[..n], y);
          FirstRefusedPrefix(t, unsaved, edit, n, y);
        }
        LastRefused(t, unsaved, edit, why);
        NoneRefusedBefore(t, unsaved, edit, n);
        assert RefusedAt(t, unsaved, edit, n, why) <==> FirstRefused(t, unsaved, edit, n, why);
      } else {
        var y := Planned(t, unsaved, edit[..n]).error;
        RefusedWhenImpossible(t, unsaved, edit[..n], y);
        FirstRefusedPrefix(t, unsaved, edit, n, y);
        var i: nat :| i < n && FirstRefused(t, unsaved, edit, i, y);
        RefusedWhenImpossible(t, unsaved, edit[..n], why);
        FirstRefusedPrefix(t, unsaved, edit, n, why);
        assert RefusedAt(t, unsaved, edit, i, y);
      }
    }
  }

  lemma FirstRefusedPrefix(t: Tree, unsaved: seq<Path>, edit: Edit, n: nat, why: Refusal)
    requires n <= |edit|
    ensures (exists i: nat | i < n :: FirstRefused(t, unsaved, edit[..n], i, why)) <==>
            exists i: nat | i < n :: FirstRefused(t, unsaved, edit, i, why)
  {
    hide RefusedAt;
    forall i: nat | i < n ensures FirstRefused(t, unsaved, edit[..n], i, why) <==> FirstRefused(t, unsaved, edit, i, why) {
      forall j: nat, y: Refusal | j <= i ensures RefusedAt(t, unsaved, edit[..n], j, y) <==> RefusedAt(t, unsaved, edit, j, y) {
        RefusedAtPrefix(t, unsaved, edit, n, j, y);
      }
    }
  }

  /** With no first one, there is none. */
  lemma {:induction false} NoneRefusedBefore(t: Tree, unsaved: seq<Path>, edit: Edit, n: nat)
    requires n <= |edit|
    requires forall i: nat, y: Refusal | i < n :: !FirstRefused(t, unsaved, edit, i, y)
    ensures forall j: nat, y: Refusal | j < n :: !RefusedAt(t, unsaved, edit, j, y)
  {
    hide RefusedAt;
    if n > 0 {
      var last := n - 1;
      NoneRefusedBefore(t, unsaved, edit, last);
      forall y: Refusal ensures !RefusedAt(t, unsaved, edit, last, y) {
        assert !FirstRefused(t, unsaved, edit, last, y);
      }
    }
  }

  /** The steps of operation `i` stand where it did among the text changes. */
  lemma StepsKeepTheirPlace(t: Tree, unsaved: seq<Path>, edit: Edit)
    requires WellFormed(t) && edit != [] && Stands(t, unsaved, edit)
    ensures Planned(t, unsaved, edit[..|edit| - 1]).Ok?
    ensures var before, after := Planned(t, unsaved, edit[..|edit| - 1]).value.steps, Planned(t, unsaved, edit).value.steps;
            before <= after && forall k | |before| <= k < |after| :: after[k].position == edit[|edit| - 1].0
  {
    hide WellFormed, PlanOne, Grounded, PlanAll;
    var n := |edit| - 1;
    StoodBefore(t, unsaved, edit);
    PlanAllLast(t, Planner([], unsaved), edit);
    PlanOneCarries(t, Planned(t, unsaved, edit[..n]).value, edit[n].0, edit[n].1);
  }
}
