/** What a commit's calls come to: the tree, the log and how far it got. */
module FileSteps {
  import opened Paths
  import opened Disks
  import opened FilePlan
  import opened FileUndo

  function Decimal(n: nat): string {
    if n < 10 then ["0123456789"[n]] else Decimal(n / 10) + ["0123456789"[n % 10]]
  }

  function AsideName(name: string, pid: string, number: nat): string {
    "." + name + ".bish-deleted-" + pid + "-" + Decimal(number)
  }

  /** The aside name that number `number` gives `path`: its last component changed. */
  function AsideFor(path: Path, pid: string, number: nat): Path {
    if path == [] then [AsideName("", pid, number)]
    else path[..|path| - 1] + [AsideName(path[|path| - 1], pid, number)]
  }

  /** The directories above `path` that are missing, nearest first. */
  function MissingAbove(t: Tree, path: Path): seq<Path> {
    if path == [] then []
    else
      var up := path[..|path| - 1];
      if up == [] || up in t then [] else [up] + MissingAbove(t, up)
  }

  /** The tree with the last `n` of `dirs` made. */
  function MadeFrom(t: Tree, dirs: seq<Path>, n: nat): Tree
    requires n <= |dirs|
  {
    if n == 0 then t else MadeFrom(t, dirs, n - 1)[dirs[|dirs| - n] := Directory]
  }

  function WithParents(t: Tree, path: Path): Tree {
    MadeFrom(t, MissingAbove(t, path), |MissingAbove(t, path)|)
  }

  /** Nothing but a directory is in the way of making them. */
  predicate CanMakeParents(t: Tree, path: Path) {
    var missing := MissingAbove(t, path);
    missing == [] || CanMake(t, missing[|missing| - 1])
  }

  /** What a step that goes through does. */
  function Effect(t: Tree, action: Action, aside: Path): Tree {
    match action
    case DoCreate(path) => WithParents(t, path)[path := File("")]
    case DoRename(from, to) => Relocate(WithParents(t, to), from, to)
    case DoDelete(path) => Relocate(t, path, aside)
  }

  /** Whether the tree lets it. */
  predicate Possible(t: Tree, action: Action, aside: Path) {
    match action
    case DoCreate(path) => CanMakeParents(t, path) && CanMake(WithParents(t, path), path)
    case DoRename(from, to) => CanMakeParents(t, to) && CanRename(WithParents(t, to), from, to)
    case DoDelete(path) => CanRename(t, path, aside)
  }

  /** Nothing is where the step will rename something to. */
  predicate TargetFree(t: Tree, action: Action, aside: Path) {
    match action
    case DoCreate(_) => true
    case DoRename(from, to) => from == to || to !in t
    case DoDelete(_) => aside !in t
  }

  function AsideOf(action: Action, pid: string, number: nat): Path {
    if action.DoDelete? then AsideFor(action.path, pid, number) else []
  }

  function After(action: Action, number: nat): nat {
    if action.DoDelete? then number + 1 else number
  }

  /** The tree lets every step through. */
  predicate PossibleRun(t: Tree, actions: seq<Action>, pid: string, number: nat)
    decreases actions
  {
    if actions == [] then true
    else
      var aside := AsideOf(actions[0], pid, number);
      && Possible(t, actions[0], aside)
      && PossibleRun(Effect(t, actions[0], aside), actions[1..], pid, After(actions[0], number))
  }

  /** Every step finds its rename target, or its aside name, free. */
  predicate FreeRun(t: Tree, actions: seq<Action>, pid: string, number: nat)
    decreases actions
  {
    if actions == [] then true
    else
      var aside := AsideOf(actions[0], pid, number);
      && TargetFree(t, actions[0], aside)
      && FreeRun(Effect(t, actions[0], aside), actions[1..], pid, After(actions[0], number))
  }

  function RunAll(t: Tree, actions: seq<Action>, pid: string, number: nat): Tree
    decreases actions
  {
    if actions == [] then t
    else
      RunAll(Effect(t, actions[0], AsideOf(actions[0], pid, number)), actions[1..], pid, After(actions[0], number))
  }

  lemma {:induction false} MissingShape(t: Tree, path: Path)
    requires WellFormed(t)
    ensures forall i | 0 <= i < |MissingAbove(t, path)| :: MissingAbove(t, path)[i] !in t && |MissingAbove(t, path)[i]| == |path| - 1 - i
    ensures forall i | 0 <= i < |MissingAbove(t, path)| - 1 ::
              MissingAbove(t, path)[i] != [] && Parent(MissingAbove(t, path)[i]).value == MissingAbove(t, path)[i + 1]
    ensures MissingAbove(t, path) != [] ==> path != [] && MissingAbove(t, path)[0] == Parent(path).value
    decreases |path|
  {
    if path != [] && path[..|path| - 1] != [] && path[..|path| - 1] !in t {
      MissingShape(t, path[..|path| - 1]);
    }
  }

  lemma {:induction false} MadeFromAt(t: Tree, dirs: seq<Path>, n: nat, q: Path)
    requires n <= |dirs|
    ensures q in MadeFrom(t, dirs, n) <==> q in t || q in dirs[|dirs| - n..]
    ensures q in MadeFrom(t, dirs, n) && q !in dirs[|dirs| - n..] ==> MadeFrom(t, dirs, n)[q] == t[q]
    ensures q in dirs[|dirs| - n..] ==> IsDirectory(MadeFrom(t, dirs, n), q)
    decreases n
  {
    if n > 0 {
      MadeFromAt(t, dirs, n - 1, q);
      assert dirs[|dirs| - n..] == [dirs[|dirs| - n]] + dirs[|dirs| - n + 1..];
    }
  }

  /** Made outermost first, each directory has its parent by its turn. */
  lemma NextCanBeMade(t: Tree, path: Path, n: nat)
    requires WellFormed(t) && n < |MissingAbove(t, path)| && CanMakeParents(t, path)
    ensures var missing := MissingAbove(t, path);
            CanMake(MadeFrom(t, missing, n), missing[|missing| - 1 - n])
  {
    var missing := MissingAbove(t, path);
    MissingShape(t, path);
    var dir := missing[|missing| - 1 - n];
    MadeFromAt(t, missing, n, dir);
    if n > 0 {
      MadeFromAt(t, missing, n, Parent(dir).value);
      assert missing[|missing| - n] in missing[|missing| - n..];
    }
  }

  // A commit as it goes

  /** A commit under way: the disk's tree and the number of its next call, the
      number of the next aside name, the log, and the names put aside. */
  datatype Trail = Trail(tree: Tree, calls: nat, number: nat, log: seq<Undo>, aside: seq<Path>)

  /** How a call, or several, went: whether all went through, and what is then. */
  datatype Went = Went(ok: bool, trail: Trail)

  function MakeOn(refuses: Refusals, s: Trail, path: Path, node: Node): Went {
    if !refuses(s.calls) && CanMake(s.tree, path) then
      var entry := if node.Directory? then UndoDirectory(path) else UndoFile(path);
      Went(true, s.(tree := s.tree[path := node], calls := s.calls + 1, log := s.log + [entry]))
    else Went(false, s.(calls := s.calls + 1))
  }

  function RenameOn(refuses: Refusals, s: Trail, from: Path, to: Path): Went {
    if !refuses(s.calls) && CanRename(s.tree, from, to) then
      Went(true, s.(tree := Relocate(s.tree, from, to), calls := s.calls + 1, log := s.log + [UndoRename(to, from)]))
    else Went(false, s.(calls := s.calls + 1))
  }

  /** Directories made from the last of `dirs` back, up to the first that fails. */
  function ParentsOn(refuses: Refusals, s: Trail, dirs: seq<Path>): Went
    decreases dirs
  {
    if dirs == [] then Went(true, s)
    else
      var made := MakeOn(refuses, s, dirs[|dirs| - 1], Directory);
      if made.ok then ParentsOn(refuses, made.trail, dirs[..|dirs| - 1]) else made
  }

  /** One step: its directories and then its one call, up to the first that fails. */
  function StepOn(refuses: Refusals, s: Trail, action: Action, pid: string): Went {
    match action
    case DoCreate(path) =>
      var up := ParentsOn(refuses, s, MissingAbove(s.tree, path));
      if up.ok then MakeOn(refuses, up.trail, path, File("")) else up
    case DoRename(from, to) =>
      var up := ParentsOn(refuses, s, MissingAbove(s.tree, to));
      if up.ok then RenameOn(refuses, up.trail, from, to) else up
    case DoDelete(path) =>
      var aside := AsideFor(path, pid, s.number);
      var moved := RenameOn(refuses, s.(number := s.number + 1), path, aside);
      if moved.ok then Went(true, moved.trail.(aside := s.aside + [aside])) else moved
  }

  /** The steps in order, up to the first that fails. */
  function StepsOn(refuses: Refusals, s: Trail, actions: seq<Action>, pid: string): Went
    decreases actions
  {
    if actions == [] then Went(true, s)
    else
      var went := StepOn(refuses, s, actions[0], pid);
      if went.ok then StepsOn(refuses, went.trail, actions[1..], pid) else went
  }

  /** Every rename that goes through finds its target, or its aside name, free. */
  predicate CleanRun(refuses: Refusals, s: Trail, actions: seq<Action>, pid: string)
    decreases actions
  {
    if actions == [] then true
    else
      var went := StepOn(refuses, s, actions[0], pid);
      went.ok ==>
        && TargetFree(s.tree, actions[0], AsideOf(actions[0], pid, s.number))
        && CleanRun(refuses, went.trail, actions[1..], pid)
  }

  /** A tree and its log still lead back to where the commit began. */
  ghost predicate LeadsBack(t: Tree, log: seq<Undo>, start: Tree) {
    WellFormed(t) && RunUndo(t, log) == start
  }

  /** Counts go up, and of the calls made the last alone may have been refused:
      where all went through none was. */
  ghost predicate Counted(refuses: Refusals, s: Trail, went: Went) {
    && s.calls <= went.trail.calls
    && (went.ok ==> Unrefused(refuses, s.calls, went.trail.calls))
    && (!went.ok ==> s.calls < went.trail.calls && Unrefused(refuses, s.calls, went.trail.calls - 1))
  }

  lemma MakingGoes(refuses: Refusals, s: Trail, path: Path, node: Node, start: Tree)
    ensures var went := MakeOn(refuses, s, path, node);
            && Counted(refuses, s, went)
            && (WellFormed(s.tree) ==> WellFormed(went.trail.tree))
            && (LeadsBack(s.tree, s.log, start) && (node.File? ==> node == File("")) ==>
                  LeadsBack(went.trail.tree, went.trail.log, start))
  {
    hide CanMake, RunUndo, WellFormed;
    var went := MakeOn(refuses, s, path, node);
    if went.ok && WellFormed(s.tree) {
      MakeUndone(s.tree, path);
      MakeKeepsWellFormed(s.tree, path, node);
      RunUndoLast(went.trail.tree, s.log, went.trail.log[|s.log|]);
    }
  }

  lemma RenamingGoes(refuses: Refusals, s: Trail, from: Path, to: Path, start: Tree)
    ensures var went := RenameOn(refuses, s, from, to);
            && Counted(refuses, s, went)
            && (WellFormed(s.tree) ==> WellFormed(went.trail.tree))
            && (LeadsBack(s.tree, s.log, start) && (went.ok ==> from == to || to !in s.tree) ==>
                  LeadsBack(went.trail.tree, went.trail.log, start))
  {
    hide CanRename, RunUndo, WellFormed, Relocate;
    var went := RenameOn(refuses, s, from, to);
    if went.ok && WellFormed(s.tree) {
      RenameUndone(s.tree, from, to);
      RenameKeepsWellFormed(s.tree, from, to);
      RunUndoLast(went.trail.tree, s.log, UndoRename(to, from));
    }
  }

  lemma CountedOn(refuses: Refusals, s: Trail, first: Went, then_: Went)
    requires Counted(refuses, s, first) && first.ok && Counted(refuses, first.trail, then_)
    ensures Counted(refuses, s, then_)
  {
  }

  lemma CountedMeans(refuses: Refusals, s: Trail, went: Went)
    requires Counted(refuses, s, went)
    ensures s.calls <= went.trail.calls
    ensures went.ok ==> Unrefused(refuses, s.calls, went.trail.calls)
    ensures !went.ok ==> s.calls < went.trail.calls && (Unrefused(refuses, s.calls, went.trail.calls) <==> !refuses(went.trail.calls - 1))
  {
  }

  lemma NothingCounted(refuses: Refusals, s: Trail)
    ensures Counted(refuses, s, Went(true, s))
  {
  }

  /** What making the directories above `path` in `t` comes to, from some way on. */
  ghost predicate ParentsWent(refuses: Refusals, t: Tree, path: Path, s: Trail, went: Went, start: Tree) {
    && Counted(refuses, s, went)
    && WellFormed(went.trail.tree) && went.trail.number == s.number && went.trail.aside == s.aside
    && (LeadsBack(s.tree, s.log, start) ==> LeadsBack(went.trail.tree, went.trail.log, start))
    && (went.ok ==> went.trail.tree == WithParents(t, path) && CanMakeParents(t, path))
    && (!went.ok ==> (s.calls < went.trail.calls && refuses(went.trail.calls - 1)) || !CanMakeParents(t, path))
  }

  /** With `left` still to make and the rest standing. */
  lemma {:induction false} ParentsGo(refuses: Refusals, t: Tree, path: Path, s: Trail, left: seq<Path>, start: Tree)
    requires WellFormed(t) && WellFormed(s.tree)
    requires left <= MissingAbove(t, path) && s.tree == MadeFrom(t, MissingAbove(t, path), |MissingAbove(t, path)| - |left|)
    requires left == MissingAbove(t, path) || CanMakeParents(t, path)
    ensures ParentsWent(refuses, t, path, s, ParentsOn(refuses, s, left), start)
    decreases left
  {
    hide WellFormed, CanMake, LeadsBack, Counted, MissingAbove, CanMakeParents;
    if left == [] {
      NothingCounted(refuses, s);
      AllMade(t, path);
    } else {
      FirstParentGoes(refuses, t, path, s, left, start);
      var made, rest := MakeOn(refuses, s, left[|left| - 1], Directory), left[..|left| - 1];
      if made.ok {
        ParentsGo(refuses, t, path, made.trail, rest, start);
        CountedOn(refuses, s, made, ParentsOn(refuses, made.trail, rest));
        CountedMeans(refuses, s, made);
      }
    }
  }

  lemma AllMade(t: Tree, path: Path)
    ensures MissingAbove(t, path) == [] ==> CanMakeParents(t, path)
    ensures MadeFrom(t, MissingAbove(t, path), |MissingAbove(t, path)|) == WithParents(t, path)
  {
  }

  /** The next one can be made exactly when all of them could. */
  lemma FirstParentGoes(refuses: Refusals, t: Tree, path: Path, s: Trail, left: seq<Path>, start: Tree)
    requires WellFormed(t) && WellFormed(s.tree)
    requires left <= MissingAbove(t, path) && s.tree == MadeFrom(t, MissingAbove(t, path), |MissingAbove(t, path)| - |left|)
    requires left == MissingAbove(t, path) || CanMakeParents(t, path)
    requires left != []
    ensures var made := MakeOn(refuses, s, left[|left| - 1], Directory);
            && Counted(refuses, s, made) && WellFormed(made.trail.tree)
            && made.trail.number == s.number && made.trail.aside == s.aside
            && (LeadsBack(s.tree, s.log, start) ==> LeadsBack(made.trail.tree, made.trail.log, start))
            && (made.ok ==> CanMakeParents(t, path))
            && (made.ok ==> made.trail.tree == MadeFrom(t, MissingAbove(t, path), |MissingAbove(t, path)| - |left| + 1))
            && (!made.ok ==> made.trail.calls == s.calls + 1 && (refuses(s.calls) || !CanMakeParents(t, path)))
  {
    hide WellFormed, CanMake, CanMakeParents, LeadsBack, Counted, MissingAbove, MadeFrom;
    var dirs, n := MissingAbove(t, path), |MissingAbove(t, path)| - |left|;
    var dir := left[|left| - 1];
    assert dir == dirs[|dirs| - 1 - n];
    MakingGoes(refuses, s, dir, Directory, start);
    if CanMakeParents(t, path) {
      NextCanBeMade(t, path, n);
    } else {
      NoneMade(t, dirs);
      FirstOfParents(t, path);
    }
    MadeOneMore(t, dirs, n);
  }

  lemma MadeOneMore(t: Tree, dirs: seq<Path>, n: nat)
    requires n < |dirs|
    ensures MadeFrom(t, dirs, n + 1) == MadeFrom(t, dirs, n)[dirs[|dirs| - 1 - n] := Directory]
  {
  }

  lemma NoneMade(t: Tree, dirs: seq<Path>)
    ensures MadeFrom(t, dirs, 0) == t
  {
  }

  lemma FirstOfParents(t: Tree, path: Path)
    ensures var dirs := MissingAbove(t, path); dirs != [] ==> (CanMakeParents(t, path) <==> CanMake(t, dirs[|dirs| - 1]))
  {
    hide MissingAbove, CanMake;
  }

  lemma ParentsLeaveTarget(t: Tree, path: Path)
    requires WellFormed(t)
    ensures path in WithParents(t, path) <==> path in t
  {
    var missing := MissingAbove(t, path);
    MissingShape(t, path);
    MadeFromAt(t, missing, |missing|, path);
    forall i | 0 <= i < |missing| ensures missing[i] != path {
    }
  }

  /** One step: it goes through exactly when the tree lets it and none of its calls
      is refused, and then has its whole effect. However it goes, the log still
      leads back, except for a rename that went through over something. */
  lemma StepGoes(refuses: Refusals, s: Trail, action: Action, pid: string, start: Tree)
    requires WellFormed(s.tree)
    ensures var went, aside := StepOn(refuses, s, action, pid), AsideOf(action, pid, s.number);
            && (went.ok <==> Possible(s.tree, action, aside) && Unrefused(refuses, s.calls, went.trail.calls))
            && (went.ok ==> went.trail.tree == Effect(s.tree, action, aside))
            && (LeadsBack(s.tree, s.log, start) && (went.ok ==> TargetFree(s.tree, action, aside)) ==>
                  LeadsBack(went.trail.tree, went.trail.log, start))
            && Counted(refuses, s, went) && WellFormed(went.trail.tree)
            && went.trail.number == After(action, s.number)
  {
    hide WellFormed, RunUndo, CanMake, CanRename, CanMakeParents, MissingAbove, Relocate, ParentsOn;
    match action
    case DoCreate(path) =>
      ParentsFromNone(refuses, s, path, start);
      var up := ParentsOn(refuses, s, MissingAbove(s.tree, path));
      MakingGoes(refuses, up.trail, path, File(""), start);
    case DoRename(from, to) =>
      ParentsFromNone(refuses, s, to, start);
      ParentsLeaveTarget(s.tree, to);
      var up := ParentsOn(refuses, s, MissingAbove(s.tree, to));
      RenamingGoes(refuses, up.trail, from, to, start);
    case DoDelete(path) =>
      RenamingGoes(refuses, s.(number := s.number + 1), path, AsideFor(path, pid, s.number), start);
  }

  lemma ParentsFromNone(refuses: Refusals, s: Trail, path: Path, start: Tree)
    requires WellFormed(s.tree)
    ensures ParentsWent(refuses, s.tree, path, s, ParentsOn(refuses, s, MissingAbove(s.tree, path)), start)
  {
    hide WellFormed, ParentsWent;
    ParentsGo(refuses, s.tree, path, s, MissingAbove(s.tree, path), start);
  }

  lemma UnrefusedSplits(refuses: Refusals, first: nat, middle: nat, last: nat)
    requires first <= middle <= last
    ensures Unrefused(refuses, first, last) <==> Unrefused(refuses, first, middle) && Unrefused(refuses, middle, last)
  {
  }

  /** Part of a commit goes through exactly when the tree lets it and none of its
      calls is refused; when the tree lets it, what stopped it is its last call's
      refusal. */
  ghost predicate GoesWhen(refuses: Refusals, s: Trail, went: Went, possible: bool, whole: Tree) {
    && Counted(refuses, s, went)
    && (went.ok <==> possible && Unrefused(refuses, s.calls, went.trail.calls))
    && (went.ok ==> went.trail.tree == whole)
    && (possible && !went.ok ==> s.calls < went.trail.calls && refuses(went.trail.calls - 1))
  }

  lemma StepGoesWhen(refuses: Refusals, s: Trail, action: Action, pid: string)
    requires WellFormed(s.tree)
    ensures var aside := AsideOf(action, pid, s.number);
            GoesWhen(refuses, s, StepOn(refuses, s, action, pid), Possible(s.tree, action, aside), Effect(s.tree, action, aside))
  {
    hide WellFormed, StepOn, Possible, Effect, TargetFree, AsideOf, After, LeadsBack, Counted, Unrefused;
    StepGoes(refuses, s, action, pid, s.tree);
    CountedMeans(refuses, s, StepOn(refuses, s, action, pid));
  }

  lemma ThenGoesWhen(
    refuses: Refusals, s: Trail, first: Went, possible: bool, between: Tree, rest: Went, andThen: bool, whole: Tree)
    requires GoesWhen(refuses, s, first, possible, between)
    requires first.ok ==> GoesWhen(refuses, first.trail, rest, andThen, whole)
    ensures GoesWhen(refuses, s, if first.ok then rest else first, possible && andThen, whole)
  {
    hide Counted, Unrefused;
    if first.ok {
      CountedOn(refuses, s, first, rest);
      CountedMeans(refuses, s, first);
      CountedMeans(refuses, first.trail, rest);
      UnrefusedSplits(refuses, s.calls, first.trail.calls, rest.trail.calls);
    }
  }

  /** So with the whole commit. */
  lemma {:induction false} StepsGo(refuses: Refusals, s: Trail, actions: seq<Action>, pid: string)
    requires WellFormed(s.tree)
    ensures GoesWhen(refuses, s, StepsOn(refuses, s, actions, pid),
                     PossibleRun(s.tree, actions, pid, s.number), RunAll(s.tree, actions, pid, s.number))
    decreases actions
  {
    if actions == [] {
      NothingCounted(refuses, s);
    } else {
      hide WellFormed, StepOn, Possible, Effect, TargetFree, AsideOf, After, LeadsBack, GoesWhen;
      var went, aside := StepOn(refuses, s, actions[0], pid), AsideOf(actions[0], pid, s.number);
      StepGoes(refuses, s, actions[0], pid, s.tree);
      StepGoesWhen(refuses, s, actions[0], pid);
      if went.ok {
        StepsGo(refuses, went.trail, actions[1..], pid);
      }
      ThenGoesWhen(refuses, s, went, Possible(s.tree, actions[0], aside), Effect(s.tree, actions[0], aside),
                   StepsOn(refuses, went.trail, actions[1..], pid),
                   PossibleRun(Effect(s.tree, actions[0], aside), actions[1..], pid, After(actions[0], s.number)),
                   RunAll(s.tree, actions, pid, s.number));
    }
  }

  /** However far the commit got, its log leads back, as long as every rename that
      went through found its target free. */
  lemma {:induction false} StepsLeadBack(refuses: Refusals, s: Trail, actions: seq<Action>, pid: string, start: Tree)
    requires LeadsBack(s.tree, s.log, start) && CleanRun(refuses, s, actions, pid)
    ensures var went := StepsOn(refuses, s, actions, pid);
            LeadsBack(went.trail.tree, went.trail.log, start)
    decreases actions
  {
    if actions != [] {
      hide WellFormed, StepOn, Possible, Effect, TargetFree, AsideOf, After, RunUndo;
      StepGoes(refuses, s, actions[0], pid, start);
      var went := StepOn(refuses, s, actions[0], pid);
      if went.ok {
        StepsLeadBack(refuses, went.trail, actions[1..], pid, start);
      }
    }
  }

  /** A run free throughout is free as far as it goes, whatever is refused. */
  lemma {:induction false} FreeRunIsClean(refuses: Refusals, s: Trail, actions: seq<Action>, pid: string)
    requires WellFormed(s.tree) && FreeRun(s.tree, actions, pid, s.number)
    ensures CleanRun(refuses, s, actions, pid)
    decreases actions
  {
    if actions != [] {
      hide WellFormed, StepOn, Possible, Effect, TargetFree, AsideOf, After, LeadsBack, Counted;
      StepGoes(refuses, s, actions[0], pid, s.tree);
      var went := StepOn(refuses, s, actions[0], pid);
      if went.ok {
        FreeRunIsClean(refuses, went.trail, actions[1..], pid);
      }
    }
  }

  /** The commit as a whole: through, or as far as it got and back. */
  function CommitOn(refuses: Refusals, s: Trail, actions: seq<Action>, pid: string): Went {
    var went := StepsOn(refuses, s, actions, pid);
    if went.ok then went
    else
      var end := went.trail;
      Went(false, end.(tree := UndoFrom(refuses, end.calls, end.tree, end.log),
                       calls := end.calls + |end.log|, log := [], aside := []))
  }

  function Fresh(t: Tree, calls: nat, number: nat): Trail {
    Trail(t, calls, number, [], [])
  }

  /** Atomicity: every step's effect, with a log that undoes it all, or the tree as
      it was before. It takes a rename over something, or a refusal while taking
      back, to lose that. It goes through exactly when the tree lets every step and
      none of the calls made for them is refused. */
  lemma CommitIsAtomic(refuses: Refusals, t: Tree, calls: nat, number: nat, actions: seq<Action>, pid: string)
    requires WellFormed(t)
    ensures var s := Fresh(t, calls, number);
            var went, end := CommitOn(refuses, s, actions, pid), StepsOn(refuses, s, actions, pid).trail.calls;
            && calls <= end <= went.trail.calls
            && (went.ok <==> PossibleRun(t, actions, pid, number) && Unrefused(refuses, calls, end))
            && (PossibleRun(t, actions, pid, number) && !went.ok ==> calls < end && refuses(end - 1))
            && (went.ok ==> went.trail.tree == RunAll(t, actions, pid, number))
            && (CleanRun(refuses, s, actions, pid) ==>
                  && (went.ok ==> RunUndo(went.trail.tree, went.trail.log) == t)
                  && (!went.ok && Unrefused(refuses, end, went.trail.calls) ==> went.trail.tree == t))
  {
    hide WellFormed, StepsOn, CleanRun, RunUndo, UndoFrom, PossibleRun, RunAll;
    var s := Fresh(t, calls, number);
    NothingDone(t);
    StepsGo(refuses, s, actions, pid);
    var end := StepsOn(refuses, s, actions, pid).trail;
    if CleanRun(refuses, s, actions, pid) {
      StepsLeadBack(refuses, s, actions, pid, t);
      if Unrefused(refuses, end.calls, end.calls + |end.log|) {
        UndoneInFull(refuses, end.calls, end.tree, end.log);
      }
    }
  }

  lemma NothingDone(t: Tree)
    requires WellFormed(t)
    ensures LeadsBack(t, [], t)
  {
  }
}
