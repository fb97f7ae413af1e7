/** What a plan means: the tree its actions make, applied forwards, against what
    the planner finds looking backwards. */
module FileWorld {
  import opened Options
  import opened Paths
  import opened Disks
  import opened FilePlan

  /** One action on a tree, with `made` what a created file is. */
  function Apply<V>(m: map<Path, V>, action: Action, made: V): map<Path, V> {
    match action
    case DoCreate(path) => m[path := made]
    case DoRename(from, to) => Relocate(m, from, to)
    case DoDelete(path) => Without(m, path)
  }

  function ApplyAll<V>(m: map<Path, V>, changes: seq<Action>, made: V): map<Path, V> {
    if changes == [] then m
    else Apply(ApplyAll(m, changes[..|changes| - 1], made), changes[|changes| - 1], made)
  }

  /** The tree after the changes. */
  function Forward(t: Tree, changes: seq<Action>): Tree {
    ApplyAll(t, changes, File(""))
  }

  /** The same tree, each entry saying where it came from. */
  function World(t: Tree, changes: seq<Action>): map<Path, Found> {
    ApplyAll(map p | p in t :: OnDisk(p), changes, Created)
  }

  /** `action` asks for nothing the tree before it cannot give: what it takes is
      there, what it makes is not, and has a directory to be made in. */
  predicate Fits(t: Tree, action: Action) {
    match action
    case DoCreate(path) => CanMake(t, path)
    case DoRename(from, to) => CanRename(t, from, to) && to !in t
    case DoDelete(path) => path in t && path != []
  }

  predicate Grounded(t: Tree, changes: seq<Action>) {
    if changes == [] then true
    else
      var before := changes[..|changes| - 1];
      Grounded(t, before) && Fits(Forward(t, before), changes[|changes| - 1])
  }

  lemma ApplyKeepsWellFormed(t: Tree, action: Action)
    requires WellFormed(t) && Fits(t, action)
    ensures WellFormed(Apply(t, action, File("")))
  {
    match action
    case DoCreate(path) => MakeKeepsWellFormed(t, path, File(""));
    case DoRename(from, to) => RenameKeepsWellFormed(t, from, to);
    case DoDelete(gone) =>
      forall p | p in Without(t, gone) && p != [] ensures IsDirectory(Without(t, gone), Parent(p).value) {
        if Under(Parent(p).value, gone) {
          ParentAbove(p, gone);
        }
      }
  }

  lemma {:induction false} ForwardIsWellFormed(t: Tree, changes: seq<Action>)
    requires WellFormed(t) && Grounded(t, changes)
    ensures WellFormed(Forward(t, changes))
  {
    if changes != [] {
      var before := changes[..|changes| - 1];
      ForwardIsWellFormed(t, before);
      ApplyKeepsWellFormed(Forward(t, before), changes[|changes| - 1]);
    }
  }

  /** The node an origin stands for. */
  function NodeOf(t: Tree, found: Found): Node {
    if found.OnDisk? && found.at in t then t[found.at] else File("")
  }

  /** Two readings of one tree: the nodes, and where they came from. */
  ghost predicate Mirrors(t: Tree, w: map<Path, Found>, now: Tree) {
    && w.Keys == now.Keys
    && forall q | q in w ::
      && now[q] == NodeOf(t, w[q])
      && !w[q].Missing?
      && (w[q].OnDisk? ==> w[q].at in t)
  }

  lemma ApplyMirrors(t: Tree, w: map<Path, Found>, now: Tree, action: Action)
    requires Mirrors(t, w, now)
    ensures Mirrors(t, Apply(w, action, Created), Apply(now, action, File("")))
  {
    if action.DoRename? {
      var w', now' := Relocate(w, action.from, action.to), Relocate(now, action.from, action.to);
      forall q
        ensures q in w' <==> q in now'
        ensures q in w' ==> now'[q] == NodeOf(t, w'[q]) && !w'[q].Missing? && (w'[q].OnDisk? ==> w'[q].at in t)
      {
        RelocateAt(w, action.from, action.to, q);
        RelocateAt(now, action.from, action.to, q);
      }
    }
  }

  lemma {:induction false} WorldMirrorsForward(t: Tree, changes: seq<Action>)
    ensures Mirrors(t, World(t, changes), Forward(t, changes))
  {
    if changes != [] {
      WorldMirrorsForward(t, changes[..|changes| - 1]);
      ApplyMirrors(t, World(t, changes[..|changes| - 1]), Forward(t, changes[..|changes| - 1]), changes[|changes| - 1]);
    }
  }

  /** What the planner answers is what is there. */
  ghost predicate Answers(t: Tree, w: map<Path, Found>, q: Path, found: Found) {
    if q in w then found == w[q]
    else found == Missing || (found.OnDisk? && found.at !in t)
  }

  /** The backward walk agrees with the forward tree, for every path. */
  lemma {:induction false} FindAgrees(t: Tree, changes: seq<Action>, q: Path)
    requires WellFormed(t) && Grounded(t, changes)
    ensures Answers(t, World(t, changes), q, FindIn(changes, q))
    decreases |changes|
  {
    if changes != [] {
      var before, last := changes[..|changes| - 1], changes[|changes| - 1];
      var w := World(t, before);
      WorldMirrorsForward(t, before);
      ForwardIsWellFormed(t, before);
      FindAgrees(t, before, q);
      if last.DoRename? {
        NothingUnderMissing(Forward(t, before), last.to);
        FindAgrees(t, before, Moved(q, last.to, last.from));
        RelocateAt(w, last.from, last.to, q);
      }
    }
  }

  /** So the planner's question is answered by the tree the plan makes. */
  lemma ExistsAgrees(t: Tree, changes: seq<Action>, q: Path)
    requires WellFormed(t) && Grounded(t, changes)
    ensures ExistsIn(t, changes, q) <==> q in Forward(t, changes)
  {
    FindAgrees(t, changes, q);
    WorldMirrorsForward(t, changes);
  }

  /** A path carried through one action: renamed along, or deleted. */
  function TrackOne(action: Action, at: Path): Option<Path> {
    match action
    case DoRename(from, to) => Some(Moved(at, from, to))
    case DoDelete(gone) => if Under(at, gone) then None else Some(at)
    case DoCreate(_) => Some(at)
  }

  /** A disk path carried through all of them. */
  function Track(changes: seq<Action>, path: Path): Option<Path> {
    if changes == [] then Some(path)
    else
      match Track(changes[..|changes| - 1], path)
      case None => None
      case Some(at) => TrackOne(changes[|changes| - 1], at)
  }

  /** `at` is the one place in `w` that the disk's `path` went to. */
  ghost predicate WentTo(w: map<Path, Found>, path: Path, at: Option<Path>) {
    && (at.Some? ==> at.value in w && w[at.value] == OnDisk(path))
    && forall p | p in w && w[p] == OnDisk(path) :: at == Some(p)
  }

  /** Following a file forwards and finding it backwards are inverse: a path
      tracked to `q` is found, from `q` and from nowhere else, as the disk path it
      was; a deleted one is found from nowhere. */
  lemma TrackThenFind(t: Tree, changes: seq<Action>, path: Path, q: Path)
    requires WellFormed(t) && Grounded(t, changes) && path in t
    ensures FindIn(changes, q) == OnDisk(path) <==> Track(changes, path) == Some(q)
  {
    TrackInWorld(t, changes, path);
    FindAgrees(t, changes, q);
  }

  lemma {:induction false} TrackInWorld(t: Tree, changes: seq<Action>, path: Path)
    requires WellFormed(t) && Grounded(t, changes) && path in t
    ensures WentTo(World(t, changes), path, Track(changes, path))
  {
    if changes != [] {
      var before, last := changes[..|changes| - 1], changes[|changes| - 1];
      TrackInWorld(t, before, path);
      WorldMirrorsForward(t, before);
      ForwardIsWellFormed(t, before);
      var at := Track(before, path);
      hide WentTo, Apply, TrackOne;
      if at.Some? {
        TrackStep(t, World(t, before), Forward(t, before), last, path, at.value);
      } else {
        GoneStaysGone(World(t, before), last, path);
      }
    }
  }

  lemma TrackStep(t: Tree, w: map<Path, Found>, now: Tree, last: Action, path: Path, at: Path)
    requires Mirrors(t, w, now) && WellFormed(now) && Fits(now, last)
    requires WentTo(w, path, Some(at))
    ensures WentTo(Apply(w, last, Created), path, TrackOne(last, at))
  {
    if last.DoRename? {
      NothingUnderMissing(now, last.to);
      RenameTracks(w, last.from, last.to, path, at);
    }
  }

  lemma RenameTracks(w: map<Path, Found>, from: Path, to: Path, path: Path, at: Path)
    requires forall p | p in w :: !Under(p, to)
    requires WentTo(w, path, Some(at))
    ensures WentTo(Relocate(w, from, to), path, Some(Moved(at, from, to)))
  {
    var w', q := Relocate(w, from, to), Moved(at, from, to);
    RelocateAt(w, from, to, q);
    if Under(at, from) {
      MovedIsUnder(at, from, to);
    }
    forall p | p in w' && w'[p] == OnDisk(path) ensures p == q {
      RelocateAt(w, from, to, p);
      if Under(p, to) {
        MovedIsUnder(p, to, from);
        assert Moved(p, to, from) == at;
      }
    }
  }

  lemma GoneStaysGone(w: map<Path, Found>, last: Action, path: Path)
    requires WentTo(w, path, None)
    ensures WentTo(Apply(w, last, Created), path, None)
  {
    var w' := Apply(w, last, Created);
    if last.DoRename? {
      forall p | p in w' ensures w'[p] != OnDisk(path) {
        RelocateAt(w, last.from, last.to, p);
      }
    }
  }
}
