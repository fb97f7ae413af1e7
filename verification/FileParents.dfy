/** What a step comes to, said of the tree alone: when it can be taken, the missing
    directories above its target counted in, and everything it leaves. */
module FileParents {
  import opened Paths
  import opened Disks
  import opened FilePlan
  import opened FileSteps

  /** Whatever stands above `path` already is a directory. */
  ghost predicate OpenAbove(t: Tree, path: Path) {
    forall k | 0 <= k < |path| :: path[..k] in t ==> IsDirectory(t, path[..k])
  }

  /** `q` is above `path`. */
  ghost predicate Above(q: Path, path: Path) {
    |q| < |path| && Under(path, q)
  }

  /** The directories missing are the ones above that are not there, all of them. */
  lemma {:induction false} MissingAre(t: Tree, path: Path, q: Path)
    requires WellFormed(t)
    ensures q in MissingAbove(t, path) <==> Above(q, path) && q !in t
    decreases |path|
  {
    if path != [] {
      var up := path[..|path| - 1];
      assert up == Parent(path).value;
      if Above(q, path) && q != up {
        assert up[..|q|] == path[..|q|];
      }
      if up == [] || up in t {
        if Above(q, path) && q !in t {
          assert Under(up, q);
          WellFormedIsClosed(t);
          AncestorsIn(t, up, q);
          assert false;
        }
      } else {
        MissingAre(t, up, q);
        if Above(q, up) {
          assert up[..|q|] == path[..|q|];
        }
      }
    }
  }

  /** With every directory made, what there is. */
  lemma WithParentsAt(t: Tree, path: Path, q: Path)
    requires WellFormed(t)
    ensures q in WithParents(t, path) <==> q in t || Above(q, path)
    ensures q in t ==> WithParents(t, path)[q] == t[q]
    ensures q !in t && Above(q, path) ==> IsDirectory(WithParents(t, path), q)
  {
    hide MissingAbove;
    var dirs := MissingAbove(t, path);
    MissingAre(t, path, q);
    MadeFromAt(t, dirs, |dirs|, q);
    assert dirs[|dirs| - |dirs|..] == dirs;
  }

  lemma {:induction false} AboveIsDirectory(t: Tree, path: Path, q: Path)
    requires WellFormed(t) && path in t && Above(q, path)
    ensures IsDirectory(t, q)
    decreases |path|
  {
    var up := Parent(path).value;
    if q == up {
    } else {
      assert up[..|q|] == path[..|q|];
      AboveIsDirectory(t, up, q);
    }
  }

  /** In a tree, what is above something that is there is a directory. */
  lemma OpenFromParent(t: Tree, path: Path)
    requires WellFormed(t) && path != [] && Parent(path).value in t
    ensures OpenAbove(t, path) <==> IsDirectory(t, Parent(path).value)
  {
    var up := Parent(path).value;
    hide WellFormed;
    assert path[..|path| - 1] == up;
    if IsDirectory(t, up) {
      forall k | 0 <= k < |path| && path[..k] in t ensures IsDirectory(t, path[..k]) {
        if k < |up| {
          assert up[..k] == path[..k];
          AboveIsDirectory(t, up, path[..k]);
        }
      }
    }
  }

  lemma OpenFurtherUp(t: Tree, path: Path)
    requires path != [] && Parent(path).value !in t
    ensures OpenAbove(t, path) <==> OpenAbove(t, Parent(path).value)
  {
    var up := Parent(path).value;
    assert forall k | 0 <= k < |up| :: up[..k] == path[..k];
    assert path[..|up|] == up;
  }

  /** The nearest thing above that is there decides whether they can be made. */
  lemma {:induction false} ParentsCanBeMade(t: Tree, path: Path)
    requires WellFormed(t) && path != []
    ensures CanMakeParents(t, path) && IsDirectory(WithParents(t, path), Parent(path).value) <==> OpenAbove(t, path)
    decreases |path|
  {
    hide WithParents, OpenAbove, WellFormed;
    var up := Parent(path).value;
    RootIsThere(t);
    WithParentsAt(t, path, up);
    if up in t {
      OpenFromParent(t, path);
    } else {
      ParentsCanBeMade(t, up);
      OpenFurtherUp(t, path);
      WithParentsAt(t, up, Parent(up).value);
      if MissingAbove(t, up) != [] {
        WithParentsIn(t, up);
      }
    }
  }

  lemma RootIsThere(t: Tree)
    requires WellFormed(t)
    ensures IsDirectory(t, [])
  {
  }

  /** With none missing the parent is there as it was, else it is made. */
  lemma WithParentsIn(t: Tree, path: Path)
    requires WellFormed(t) && path != [] && MissingAbove(t, path) != []
    ensures IsDirectory(WithParents(t, path), Parent(path).value)
  {
    WithParentsAt(t, path, Parent(path).value);
    MissingShape(t, path);
  }

  /** A create can be done exactly when nothing has its name and nothing but
      directories is above it; then the empty file is there, and every directory above. */
  lemma CreateComesTo(t: Tree, path: Path, aside: Path)
    requires WellFormed(t)
    ensures Possible(t, DoCreate(path), aside) <==> path != [] && path !in t && OpenAbove(t, path)
    ensures var made := Effect(t, DoCreate(path), aside);
            && made.Keys == t.Keys + {path} + (set k | 0 <= k < |path| :: path[..k])
            && (forall q | q in made :: made[q] == if q == path then File("") else if q in t then t[q] else Directory)
  {
    hide Above, WithParents, CanMakeParents, OpenAbove;
    var made := Effect(t, DoCreate(path), aside);
    if path != [] {
      ParentsCanBeMade(t, path);
      WithParentsAt(t, path, path);
      NotAboveItself(path);
    }
    forall q ensures q in made <==> q in t || q == path || Above(q, path)
             ensures q in made ==> made[q] == if q == path then File("") else if q in t then t[q] else Directory {
      WithParentsAt(t, path, q);
    }
    forall q ensures q in made <==> q in t.Keys + {path} + (set k | 0 <= k < |path| :: path[..k]) {
      AboveIsPrefix(q, path);
    }
  }

  lemma NotAboveItself(path: Path)
    ensures !Above(path, path)
  {
  }

  lemma AboveIsPrefix(q: Path, path: Path)
    ensures Above(q, path) <==> q in (set k | 0 <= k < |path| :: path[..k])
  {
    if Above(q, path) {
      assert q == path[..|q|];
    }
  }

  /** A rename can be done exactly when its file is there, its target is not inside it
      and has nothing but directories above it, and what is at the target can be
      replaced; then the subtree is there, and every directory above. */
  lemma RenameComesTo(t: Tree, from: Path, to: Path, aside: Path)
    requires WellFormed(t)
    ensures Possible(t, DoRename(from, to), aside) <==>
            && from in t && from != [] && to != [] && OpenAbove(t, to)
            && (from == to || !Under(to, from))
            && (to in t && from != to ==>
                  if t[from].File? then t[to].File? else t[to].Directory? && !HasEntries(t, to))
    ensures Possible(t, DoRename(from, to), aside) ==>
              forall q :: && (q in Effect(t, DoRename(from, to), aside) <==>
                                || (Under(q, to) && Moved(q, to, from) in t)
                                || (q in t && !Under(q, from))
                                || (Above(q, to) && q !in t))
                          && (Above(q, to) && q !in t ==> IsDirectory(Effect(t, DoRename(from, to), aside), q))
  {
    hide WithParents, CanMakeParents, OpenAbove, Relocate, WellFormed, HasEntries, MissingAbove;
    if to != [] {
      var with := WithParents(t, to);
      ParentsCanBeMade(t, to);
      WithParentsAt(t, to, to);
      WithParentsAt(t, to, from);
      if to in t {
        NoneMissing(t, to);
      }
      if Possible(t, DoRename(from, to), aside) {
        forall q ensures && (q in Effect(t, DoRename(from, to), aside) <==>
                               || (Under(q, to) && Moved(q, to, from) in t)
                               || (q in t && !Under(q, from))
                               || (Above(q, to) && q !in t))
                         && (Above(q, to) && q !in t ==> IsDirectory(Effect(t, DoRename(from, to), aside), q)) {
          RelocateAt(with, from, to, q);
          WithParentsAt(t, to, q);
          WithParentsAt(t, to, Moved(q, to, from));
        }
      }
    }
  }

  lemma NoneMissing(t: Tree, path: Path)
    requires WellFormed(t) && path in t
    ensures WithParents(t, path) == t
  {
    hide WithParents, WellFormed;
    WellFormedIsClosed(t);
    forall q ensures (q in WithParents(t, path) <==> q in t) && (q in t ==> WithParents(t, path)[q] == t[q]) {
      WithParentsAt(t, path, q);
      if Above(q, path) {
        AncestorsIn(t, path, q);
      }
    }
  }
}
