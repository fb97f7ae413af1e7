/** The file system as the operations see it: a tree of nodes, and the calls
    that change it. */
module Disks {
  import opened Paths

  datatype Node = File(content: string) | Directory

  type Tree = map<Path, Node>

  predicate IsDirectory(t: Tree, path: Path) {
    path in t && t[path].Directory?
  }

  /** A tree an operating system could have: rooted, and every entry in a directory. */
  ghost predicate WellFormed(t: Tree) {
    && IsDirectory(t, [])
    && forall p | p in t && p != [] :: IsDirectory(t, Parent(p).value)
  }

  lemma WellFormedIsClosed(t: Tree)
    requires WellFormed(t)
    ensures Closed(t)
  {
  }

  /** `dir` has an entry. */
  predicate HasEntries(t: Tree, dir: Path) {
    exists p | p in t :: p != [] && Parent(p).value == dir
  }

  predicate CanMake(t: Tree, path: Path) {
    path != [] && path !in t && IsDirectory(t, Parent(path).value)
  }

  predicate CanRemoveFile(t: Tree, path: Path) {
    path in t && t[path].File?
  }

  predicate CanRemoveDirectory(t: Tree, path: Path) {
    path != [] && IsDirectory(t, path) && !HasEntries(t, path)
  }

  /** POSIX rename: never into its own subtree, and over an existing target only
      a file over a file or a directory over an empty one. */
  predicate CanRename(t: Tree, from: Path, to: Path) {
    && from in t && from != [] && to != [] && IsDirectory(t, Parent(to).value)
    && (from == to || !Under(to, from))
    && (to in t && from != to ==>
          if t[from].File? then t[to].File? else t[to].Directory? && !HasEntries(t, to))
  }

  /** The calls that the operating system refuses for reasons the tree does not
      show, by number. */
  type Refusals = nat -> bool

  /** The disk. A call that would change it is counted, and goes through when it is
      not refused and the tree allows it. */
  class Disk {
    const refuses: Refusals
    var tree: Tree
    var calls: nat

    constructor (tree: Tree, refuses: Refusals)
      ensures this.tree == tree && this.refuses == refuses && calls == 0
    {
      this.tree, this.refuses, calls := tree, refuses, 0;
    }

    method Exists(path: Path) returns (yes: bool)
      ensures yes == (path in tree)
    {
      yes := path in tree;
    }

    method CreateNew(path: Path) returns (ok: bool)
      modifies this
      ensures calls == old(calls) + 1
      ensures ok == (!refuses(old(calls)) && CanMake(old(tree), path))
      ensures tree == if ok then old(tree)[path := File("")] else old(tree)
    {
      ok := !refuses(calls) && CanMake(tree, path);
      calls := calls + 1;
      if ok {
        tree := tree[path := File("")];
      }
    }

    method CreateDirectory(path: Path) returns (ok: bool)
      modifies this
      ensures calls == old(calls) + 1
      ensures ok == (!refuses(old(calls)) && CanMake(old(tree), path))
      ensures tree == if ok then old(tree)[path := Directory] else old(tree)
    {
      ok := !refuses(calls) && CanMake(tree, path);
      calls := calls + 1;
      if ok {
        tree := tree[path := Directory];
      }
    }

    method RemoveFile(path: Path) returns (ok: bool)
      modifies this
      ensures calls == old(calls) + 1
      ensures ok == (!refuses(old(calls)) && CanRemoveFile(old(tree), path))
      ensures tree == if ok then old(tree) - {path} else old(tree)
    {
      ok := !refuses(calls) && CanRemoveFile(tree, path);
      calls := calls + 1;
      if ok {
        tree := tree - {path};
      }
    }

    method RemoveDirectory(path: Path) returns (ok: bool)
      modifies this
      ensures calls == old(calls) + 1
      ensures ok == (!refuses(old(calls)) && CanRemoveDirectory(old(tree), path))
      ensures tree == if ok then old(tree) - {path} else old(tree)
    {
      ok := !refuses(calls) && CanRemoveDirectory(tree, path);
      calls := calls + 1;
      if ok {
        tree := tree - {path};
      }
    }

    /** A directory with all that is in it, counted as one call. */
    method RemoveAll(path: Path) returns (ok: bool)
      modifies this
      ensures calls == old(calls) + 1
      ensures ok == (!refuses(old(calls)) && CanRemoveAll(old(tree), path))
      ensures tree == if ok then Without(old(tree), path) else old(tree)
    {
      ok := !refuses(calls) && CanRemoveAll(tree, path);
      calls := calls + 1;
      if ok {
        tree := Without(tree, path);
      }
    }

    method Rename(from: Path, to: Path) returns (ok: bool)
      modifies this
      ensures calls == old(calls) + 1
      ensures ok == (!refuses(old(calls)) && CanRename(old(tree), from, to))
      ensures tree == if ok then Relocate(old(tree), from, to) else old(tree)
    {
      ok := !refuses(calls) && CanRename(tree, from, to);
      calls := calls + 1;
      if ok {
        tree := Relocate(tree, from, to);
      }
    }
  }

  predicate CanRemoveAll(t: Tree, path: Path) {
    path != [] && IsDirectory(t, path)
  }

  lemma MakeKeepsWellFormed(t: Tree, path: Path, node: Node)
    requires WellFormed(t) && CanMake(t, path)
    ensures WellFormed(t[path := node])
  {
  }

  lemma NothingUnderMissing(t: Tree, path: Path)
    requires WellFormed(t) && path !in t
    ensures forall p | p in t :: !Under(p, path)
  {
    WellFormedIsClosed(t);
    forall p | p in t ensures !Under(p, path) {
      if Under(p, path) {
        AncestorsIn(t, p, path);
      }
    }
  }

  lemma NothingUnderEmpty(t: Tree, path: Path)
    requires WellFormed(t) && path in t && (t[path].File? || !HasEntries(t, path))
    ensures forall p | p in t && p != path :: !Under(p, path)
  {
    forall p | p in t && p != path ensures !Under(p, path) {
      if Under(p, path) {
        EntryOnTheWay(t, path, p);
      }
    }
  }

  lemma {:induction false} EntryOnTheWay(t: Tree, dir: Path, p: Path)
    requires WellFormed(t) && p in t && p != dir && Under(p, dir)
    ensures HasEntries(t, dir) && IsDirectory(t, dir)
    decreases |p|
  {
    ParentIsUnder(p, dir);
    var up := Parent(p).value;
    assert IsDirectory(t, up);
    if up != dir {
      EntryOnTheWay(t, dir, up);
    }
  }

  lemma RenameKeepsWellFormed(t: Tree, from: Path, to: Path)
    requires WellFormed(t) && CanRename(t, from, to)
    ensures WellFormed(Relocate(t, from, to))
  {
    var t' := Relocate(t, from, to);
    if to in t && from != to {
      NothingUnderEmpty(t, to);
    } else if from != to {
      NothingUnderMissing(t, to);
    }
    RelocateAt(t, from, to, []);
    forall q | q in t' && q != [] ensures IsDirectory(t', Parent(q).value) {
      RenamedParent(t, from, to, q);
    }
  }

  lemma RenamedParent(t: Tree, from: Path, to: Path, q: Path)
    requires WellFormed(t) && CanRename(t, from, to)
    requires from != to ==> forall p | p in t && p != to :: !Under(p, to)
    requires q in Relocate(t, from, to) && q != []
    ensures IsDirectory(Relocate(t, from, to), Parent(q).value)
  {
    var up := Parent(q).value;
    RelocateAt(t, from, to, q);
    RelocateAt(t, from, to, up);
    if Under(q, to) && Moved(q, to, from) in t {
      if q == to {
        assert IsDirectory(t, up);
        if Under(up, from) {
          ParentAbove(to, from);
        }
        if Under(up, to) {
          assert false;
        }
      } else {
        ParentIsUnder(q, to);
        ParentMoves(q, to, from);
      }
    } else {
      if Under(up, from) {
        ParentAbove(q, from);
      }
      if Under(up, to) {
        ParentAbove(q, to);
      }
    }
  }
}
