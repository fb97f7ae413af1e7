/** Inverses of a commit's calls on the disk. */
module FileUndo {
  import opened Paths
  import opened Disks

  datatype Undo =
    | UndoFile(path: Path)
    | UndoDirectory(path: Path)
    | UndoRename(from: Path, to: Path)

  /** One entry taken back, or nothing when the disk will not have it. */
  function ApplyUndo(t: Tree, undo: Undo): Tree {
    match undo
    case UndoFile(path) => if CanRemoveFile(t, path) then t - {path} else t
    case UndoDirectory(path) => if CanRemoveDirectory(t, path) then t - {path} else t
    case UndoRename(from, to) => if CanRename(t, from, to) then Relocate(t, from, to) else t
  }

  /** A whole log taken back, last entry first. */
  function RunUndo(t: Tree, log: seq<Undo>): Tree
    decreases log
  {
    if log == [] then t else RunUndo(ApplyUndo(t, log[|log| - 1]), log[..|log| - 1])
  }

  lemma RunUndoLast(t: Tree, log: seq<Undo>, undo: Undo)
    ensures RunUndo(t, log + [undo]) == RunUndo(ApplyUndo(t, undo), log)
  {
    assert (log + [undo])[..|log|] == log;
  }

  /** The log taken back from its end, the entry at call `calls` first: an entry
      whose call is refused stays done, and the ones before it are still taken back. */
  function UndoFrom(refuses: Refusals, calls: nat, t: Tree, log: seq<Undo>): Tree
    decreases log
  {
    if log == [] then t
    else UndoFrom(refuses, calls + 1, if refuses(calls) then t else ApplyUndo(t, log[|log| - 1]), log[..|log| - 1])
  }

  /** None of the calls from `first` on and before `next` is refused. */
  predicate Unrefused(refuses: Refusals, first: nat, next: nat) {
    forall i: nat | first <= i < next :: !refuses(i)
  }

  /** With nothing refused, the whole log is taken back. */
  lemma {:induction false} UndoneInFull(refuses: Refusals, calls: nat, t: Tree, log: seq<Undo>)
    requires Unrefused(refuses, calls, calls + |log|)
    ensures UndoFrom(refuses, calls, t, log) == RunUndo(t, log)
    decreases log
  {
    if log != [] {
      UndoneInFull(refuses, calls + 1, ApplyUndo(t, log[|log| - 1]), log[..|log| - 1]);
    }
  }

  lemma MakeUndone(t: Tree, path: Path)
    requires WellFormed(t) && CanMake(t, path)
    ensures ApplyUndo(t[path := File("")], UndoFile(path)) == t
    ensures ApplyUndo(t[path := Directory], UndoDirectory(path)) == t
  {
    var made := t[path := Directory];
    assert !HasEntries(made, path) by {
      forall p | p in made && p != [] ensures Parent(p).value != path {
        if p == path {
          assert |Parent(p).value| < |path|;
        }
      }
    }
    assert made - {path} == t;
    assert t[path := File("")] - {path} == t;
  }

  /** Renaming back restores the tree exactly when nothing was in the way. */
  lemma RenameUndone(t: Tree, from: Path, to: Path)
    requires WellFormed(t) && CanRename(t, from, to)
    ensures ApplyUndo(Relocate(t, from, to), UndoRename(to, from)) == t <==> to !in t || from == to
  {
    if to !in t {
      RenameToFreeUndone(t, from, to);
    } else if from == to {
      RelocateInPlace(t, from);
    } else {
      RenameOverLost(t, from, to);
    }
  }

  lemma RelocateInPlace(t: Tree, path: Path)
    ensures Relocate(t, path, path) == t
  {
    forall q ensures q in Relocate(t, path, path) <==> q in t
      ensures q in t ==> Relocate(t, path, path)[q] == t[q]
    {
      RelocateAt(t, path, path, q);
      if Under(q, path) {
        assert path + q[|path|..] == q;
      }
    }
  }

  lemma RenameToFreeUndone(t: Tree, from: Path, to: Path)
    requires WellFormed(t) && CanRename(t, from, to) && to !in t
    ensures ApplyUndo(Relocate(t, from, to), UndoRename(to, from)) == t
  {
    NothingUnderMissing(t, to);
    RelocateBack(t, from, to);
    CanRenameBack(t, from, to);
    hide Relocate, CanRename;
  }

  lemma CanRenameBack(t: Tree, from: Path, to: Path)
    requires WellFormed(t) && CanRename(t, from, to)
    requires forall p | p in t :: !Under(p, to)
    ensures CanRename(Relocate(t, from, to), to, from)
  {
    var up := Parent(from).value;
    RelocateAt(t, from, to, to);
    RelocateAt(t, from, to, from);
    RelocateAt(t, from, to, up);
    hide Relocate;
    assert Under(to, to) && Moved(to, to, from) == from;
    assert Under(from, from) && !Under(up, from);
    assert IsDirectory(t, up);
  }

  lemma RenameOverLost(t: Tree, from: Path, to: Path)
    requires WellFormed(t) && CanRename(t, from, to) && to in t && from != to
    ensures ApplyUndo(Relocate(t, from, to), UndoRename(to, from)) != t
  {
    var t' := Relocate(t, from, to);
    NothingUnderEmpty(t, to);
    RelocateAt(t, from, to, from);
    RelocateAt(t', to, from, to);
    assert Under(from, from) && Under(to, to);
  }
}
