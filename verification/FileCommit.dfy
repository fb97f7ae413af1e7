/** The committer: steps taken one by one over a log that leads back. */
module FileCommit {
  import opened Options
  import opened Paths
  import opened Disks
  import opened FilePlan
  import opened FileUndo
  import opened FileSteps

  /** The process-wide counter aside names are numbered from. */
  class AsideNames {
    const pid: string
    var next: nat

    constructor (pid: string)
      ensures this.pid == pid && next == 0
    {
      this.pid := pid;
      next := 0;
    }

    method Name(path: Path) returns (aside: Path)
      modifies this`next
      ensures aside == AsideFor(path, pid, old(next)) && next == old(next) + 1
    {
      aside := AsideFor(path, pid, next);
      next := next + 1;
    }
  }

  /** The log of a commit under way: `RunUndo` over `undo` is what it promises. */
  class Done {
    var undo: seq<Undo>
    var aside: seq<Path>

    constructor ()
      ensures undo == [] && aside == []
    {
      undo, aside := [], [];
    }

    /** How the commit stands. */
    ghost function On(disk: Disk, names: AsideNames): Trail
      reads this, disk, names
    {
      Trail(disk.tree, disk.calls, names.next, undo, aside)
    }

    /** One directory made and remembered. */
    method MakeDirectory(disk: Disk, dir: Path, ghost names: AsideNames) returns (ok: bool)
      modifies this`undo, disk
      ensures Went(ok, On(disk, names)) == MakeOn(disk.refuses, old(On(disk, names)), dir, Directory)
    {
      ok := disk.CreateDirectory(dir);
      if ok {
        undo := undo + [UndoDirectory(dir)];
      }
    }

    /** Makes `MissingAbove`, outermost first, one log entry each. */
    method Parents(disk: Disk, path: Path, ghost names: AsideNames) returns (ok: bool)
      modifies this`undo, disk
      ensures Went(ok, On(disk, names)) == ParentsOn(disk.refuses, old(On(disk, names)), MissingAbove(old(disk.tree), path))
    {
      hide MakeOn, MissingAbove;
      var missing := MissingDirectories(disk, path);
      ghost var whole := ParentsOn(disk.refuses, On(disk, names), missing);
      assert missing[..|missing|] == missing;
      for i := |missing| downto 0
        invariant ParentsOn(disk.refuses, On(disk, names), missing[..i]) == whole
      {
        assert missing[..i + 1][..i] == missing[..i];
        ok := MakeDirectory(disk, missing[i], names);
        if !ok {
          return;
        }
      }
      ok := true;
    }

    /** One step. */
    method Take(disk: Disk, names: AsideNames, action: Action) returns (ok: bool)
      modifies this, disk, names`next
      ensures Went(ok, On(disk, names)) == StepOn(disk.refuses, old(On(disk, names)), action, names.pid)
    {
      hide ParentsOn, MissingAbove, CanMake, CanRename, Relocate, AsideFor;
      match action {
        case DoCreate(path) =>
          ok := Parents(disk, path, names);
          if ok {
            ok := disk.CreateNew(path);
            if ok {
              undo := undo + [UndoFile(path)];
            }
          }
        case DoRename(from, to) =>
          ok := Parents(disk, to, names);
          if ok {
            ok := disk.Rename(from, to);
            if ok {
              undo := undo + [UndoRename(to, from)];
            }
          }
        case DoDelete(path) =>
          var aside_ := names.Name(path);
          ok := disk.Rename(path, aside_);
          if ok {
            undo := undo + [UndoRename(aside_, path)];
            aside := aside + [aside_];
          }
      }
    }

    /** Applies the log to the tree from its end and empties it. A call that is
        refused, or that the tree does not allow, does not stop the rest. */
    method Undo(disk: Disk)
      modifies this, disk
      ensures disk.tree == UndoFrom(disk.refuses, old(disk.calls), old(disk.tree), old(undo))
      ensures disk.calls == old(disk.calls) + |old(undo)|
      ensures undo == [] && aside == []
    {
      var log := undo;
      undo := [];
      assert log[..|log|] == log;
      for i := |log| downto 0
        invariant UndoFrom(disk.refuses, disk.calls, disk.tree, log[..i]) ==
                  UndoFrom(disk.refuses, old(disk.calls), old(disk.tree), log)
        invariant disk.calls == old(disk.calls) + |log| - i
        invariant undo == []
      {
        assert log[..i + 1][..i] == log[..i];
        TakeBack(disk, log[i]);
      }
      aside := [];
    }
  }

  /** One entry taken back, if it can be. */
  method TakeBack(disk: Disk, entry: Undo)
    modifies disk
    ensures disk.tree == if disk.refuses(old(disk.calls)) then old(disk.tree) else ApplyUndo(old(disk.tree), entry)
    ensures disk.calls == old(disk.calls) + 1
  {
    match entry {
      case UndoFile(path) => var _ := disk.RemoveFile(path);
      case UndoDirectory(path) => var _ := disk.RemoveDirectory(path);
      case UndoRename(from, to) => var _ := disk.Rename(from, to);
    }
  }

  /** Walks up from `path` to the first directory there is. */
  method MissingDirectories(disk: Disk, path: Path) returns (missing: seq<Path>)
    ensures missing == MissingAbove(disk.tree, path)
  {
    missing := [];
    var at := Parent(path);
    while at.Some? && at.value != [] && at.value !in disk.tree
      invariant MissingAbove(disk.tree, path) ==
                missing + if at.None? || at.value == [] || at.value in disk.tree then [] else [at.value] + MissingAbove(disk.tree, at.value)
      decreases if at.None? then 0 else |at.value|
    {
      missing := missing + [at.value];
      at := Parent(at.value);
    }
  }

  /** Takes every step, or takes back those before the one that failed: the tree,
      the log, and every count are those of `CommitOn`, which `CommitIsAtomic` is
      about; `end` is the disk's next call when the taking stopped. */
  method Commit(disk: Disk, names: AsideNames, steps: seq<Step>) returns (done: Option<Done>, ghost end: nat)
    requires WellFormed(disk.tree)
    modifies disk, names`next
    ensures done.Some? ==> fresh(done.value)
    ensures var went := CommitOn(disk.refuses, Fresh(old(disk.tree), old(disk.calls), old(names.next)), Actions(steps), names.pid);
            && done.Some? == went.ok
            && disk.tree == went.trail.tree && disk.calls == went.trail.calls && names.next == went.trail.number
            && (done.Some? ==> done.value.undo == went.trail.log && done.value.aside == went.trail.aside)
    ensures old(disk.calls) <= end <= disk.calls
    ensures done.Some? <==>
              PossibleRun(old(disk.tree), Actions(steps), names.pid, old(names.next)) && Unrefused(disk.refuses, old(disk.calls), end)
    ensures done.None? && PossibleRun(old(disk.tree), Actions(steps), names.pid, old(names.next)) ==>
              old(disk.calls) < end && disk.refuses(end - 1)
    ensures done.Some? ==> disk.tree == RunAll(old(disk.tree), Actions(steps), names.pid, old(names.next))
    ensures CleanRun(disk.refuses, Fresh(old(disk.tree), old(disk.calls), old(names.next)), Actions(steps), names.pid) ==>
              if done.Some? then RunUndo(disk.tree, done.value.undo) == old(disk.tree)
              else Unrefused(disk.refuses, end, disk.calls) ==> disk.tree == old(disk.tree)
  {
    hide WellFormed, StepOn, UndoFrom, RunUndo, PossibleRun, RunAll, CleanRun, Unrefused;
    var log := new Done();
    ghost var actions, pid := Actions(steps), names.pid;
    ghost var s := log.On(disk, names);
    CommitIsAtomic(disk.refuses, s.tree, s.calls, s.number, actions, pid);
    ghost var whole := StepsOn(disk.refuses, s, actions, pid);
    end := whole.trail.calls;
    for i := 0 to |steps|
      invariant fresh(log)
      invariant StepsOn(disk.refuses, log.On(disk, names), actions[i..], pid) == whole
    {
      assert actions[i..][0] == steps[i].action && actions[i..][1..] == actions[i + 1..];
      var ok := log.Take(disk, names, steps[i].action);
      if !ok {
        log.Undo(disk);
        return None, end;
      }
    }
    return Some(log), end;
  }
}
