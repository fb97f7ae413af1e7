/** The planner: operations to steps, by looking backwards through the steps so far. */
module FilePlan {
  import opened Options
  import opened Paths
  import opened Disks

  datatype Operation =
    | Create(path: Path, overwrite: bool, ignoreIfExists: bool)
    | Rename(from: Path, to: Path, overwrite: bool, ignoreIfExists: bool)
    | Delete(path: Path, recursive: bool, ignoreIfNotExists: bool)

  datatype Action =
    | DoCreate(path: Path)
    | DoRename(from: Path, to: Path)
    | DoDelete(path: Path)

  /** An action placed among the text changes, `position` of which precede it. */
  datatype Step = Step(position: nat, action: Action)

  /** Why a plan is refused. */
  datatype Refusal =
    | AlreadyExists(path: Path)
    | DoesNotExist(path: Path)
    | HasFiles(path: Path)
    | UnsavedChanges(open: Path)

  datatype Found = Missing | Created | OnDisk(at: Path)

  /** What a path is after the changes, found from the last change back. */
  function FindIn(changes: seq<Action>, path: Path): Found {
    if changes == [] then OnDisk(path)
    else
      var before := changes[..|changes| - 1];
      match changes[|changes| - 1]
      case DoCreate(made) => if path == made then Created else FindIn(before, path)
      case DoDelete(gone) => if Under(path, gone) then Missing else FindIn(before, path)
      case DoRename(from, to) =>
        if Under(path, to) then FindIn(before, Moved(path, to, from))
        else if Under(path, from) then Missing
        else FindIn(before, path)
  }

  predicate ExistsIn(t: Tree, changes: seq<Action>, path: Path) {
    match FindIn(changes, path)
    case Missing => false
    case Created => true
    case OnDisk(at) => at in t
  }

  predicate IsDirectoryWithFilesIn(t: Tree, changes: seq<Action>, path: Path) {
    match FindIn(changes, path)
    case OnDisk(at) => IsDirectory(t, at) && HasEntries(t, at)
    case _ => false
  }

  /** The planned actions, as an object to ask about paths; `FindIn` is its answer. */
  class Model {
    var changes: seq<Action>

    constructor ()
      ensures changes == []
    {
      changes := [];
    }

    method Find(path: Path) returns (found: Found)
      ensures found == FindIn(changes, path)
    {
      var at := path;
      assert changes[..|changes|] == changes;
      for i := |changes| downto 0
        invariant FindIn(changes[..i], at) == FindIn(changes, path)
      {
        assert changes[..i + 1][..i] == changes[..i];
        match changes[i] {
          case DoCreate(made) =>
            if at == made {
              return Created;
            }
          case DoDelete(gone) =>
            if Under(at, gone) {
              return Missing;
            }
          case DoRename(from, to) =>
            if Under(at, to) {
              at := Moved(at, to, from);
            } else if Under(at, from) {
              return Missing;
            }
        }
      }
      return OnDisk(at);
    }

    method Exists(disk: Disk, path: Path) returns (yes: bool)
      ensures yes == ExistsIn(disk.tree, changes, path)
    {
      var found := Find(path);
      match found {
        case Missing => yes := false;
        case Created => yes := true;
        case OnDisk(at) => yes := disk.Exists(at);
      }
    }

    method IsDirectoryWithFiles(disk: Disk, path: Path) returns (yes: bool)
      ensures yes == IsDirectoryWithFilesIn(disk.tree, changes, path)
    {
      var found := Find(path);
      match found {
        case OnDisk(at) => yes := IsDirectory(disk.tree, at) && HasEntries(disk.tree, at);
        case _ => yes := false;
      }
    }
  }

  /** The first of `unsaved` that lies under `path`. */
  function FirstUnder(unsaved: seq<Path>, path: Path): Option<Path> {
    if unsaved == [] then None
    else if Under(unsaved[0], path) then Some(unsaved[0])
    else FirstUnder(unsaved[1..], path)
  }

  function MoveAll(paths: seq<Path>, from: Path, to: Path): seq<Path> {
    seq(|paths|, i requires 0 <= i < |paths| => Moved(paths[i], from, to))
  }

  /** Where planning stands: the steps taken, and where the unsaved files are by now. */
  datatype Planner = Planner(steps: seq<Step>, unsaved: seq<Path>)

  function Actions(steps: seq<Step>): seq<Action> {
    seq(|steps|, i requires 0 <= i < |steps| => steps[i].action)
  }

  /** One operation planned, or refused. */
  function PlanOne(t: Tree, p: Planner, position: nat, op: Operation): Result<Planner, Refusal> {
    var changes := Actions(p.steps);
    match op
    case Create(path, overwrite, ignoreIfExists) =>
      if !ExistsIn(t, changes, path) then Ok(p.(steps := p.steps + [Step(position, DoCreate(path))]))
      else if !overwrite then if ignoreIfExists then Ok(p) else Err(AlreadyExists(path))
      else if FirstUnder(p.unsaved, path).Some? then Err(UnsavedChanges(FirstUnder(p.unsaved, path).value))
      else Ok(p.(steps := p.steps + [Step(position, DoDelete(path))] + [Step(position, DoCreate(path))]))
    case Rename(from, to, overwrite, ignoreIfExists) =>
      if !ExistsIn(t, changes, from) then Err(DoesNotExist(from))
      else if !ExistsIn(t, changes, to) then
        Ok(Planner(p.steps + [Step(position, DoRename(from, to))], MoveAll(p.unsaved, from, to)))
      else if !overwrite then if ignoreIfExists then Ok(p) else Err(AlreadyExists(to))
      else if FirstUnder(p.unsaved, to).Some? then Err(UnsavedChanges(FirstUnder(p.unsaved, to).value))
      else
        Ok(Planner(p.steps + [Step(position, DoDelete(to))] + [Step(position, DoRename(from, to))],
                   MoveAll(p.unsaved, from, to)))
    case Delete(path, recursive, ignoreIfNotExists) =>
      if !ExistsIn(t, changes, path) then if ignoreIfNotExists then Ok(p) else Err(DoesNotExist(path))
      else if !recursive && IsDirectoryWithFilesIn(t, changes, path) then Err(HasFiles(path))
      else if FirstUnder(p.unsaved, path).Some? then Err(UnsavedChanges(FirstUnder(p.unsaved, path).value))
      else Ok(p.(steps := p.steps + [Step(position, DoDelete(path))]))
  }

  /** The whole edit planned, refusing the first operation that cannot be done. */
  function PlanAll(t: Tree, p: Planner, operations: seq<(nat, Operation)>): Result<Planner, Refusal>
    decreases operations
  {
    if operations == [] then Ok(p)
    else
      match PlanOne(t, p, operations[0].0, operations[0].1)
      case Err(why) => Err(why)
      case Ok(next) => PlanAll(t, next, operations[1..])
  }

  /** The planning loop computes `PlanAll`; the disk is only read. */
  method Plan(disk: Disk, operations: seq<(nat, Operation)>, unsaved: seq<Path>) returns (plan: Result<seq<Step>, Refusal>)
    ensures match PlanAll(disk.tree, Planner([], unsaved), operations)
            case Ok(p) => plan == Ok(p.steps)
            case Err(why) => plan == Err(why)
  {
    var model := new Model();
    var open := unsaved;
    var steps := [];
    ghost var whole := PlanAll(disk.tree, Planner([], unsaved), operations);
    for i := 0 to |operations|
      invariant model.changes == Actions(steps)
      invariant PlanAll(disk.tree, Planner(steps, open), operations[i..]) == whole
    {
      var (position, operation) := operations[i];
      assert operations[i..][1..] == operations[i + 1..];
      match operation {
        case Create(path, overwrite, ignoreIfExists) =>
          var exists_ := model.Exists(disk, path);
          if exists_ {
            if !overwrite {
              if ignoreIfExists {
                continue;
              }
              return Err(AlreadyExists(path));
            }
            var held := FirstUnder(open, path);
            if held.Some? {
              return Err(UnsavedChanges(held.value));
            }
            steps := Take(model, steps, position, DoDelete(path));
          }
          steps := Take(model, steps, position, DoCreate(path));
        case Rename(from, to, overwrite, ignoreIfExists) =>
          var source := model.Exists(disk, from);
          if !source {
            return Err(DoesNotExist(from));
          }
          var target := model.Exists(disk, to);
          if target {
            if !overwrite {
              if ignoreIfExists {
                continue;
              }
              return Err(AlreadyExists(to));
            }
            var held := FirstUnder(open, to);
            if held.Some? {
              return Err(UnsavedChanges(held.value));
            }
            steps := Take(model, steps, position, DoDelete(to));
          }
          steps := Take(model, steps, position, DoRename(from, to));
          open := MoveAll(open, from, to);
        case Delete(path, recursive, ignoreIfNotExists) =>
          var exists_ := model.Exists(disk, path);
          if !exists_ {
            if ignoreIfNotExists {
              continue;
            }
            return Err(DoesNotExist(path));
          }
          var full := model.IsDirectoryWithFiles(disk, path);
          if !recursive && full {
            return Err(HasFiles(path));
          }
          var held := FirstUnder(open, path);
          if held.Some? {
            return Err(UnsavedChanges(held.value));
          }
          steps := Take(model, steps, position, DoDelete(path));
      }
    }
    return Ok(steps);
  }

  method Take(model: Model, steps: seq<Step>, position: nat, action: Action) returns (taken: seq<Step>)
    requires model.changes == Actions(steps)
    modifies model
    ensures taken == steps + [Step(position, action)]
    ensures model.changes == Actions(taken)
  {
    model.changes := model.changes + [action];
    taken := steps + [Step(position, action)];
  }

  /** `path` carried through the actions placed after `position`: renamed along,
      or none once one of them deletes it. */
  function DestinationIn(steps: seq<Step>, position: nat, path: Path): Option<Path> {
    if steps == [] then Some(path)
    else
      var rest := steps[1..];
      if steps[0].position <= position then DestinationIn(rest, position, path)
      else
        match steps[0].action
        case DoRename(from, to) => DestinationIn(rest, position, Moved(path, from, to))
        case DoDelete(gone) => if Under(path, gone) then None else DestinationIn(rest, position, path)
        case DoCreate(_) => DestinationIn(rest, position, path)
  }

  method Destination(steps: seq<Step>, position: nat, path: Path) returns (to: Option<Path>)
    ensures to == DestinationIn(steps, position, path)
  {
    var at := path;
    for i := 0 to |steps|
      invariant DestinationIn(steps[i..], position, at) == DestinationIn(steps, position, path)
    {
      assert steps[i..][1..] == steps[i + 1..];
      if steps[i].position > position {
        match steps[i].action {
          case DoRename(from, to) => at := Moved(at, from, to);
          case DoDelete(gone) =>
            if Under(at, gone) {
              return None;
            }
          case DoCreate(_) =>
        }
      }
    }
    return Some(at);
  }

  /** `path` carried through all the renames, whatever the deletes say. */
  function Follow(steps: seq<Step>, path: Path): Path {
    if steps == [] then path
    else
      var before := Follow(steps[..|steps| - 1], path);
      match steps[|steps| - 1].action
      case DoRename(from, to) => Moved(before, from, to)
      case _ => before
  }
}
