/** Paths as component sequences, and maps keyed by them. */
module Paths {
  import opened Options

  type Path = seq<string>

  /** `path` is `dir` itself or something inside it. */
  predicate Under(path: Path, dir: Path) {
    |dir| <= |path| && path[..|dir|] == dir
  }

  function Parent(path: Path): Option<Path> {
    if path == [] then None else Some(path[..|path| - 1])
  }

  /** The prefix `from` of a path exchanged for `to`; a path without it is kept. */
  function Moved(path: Path, from: Path, to: Path): Path {
    if Under(path, from) then to + path[|from|..] else path
  }

  lemma MovedIsUnder(path: Path, from: Path, to: Path)
    requires Under(path, from)
    ensures Under(Moved(path, from, to), to)
    ensures Moved(Moved(path, from, to), to, from) == path
  {
    assert Moved(path, from, to)[|to|..] == path[|from|..];
    assert from + path[|from|..] == path;
  }

  lemma ParentIsUnder(path: Path, dir: Path)
    requires Under(path, dir) && path != dir
    ensures path != [] && Under(Parent(path).value, dir)
  {
    assert path[..|dir|] == path[..|path| - 1][..|dir|];
  }

  lemma ParentAbove(path: Path, dir: Path)
    requires path != [] && Under(Parent(path).value, dir)
    ensures Under(path, dir)
  {
    assert path[..|dir|] == path[..|path| - 1][..|dir|];
  }

  lemma ParentMoves(path: Path, from: Path, to: Path)
    requires Under(path, from) && path != from
    ensures Moved(path, from, to) != [] && path != []
    ensures Parent(Moved(path, from, to)).value == Moved(Parent(path).value, from, to)
  {
    ParentIsUnder(path, from);
    assert path[..|path| - 1][|from|..] == path[|from|..][..|path| - 1 - |from|];
  }

  /** Everything's parent is there too. */
  ghost predicate Closed<V>(m: map<Path, V>) {
    forall p | p in m && p != [] :: Parent(p).value in m
  }

  lemma {:induction false} AncestorsIn<V>(m: map<Path, V>, path: Path, dir: Path)
    requires Closed(m) && path in m && Under(path, dir)
    ensures dir in m
    decreases |path|
  {
    if path != dir {
      ParentIsUnder(path, dir);
      AncestorsIn(m, Parent(path).value, dir);
    }
  }

  function Without<V>(m: map<Path, V>, dir: Path): map<Path, V> {
    map p | p in m && !Under(p, dir) :: m[p]
  }

  /** The whole subtree at `from` moved to `to`, over anything there. */
  function Relocate<V>(m: map<Path, V>, from: Path, to: Path): map<Path, V> {
    var moved := set p | p in m && Under(p, from) :: Moved(p, from, to);
    Without(m, from) + map q | q in moved && Under(q, to) && Moved(q, to, from) in m :: m[Moved(q, to, from)]
  }

  lemma RelocateAt<V>(m: map<Path, V>, from: Path, to: Path, q: Path)
    ensures q in Relocate(m, from, to) <==>
            (Under(q, to) && Moved(q, to, from) in m) || (q in m && !Under(q, from))
    ensures Under(q, to) && Moved(q, to, from) in m ==> Relocate(m, from, to)[q] == m[Moved(q, to, from)]
    ensures !(Under(q, to) && Moved(q, to, from) in m) && q in m && !Under(q, from) ==> Relocate(m, from, to)[q] == m[q]
  {
    if Under(q, to) {
      MovedIsUnder(q, to, from);
    }
    forall p | p in m && Under(p, from) ensures Under(Moved(p, from, to), to) && Moved(Moved(p, from, to), to, from) == p {
      MovedIsUnder(p, from, to);
    }
  }

  /** Moving a subtree to a free place and back changes nothing. */
  lemma RelocateBack<V>(m: map<Path, V>, from: Path, to: Path)
    requires forall p | p in m :: !Under(p, to)
    requires !Under(to, from)
    ensures Relocate(Relocate(m, from, to), to, from) == m
  {
    var there := Relocate(m, from, to);
    var back := Relocate(there, to, from);
    forall q ensures (q in back <==> q in m) && (q in m ==> back[q] == m[q]) {
      RelocateAt(there, to, from, q);
      RelocateAt(m, from, to, q);
      if Under(q, from) {
        MovedIsUnder(q, from, to);
        RelocateAt(m, from, to, Moved(q, from, to));
      }
    }
  }
}
