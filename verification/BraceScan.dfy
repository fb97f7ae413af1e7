// src/editorconfig.rs: finding groups in a pattern and splitting them.
module BraceScan {
  import opened Options
  import opened Utf8

  const BACKSLASH: Scalar := 92
  const OPEN: Scalar := 123
  const CLOSE: Scalar := 125
  const COMMA: Scalar := 44

  // The first brace not escaped.
  function GroupStart(t: Text, i: nat): (at: Option<nat>)
    ensures at.Some? ==> i <= at.value < |t| && t[at.value] == OPEN
    decreases |t| - i
  {
    if i >= |t| then None
    else if t[i] == BACKSLASH then GroupStart(t, i + 2)
    else if t[i] == OPEN then Some(i)
    else GroupStart(t, i + 1)
  }

  // The close that brings the depth back to none.
  function GroupEnd(t: Text, i: nat, depth: nat): (at: Option<nat>)
    ensures at.Some? ==> i <= at.value < |t| && t[at.value] == CLOSE
    decreases |t| - i
  {
    if i >= |t| then None
    else if t[i] == BACKSLASH then GroupEnd(t, i + 2, depth)
    else if t[i] == OPEN then GroupEnd(t, i + 1, depth + 1)
    else if t[i] == CLOSE then
      if depth <= 1 then Some(i) else GroupEnd(t, i + 1, depth - 1)
    else GroupEnd(t, i + 1, depth)
  }

  // The parts between commas at no depth, from `i` on in a part begun at `start`.
  function Parts(t: Text, start: nat, i: nat, depth: nat): (ps: seq<Text>)
    requires start <= |t| && start <= i
    ensures |ps| > 0 && forall k :: 0 <= k < |ps| ==> |ps[k]| <= |t|
    decreases |t| - i
  {
    if i >= |t| then [t[start..]]
    else if t[i] == BACKSLASH then Parts(t, start, i + 2, depth)
    else if t[i] == OPEN then Parts(t, start, i + 1, depth + 1)
    else if t[i] == CLOSE then Parts(t, start, i + 1, if depth > 0 then depth - 1 else 0)
    else if t[i] == COMMA && depth == 0 then [t[start..i]] + Parts(t, i + 1, i + 1, 0)
    else Parts(t, start, i + 1, depth)
  }

  // `split_alternatives`.
  function Alternatives(body: Text): Option<seq<Text>> {
    var ps := Parts(body, 0, 0, 0);
    if |ps| == 1 then None else Some(ps)
  }

  // Scanning from `i` at depth `rel` arrives at `j` at depth 0 without closing
  // more than it opened, or, unless `commas`, meeting a comma at depth 0.
  ghost predicate Clear(t: Text, i: nat, j: nat, rel: nat, commas: bool)
    requires j <= |t|
    decreases |t| - i
  {
    if i >= j then i == j && rel == 0
    else if t[i] == BACKSLASH then Clear(t, i + 2, j, rel, commas)
    else if t[i] == OPEN then Clear(t, i + 1, j, rel + 1, commas)
    else if t[i] == CLOSE then rel > 0 && Clear(t, i + 1, j, rel - 1, commas)
    else (t[i] == COMMA && rel == 0 ==> commas) && Clear(t, i + 1, j, rel, commas)
  }

  lemma ClearAtEnd(t: Text, j: nat, commas: bool)
    requires j <= |t|
    ensures Clear(t, j, j, 0, commas)
  {
  }

  lemma {:induction false} ClearForEnd(t: Text, i: nat, j: nat, rel: nat, depth: nat)
    requires j <= |t| && Clear(t, i, j, rel, true) && depth > 0
    ensures GroupEnd(t, i, depth + rel) == GroupEnd(t, j, depth)
    decreases |t| - i
  {
    if i < j {
      if t[i] == BACKSLASH { ClearForEnd(t, i + 2, j, rel, depth); }
      else if t[i] == OPEN { ClearForEnd(t, i + 1, j, rel + 1, depth); }
      else if t[i] == CLOSE { ClearForEnd(t, i + 1, j, rel - 1, depth); }
      else { ClearForEnd(t, i + 1, j, rel, depth); }
    }
  }

  lemma {:induction false} ClearForParts(t: Text, start: nat, i: nat, j: nat, rel: nat)
    requires start <= i && start <= |t| && j <= |t| && Clear(t, i, j, rel, false)
    ensures i <= j && Parts(t, start, i, rel) == Parts(t, start, j, 0)
    decreases |t| - i
  {
    if i < j {
      if t[i] == BACKSLASH { ClearForParts(t, start, i + 2, j, rel); }
      else if t[i] == OPEN { ClearForParts(t, start, i + 1, j, rel + 1); }
      else if t[i] == CLOSE { ClearForParts(t, start, i + 1, j, rel - 1); }
      else { ClearForParts(t, start, i + 1, j, rel); }
    }
  }

  method FindGroupStart(t: Text) returns (at: Option<nat>)
    ensures at == GroupStart(t, 0)
  {
    var i := 0;
    while i < |t|
      invariant GroupStart(t, 0) == GroupStart(t, i)
    {
      if t[i] == BACKSLASH {
        i := i + 2;
      } else if t[i] == OPEN {
        return Some(i);
      } else {
        i := i + 1;
      }
    }
    return None;
  }

  method FindGroupEnd(t: Text, open: nat) returns (at: Option<nat>)
    requires open < |t| && t[open] == OPEN
    ensures at == GroupEnd(t, open, 0)
  {
    var depth: nat, i: nat := 0, open;
    while i < |t|
      invariant open <= i && (i == open <==> depth == 0)
      invariant GroupEnd(t, open, 0) == GroupEnd(t, i, depth)
    {
      if t[i] == BACKSLASH {
        i := i + 1;
      } else if t[i] == OPEN {
        depth := depth + 1;
      } else if t[i] == CLOSE {
        depth := depth - 1;
        if depth == 0 {
          return Some(i);
        }
      }
      i := i + 1;
    }
    return None;
  }

  method SplitAlternatives(t: Text) returns (parts: Option<seq<Text>>)
    ensures parts == Alternatives(t)
  {
    var found: seq<Text> := [];
    var depth: nat, start: nat, i: nat := 0, 0, 0;
    while i < |t|
      invariant start <= i && start <= |t|
      invariant Parts(t, 0, 0, 0) == found + Parts(t, start, i, depth)
    {
      if t[i] == BACKSLASH {
        i := i + 1;
      } else if t[i] == OPEN {
        depth := depth + 1;
      } else if t[i] == CLOSE {
        depth := if depth > 0 then depth - 1 else 0;
      } else if t[i] == COMMA && depth == 0 {
        found := found + [t[start..i]];
        start := i + 1;
      }
      i := i + 1;
    }
    if |found| == 0 {
      return None;
    }
    return Some(found + [t[start..]]);
  }
}
