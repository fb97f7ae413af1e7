/** Where a diff's ops stand, by index. */
module Placement {
  import opened EditScript

  /** The old and the new line at which op `i` starts. */
  function OldAt(ops: seq<DiffOp>, i: nat): nat
    requires i <= |ops|
  {
    if i == 0 then 0 else OldAt(ops, i - 1) + OldLen(ops[i - 1])
  }

  function NewAt(ops: seq<DiffOp>, i: nat): nat
    requires i <= |ops|
  {
    if i == 0 then 0 else NewAt(ops, i - 1) + NewLen(ops[i - 1])
  }

  ghost predicate OpPlaced<T>(a: seq<T>, b: seq<T>, ops: seq<DiffOp>, i: nat)
    requires i < |ops|
  {
    var op := ops[i];
    && op.len > 0
    && (!op.Insert? ==> op.a == OldAt(ops, i))
    && (!op.Delete? ==> op.b == NewAt(ops, i))
    && OldAt(ops, i) + OldLen(op) <= |a| && NewAt(ops, i) + NewLen(op) <= |b|
    && (op.Equal? ==> a[op.a..op.a + op.len] == b[op.b..op.b + op.len])
  }

  ghost predicate Placed<T>(a: seq<T>, b: seq<T>, ops: seq<DiffOp>) {
    && OldAt(ops, |ops|) == |a| && NewAt(ops, |ops|) == |b|
    && forall i: nat | i < |ops| :: OpPlaced(a, b, ops, i)
  }

  lemma {:induction false} PrefixAt(ops: seq<DiffOp>, n: nat, i: nat)
    requires i <= n <= |ops|
    ensures OldAt(ops[..n], i) == OldAt(ops, i) && NewAt(ops[..n], i) == NewAt(ops, i)
    decreases i
  {
    if i > 0 {
      PrefixAt(ops, n, i - 1);
    }
  }

  lemma {:induction false} LeadsToPlaces<T>(a: seq<T>, b: seq<T>, ops: seq<DiffOp>, x: nat, y: nat, n: nat)
    requires n <= |ops| && LeadsTo(a, b, ops[..n], x, y)
    ensures OldAt(ops, n) == x && NewAt(ops, n) == y
    ensures forall i: nat | i < n :: OpPlaced(a, b, ops, i)
    decreases n
  {
    if n > 0 {
      var op := ops[n - 1];
      assert ops[..n][n - 1] == op && ops[..n][..n - 1] == ops[..n - 1];
      LeadsToPlaces(a, b, ops, x - OldLen(op), y - NewLen(op), n - 1);
    }
  }

  lemma TilesArePlaced<T>(a: seq<T>, b: seq<T>, ops: seq<DiffOp>)
    requires Tiles(a, b, ops)
    ensures Placed(a, b, ops)
  {
    assert ops[..|ops|] == ops;
    LeadsToPlaces(a, b, ops, |a|, |b|, |ops|);
  }

  lemma {:induction false} AtMonotone(ops: seq<DiffOp>, i: nat, j: nat)
    requires i <= j <= |ops|
    ensures OldAt(ops, i) <= OldAt(ops, j) && NewAt(ops, i) <= NewAt(ops, j)
    decreases j
  {
    if i < j {
      AtMonotone(ops, i, j - 1);
    }
  }

  /** The op a new line belongs to. */
  lemma {:induction false} Covering(ops: seq<DiffOp>, n: nat, line: nat) returns (i: nat)
    requires n <= |ops| && line < NewAt(ops, n)
    ensures i < n && NewAt(ops, i) <= line < NewAt(ops, i + 1)
    ensures !ops[i].Delete?
    decreases n
  {
    if NewAt(ops, n - 1) <= line {
      i := n - 1;
    } else {
      i := Covering(ops, n - 1, line);
    }
  }
}
