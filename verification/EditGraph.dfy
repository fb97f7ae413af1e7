/** The edit graph of two sequences: distances on it, and the furthest point
    each round of Myers' greedy search reaches on each diagonal.

    The graph is extended past the corner `(|a|, |b|)` with rows and columns
    that match nothing, because the search's frontier points may run off the
    grid. */
module EditGraph {

  /** Whether the diagonal step out of `(x, y)` is free. */
  predicate Match<T(==)>(a: seq<T>, b: seq<T>, x: int, y: int) {
    0 <= x < |a| && 0 <= y < |b| && a[x] == b[y]
  }

  function Min(x: int, y: int): int { if x <= y then x else y }

  /** The fewest insertions and deletions on a path from the origin to `(x, y)`. */
  ghost function Dist<T>(a: seq<T>, b: seq<T>, x: nat, y: nat): nat
    decreases x + y
  {
    if x == 0 then y
    else if y == 0 then x
    else if Match(a, b, x - 1, y - 1) then Dist(a, b, x - 1, y - 1)
    else 1 + Min(Dist(a, b, x - 1, y), Dist(a, b, x, y - 1))
  }

  /** Neighbouring points differ by at most one edit. */
  lemma {:induction false} DistLipschitz<T>(a: seq<T>, b: seq<T>, x: nat, y: nat)
    ensures Dist(a, b, x + 1, y) <= Dist(a, b, x, y) + 1
    ensures Dist(a, b, x, y + 1) <= Dist(a, b, x, y) + 1
    ensures Dist(a, b, x, y) <= Dist(a, b, x + 1, y) + 1
    ensures Dist(a, b, x, y) <= Dist(a, b, x, y + 1) + 1
    decreases x + y
  {
    if x > 0 {
      DistLipschitz(a, b, x - 1, y);
    }
    if y > 0 {
      DistLipschitz(a, b, x, y - 1);
    }
  }

  /** Distance never falls along a diagonal, and a match costs nothing. */
  lemma DistDiagonalStep<T>(a: seq<T>, b: seq<T>, x: nat, y: nat)
    ensures Dist(a, b, x, y) <= Dist(a, b, x + 1, y + 1)
    ensures Match(a, b, x, y) ==> Dist(a, b, x + 1, y + 1) == Dist(a, b, x, y)
  {
    DistLipschitz(a, b, x, y);
  }

  lemma {:induction false} DistDiagonal<T>(a: seq<T>, b: seq<T>, x: nat, y: nat, steps: nat)
    ensures Dist(a, b, x, y) <= Dist(a, b, x + steps, y + steps)
    decreases steps
  {
    if steps > 0 {
      DistDiagonal(a, b, x, y, steps - 1);
      DistDiagonalStep(a, b, x + steps - 1, y + steps - 1);
    }
  }

  /** A point `k` diagonals off the main one costs at least `|k|`, and deleting
      everything and inserting everything bounds the cost above. */
  lemma {:induction false} DistBounds<T>(a: seq<T>, b: seq<T>, x: nat, y: nat)
    ensures x - y <= Dist(a, b, x, y)
    ensures y - x <= Dist(a, b, x, y)
    ensures Dist(a, b, x, y) <= x + y
    decreases x + y
  {
    if x > 0 && y > 0 {
      if Match(a, b, x - 1, y - 1) {
        DistBounds(a, b, x - 1, y - 1);
      } else {
        DistBounds(a, b, x - 1, y);
        DistBounds(a, b, x, y - 1);
      }
    }
  }

  /** Of the edits on a cheapest path, how many are deletions. */
  lemma {:induction false} DistSplits<T>(a: seq<T>, b: seq<T>, x: nat, y: nat) returns (deletions: nat)
    ensures deletions <= Dist(a, b, x, y)
    ensures x - y == 2 * deletions - Dist(a, b, x, y)
    decreases x + y
  {
    if x == 0 {
      deletions := 0;
    } else if y == 0 {
      deletions := x;
    } else if Match(a, b, x - 1, y - 1) {
      deletions := DistSplits(a, b, x - 1, y - 1);
    } else if Dist(a, b, x - 1, y) <= Dist(a, b, x, y - 1) {
      deletions := DistSplits(a, b, x - 1, y);
      deletions := deletions + 1;
    } else {
      deletions := DistSplits(a, b, x, y - 1);
    }
  }

  /** Off the grid every step costs, so a point past the corner is exactly its
      excess further than the corner. */
  lemma {:induction false} DistOffGrid<T>(a: seq<T>, b: seq<T>, x: nat, y: nat)
    requires x >= |a| && y >= |b|
    ensures Dist(a, b, x, y) == Dist(a, b, |a|, |b|) + (x - |a|) + (y - |b|)
    decreases x + y
  {
    if x > |a| {
      DistOffGrid(a, b, x - 1, y);
      DistPastRight(a, b, x - 1, y);
    } else if y > |b| {
      DistOffGrid(a, b, x, y - 1);
      DistPastBottom(a, b, x, y - 1);
    }
  }

  lemma {:induction false} DistPastRight<T>(a: seq<T>, b: seq<T>, x: nat, y: nat)
    requires x >= |a|
    ensures Dist(a, b, x + 1, y) == Dist(a, b, x, y) + 1
    decreases y
  {
    if x > 0 && y > 0 {
      DistPastRight(a, b, x, y - 1);
      DistLipschitz(a, b, x, y - 1);
    } else if y > 0 {
      DistPastRight(a, b, x, y - 1);
    }
  }

  lemma {:induction false} DistPastBottom<T>(a: seq<T>, b: seq<T>, x: nat, y: nat)
    requires y >= |b|
    ensures Dist(a, b, x, y + 1) == Dist(a, b, x, y) + 1
    decreases x
  {
    if x > 0 && y > 0 {
      DistPastBottom(a, b, x - 1, y);
      DistLipschitz(a, b, x - 1, y);
    } else if x > 0 {
      DistPastBottom(a, b, x - 1, y);
    }
  }

  /** Follows free diagonal steps from `(x, y)` for as long as there are any. */
  ghost function Slide<T>(a: seq<T>, b: seq<T>, x: nat, y: nat): (end: nat)
    ensures x <= end
    decreases |a| - x
  {
    if Match(a, b, x, y) then Slide(a, b, x + 1, y + 1) else x
  }

  lemma {:induction false} SlideIsFree<T>(a: seq<T>, b: seq<T>, x: nat, y: nat)
    ensures var end := Slide(a, b, x, y);
            && Dist(a, b, end, y + (end - x)) == Dist(a, b, x, y)
            && !Match(a, b, end, y + (end - x))
            && (x < end ==> end <= |a| && y + (end - x) <= |b| && a[x..end] == b[y..y + (end - x)])
    decreases |a| - x
  {
    if Match(a, b, x, y) {
      DistDiagonalStep(a, b, x, y);
      SlideIsFree(a, b, x + 1, y + 1);
      var end := Slide(a, b, x, y);
      assert a[x..end] == [a[x]] + a[x + 1..end];
      assert b[y..y + (end - x)] == [b[y]] + b[y + 1..y + (end - x)];
    }
  }

  /** Round `d` comes down (an insertion) onto the diagonal of `j` deletions,
      rather than right (a deletion): the search's tie rule. */
  ghost predicate FromAbove<T>(a: seq<T>, b: seq<T>, d: nat, j: nat)
    requires 0 < d && j <= d
    decreases d, 0
  {
    j == 0 || (j != d && Reach(a, b, d - 1, j - 1) < Reach(a, b, d - 1, j))
  }

  /** Where round `d` lands on the diagonal, before sliding. */
  ghost function Entry<T>(a: seq<T>, b: seq<T>, d: nat, j: nat): (x: nat)
    requires j <= d
    ensures 2 * j <= x + d
    decreases d, 1
  {
    if d == 0 then 0
    else if FromAbove(a, b, d, j) then Reach(a, b, d - 1, j)
    else Reach(a, b, d - 1, j - 1) + 1
  }

  /** The frontier: the `x` that round `d` reaches with `j` deletions and `d - j`
      insertions, which is on diagonal `x - y == 2 * j - d`. */
  ghost function Reach<T>(a: seq<T>, b: seq<T>, d: nat, j: nat): (x: nat)
    requires j <= d
    ensures 2 * j <= x + d
    decreases d, 2
  {
    Slide(a, b, Entry(a, b, d, j), Entry(a, b, d, j) + d - 2 * j)
  }

  /** The `y` of that point. */
  ghost function ReachY<T>(a: seq<T>, b: seq<T>, d: nat, j: nat): (y: nat)
    requires j <= d
  {
    Reach(a, b, d, j) + d - 2 * j
  }

  ghost function EntryY<T>(a: seq<T>, b: seq<T>, d: nat, j: nat): (y: nat)
    requires j <= d
  {
    Entry(a, b, d, j) + d - 2 * j
  }

  /** The tie rule picks the further of the two ways onto a diagonal. */
  lemma EntryIsFurther<T>(a: seq<T>, b: seq<T>, d: nat, j: nat)
    requires 0 < d && j <= d
    ensures 0 < j ==> Reach(a, b, d - 1, j - 1) < Entry(a, b, d, j)
    ensures j < d ==> Reach(a, b, d - 1, j) <= Entry(a, b, d, j)
  {
    hide Dist, Reach, Slide;
  }

  /** The slide of one frontier point: free, maximal, and equal runs. */
  lemma SlideOfRound<T>(a: seq<T>, b: seq<T>, d: nat, j: nat)
    requires j <= d
    ensures var x, y := Reach(a, b, d, j), ReachY(a, b, d, j);
            var x0, y0 := Entry(a, b, d, j), EntryY(a, b, d, j);
            && Dist(a, b, x, y) == Dist(a, b, x0, y0)
            && !Match(a, b, x, y)
            && x0 <= x
            && (x0 < x ==> x <= |a| && y <= |b| && a[x0..x] == b[y0..y])
  {
    hide Dist, Entry, Slide, FromAbove, Match;
    SlideIsFree(a, b, Entry(a, b, d, j), EntryY(a, b, d, j));
  }

  /** The frontier really is furthest: its point costs at most `d`, and every
      later point of its diagonal costs more. */
  lemma {:induction false} ReachIsFurthest<T>(a: seq<T>, b: seq<T>, d: nat, j: nat)
    requires j <= d
    ensures Dist(a, b, Reach(a, b, d, j), ReachY(a, b, d, j)) <= d
    ensures d < Dist(a, b, Reach(a, b, d, j) + 1, ReachY(a, b, d, j) + 1)
    decreases d, 1
  {
    hide Reach, FromAbove, Slide;
    SlideOfRound(a, b, d, j);
    if d > 0 {
      EntryCost(a, b, d, j);
      BothSidesBeyond(a, b, d, j, Reach(a, b, d, j));
    } else {
      assert Entry(a, b, d, j) == 0;
    }
  }

  /** The points beside and below the end of a slide lie past the frontier of
      the round before. */
  lemma {:induction false} BothSidesBeyond<T>(a: seq<T>, b: seq<T>, d: nat, j: nat, x: nat)
    requires 0 < d && j <= d && Entry(a, b, d, j) <= x
    ensures d <= Dist(a, b, x, x + 1 + d - 2 * j) && d <= Dist(a, b, x + 1, x + d - 2 * j)
    decreases d, 0, 1
  {
    hide Dist, Reach, Entry, FromAbove, Slide;
    EntryIsFurther(a, b, d, j);
    if j > 0 {
      BesideFrontier(a, b, d, j - 1, x);
    } else {
      DistBounds(a, b, x, x + 1 + d - 2 * j);
    }
    if j < d {
      BesideFrontier(a, b, d, j, x + 1);
    } else {
      DistBounds(a, b, x + 1, x + d - 2 * j);
    }
  }

  lemma {:induction false} EntryCost<T>(a: seq<T>, b: seq<T>, d: nat, j: nat)
    requires 0 < d && j <= d
    ensures Dist(a, b, Entry(a, b, d, j), EntryY(a, b, d, j)) <= d
    decreases d, 0
  {
    hide Dist, Reach, FromAbove, Slide;
    ViaExists(a, b, d, j);
    var i := if FromAbove(a, b, d, j) then j else j - 1;
    ReachIsFurthest(a, b, d - 1, i);
    DistLipschitz(a, b, Reach(a, b, d - 1, i), ReachY(a, b, d - 1, i));
  }

  /** The way the tie rule picks exists in the round before. */
  lemma ViaExists<T>(a: seq<T>, b: seq<T>, d: nat, j: nat)
    requires 0 < d && j <= d
    ensures FromAbove(a, b, d, j) ==> j <= d - 1
    ensures !FromAbove(a, b, d, j) ==> 1 <= j
  {
    hide Reach, Dist, Slide, Entry;
  }

  /** On a diagonal next to one of round `d`'s, past its frontier of the round
      before. */
  lemma {:induction false} BesideFrontier<T>(a: seq<T>, b: seq<T>, d: nat, j: nat, x: nat)
    requires 0 < d && j <= d - 1 && Reach(a, b, d - 1, j) < x
    ensures d <= Dist(a, b, x, x + d - 1 - 2 * j)
    decreases d, 0, 0
  {
    hide Dist, Reach, Entry, FromAbove, Slide;
    ReachIsFurthest(a, b, d - 1, j);
    ReachExceeded(a, b, d - 1, j, x);
  }

  /** A point past the frontier costs more than `d`. */
  lemma ReachExceeded<T>(a: seq<T>, b: seq<T>, d: nat, j: nat, x: nat)
    requires j <= d && Reach(a, b, d, j) < x
    requires d < Dist(a, b, Reach(a, b, d, j) + 1, ReachY(a, b, d, j) + 1)
    ensures d < Dist(a, b, x, x + d - 2 * j)
  {
    hide Dist, Reach, Entry, FromAbove, Slide;
    DistDiagonal(a, b, Reach(a, b, d, j) + 1, ReachY(a, b, d, j) + 1, x - Reach(a, b, d, j) - 1);
  }

  /** The corner's distance: the round at which the search ends. */
  ghost function Rounds<T>(a: seq<T>, b: seq<T>): nat {
    Dist(a, b, |a|, |b|)
  }

  /** The deletions of the path that ends it: the corner's diagonal. */
  ghost function Deletions<T>(a: seq<T>, b: seq<T>): nat {
    DistBounds(a, b, |a|, |b|);
    (Rounds(a, b) + |a| - |b|) / 2
  }

  /** The corner's diagonal is one the last round visits, and the last round
      comes within the bound the search's arrays are sized for. */
  lemma CornerOnRound<T>(a: seq<T>, b: seq<T>)
    ensures Deletions(a, b) <= Rounds(a, b) <= |a| + |b|
    ensures |a| - |b| == 2 * Deletions(a, b) - Rounds(a, b)
  {
    hide Dist;
    DistBounds(a, b, |a|, |b|);
    var deletions := DistSplits(a, b, |a|, |b|);
  }

  /** The search cannot miss the corner, nor overshoot it: up to its last round
      a frontier point past both edges exists exactly in that round, on the
      corner's diagonal, and is the corner itself. */
  lemma HitIsCorner<T>(a: seq<T>, b: seq<T>, d: nat, j: nat)
    requires j <= d <= Rounds(a, b)
    ensures Reach(a, b, d, j) >= |a| && ReachY(a, b, d, j) >= |b| <==> d == Rounds(a, b) && j == Deletions(a, b)
    ensures d == Rounds(a, b) && j == Deletions(a, b) ==> Reach(a, b, d, j) == |a| && ReachY(a, b, d, j) == |b|
  {
    hide Dist, Reach, Entry, FromAbove, Slide, Deletions;
    var x, y := Reach(a, b, d, j), ReachY(a, b, d, j);
    CornerOnRound(a, b);
    ReachIsFurthest(a, b, d, j);
    if x >= |a| && y >= |b| {
      DistOffGrid(a, b, x, y);
    }
    if d == Rounds(a, b) && j == Deletions(a, b) {
      if x < |a| {
        ReachExceeded(a, b, d, j, |a|);
      } else {
        DistOffGrid(a, b, x, y);
      }
    }
  }
}
