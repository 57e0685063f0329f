/**
 * The edit graph of two files and its furthest-reaching points.
 *
 * A point (x, y) stands for "x old lines and y new lines consumed". The search leaves the grid
 * freely: only the diagonal steps, which keep a shared line, are confined to it.
 * The diagonals round d visits are numbered j = 0..d, the j-th being x - y = 2j - d, and a frontier
 * holds one x per diagonal of a round.
 */
module EditGraph {
  import opened EditScript

  /** (x, y) can be reached from (0, 0) with at most d edits. */
  ghost predicate Reach<T>(a: seq<T>, b: seq<T>, d: int, x: int, y: int)
    decreases x + y
  {
    && d >= 0 && x >= 0 && y >= 0
    && (|| (x == 0 && y == 0)
        || (x > 0 && Reach(a, b, d - 1, x - 1, y))
        || (y > 0 && Reach(a, b, d - 1, x, y - 1))
        || (0 < x <= |a| && 0 < y <= |b| && a[x - 1] == b[y - 1] && Reach(a, b, d, x - 1, y - 1)))
  }

  lemma {:induction false} ReachMore<T>(a: seq<T>, b: seq<T>, d: int, e: int, x: int, y: int)
    requires Reach(a, b, d, x, y) && d <= e
    ensures Reach(a, b, e, x, y)
    decreases x + y
  {
    if x > 0 && Reach(a, b, d - 1, x - 1, y) {
      ReachMore(a, b, d - 1, e - 1, x - 1, y);
    } else if y > 0 && Reach(a, b, d - 1, x, y - 1) {
      ReachMore(a, b, d - 1, e - 1, x, y - 1);
    } else if x > 0 && y > 0 {
      ReachMore(a, b, d, e, x - 1, y - 1);
    }
  }

  /** Every reachable point is reached by some exact number of edits, on a diagonal of that round. */
  lemma {:induction false} ReachExactly<T>(a: seq<T>, b: seq<T>, d: int, x: int, y: int)
    returns (e: nat, j: nat)
    requires Reach(a, b, d, x, y)
    ensures j <= e <= d && x - y == 2 * j - e && Reach(a, b, e, x, y)
    decreases x + y
  {
    if x == 0 && y == 0 {
      e, j := 0, 0;
    } else if x > 0 && Reach(a, b, d - 1, x - 1, y) {
      e, j := ReachExactly(a, b, d - 1, x - 1, y);
      e, j := e + 1, j + 1;
    } else if y > 0 && Reach(a, b, d - 1, x, y - 1) {
      e, j := ReachExactly(a, b, d - 1, x, y - 1);
      e := e + 1;
    } else {
      e, j := ReachExactly(a, b, d, x - 1, y - 1);
    }
  }

  /** A script of cost d witnesses that its end point is reachable with d edits. */
  lemma {:induction false} ScriptReaches<T>(a: seq<T>, b: seq<T>, s: seq<DiffOp<T>>)
    requires OldSide(s) <= a && NewSide(s) <= b
    ensures Reach(a, b, Cost(s), |OldSide(s)|, |NewSide(s)|)
  {
    if s != [] {
      ScriptReaches(a, b, s[..|s| - 1]);
    }
  }

  // ----- Outside the grid

  function Excess(x: int, n: int): nat {
    if x > n then x - n else 0
  }

  function Clipped(x: int, n: int): int {
    if x > n then n else x
  }

  /** A point beyond the grid costs an edit per step outside, so its projection is cheaper. */
  lemma {:induction false} Project<T>(a: seq<T>, b: seq<T>, d: int, x: int, y: int)
    requires Reach(a, b, d, x, y)
    ensures Reach(a, b, d - Excess(x, |a|) - Excess(y, |b|), Clipped(x, |a|), Clipped(y, |b|))
    decreases x + y
  {
    if x > 0 && Reach(a, b, d - 1, x - 1, y) {
      Project(a, b, d - 1, x - 1, y);
    } else if y > 0 && Reach(a, b, d - 1, x, y - 1) {
      Project(a, b, d - 1, x, y - 1);
    }
  }

  // ----- Furthest-reaching points

  /** Where the snake that starts at (x, y) ends, as an old-line number. */
  ghost function Slide<T>(a: seq<T>, b: seq<T>, x: nat, y: nat): (r: nat)
    ensures x <= r
    ensures r > x ==> r <= |a| && r - x + y <= |b|
    decreases |a| - x
  {
    if x < |a| && y < |b| && a[x] == b[y] then Slide(a, b, x + 1, y + 1) else x
  }

  /** A snake runs over matching lines, and stops only where it has to. */
  lemma {:induction false} SlideMatches<T>(a: seq<T>, b: seq<T>, x: nat, y: nat)
    requires x <= |a| && y <= |b|
    ensures var r := Slide(a, b, x, y);
            && r <= |a| && r - x + y <= |b| && a[x..r] == b[y..r - x + y]
            && !(r < |a| && r - x + y < |b| && a[r] == b[r - x + y])
    decreases |a| - x
  {
    if x < |a| && y < |b| && a[x] == b[y] {
      SlideMatches(a, b, x + 1, y + 1);
      var r := Slide(a, b, x, y);
      SliceCons(a, x, r);
      SliceCons(b, y, r - x + y);
    }
  }

  type Frontier = seq<nat>

  /** The y of the point that f stores for diagonal j. */
  function Row(f: Frontier, j: nat): int
    requires j < |f|
  {
    f[j] - (2 * j - (|f| - 1))
  }

  /** No stored point lies above the first row. */
  predicate InPlane(f: Frontier) {
    forall j :: 0 <= j < |f| ==> Row(f, j) >= 0
  }

  /** The round after frontier f enters diagonal j by an insertion, from f's own diagonal j. */
  predicate Down(f: Frontier, j: nat)
    requires 0 < |f| && j <= |f|
  {
    j == 0 || (j != |f| && f[j - 1] < f[j])
  }

  /** The diagonal of f from which the next round enters its diagonal j. */
  function Source(f: Frontier, j: nat): (i: nat)
    requires 0 < |f| && j <= |f|
    ensures i < |f| && (i == j || i == j - 1)
  {
    if Down(f, j) then j else j - 1
  }

  /** Where the round after f enters diagonal j, before its snake. */
  function Entry(f: Frontier, j: nat): (x: nat)
    requires j <= |f| && InPlane(f)
    ensures x >= 2 * j - |f|
  {
    if f == [] then 0
    else if Down(f, j) then assert Row(f, j) >= 0; f[j]
    else assert Row(f, j - 1) >= 0; f[j - 1] + 1
  }

  function EntryRow(f: Frontier, j: nat): (y: nat)
    requires j <= |f| && InPlane(f)
  {
    Entry(f, j) - (2 * j - |f|)
  }

  /** Where the round after f leaves diagonal j. */
  ghost function Reached<T>(a: seq<T>, b: seq<T>, f: Frontier, j: nat): (x: nat)
    requires j <= |f| && InPlane(f)
    ensures Entry(f, j) <= x
  {
    Slide(a, b, Entry(f, j), EntryRow(f, j))
  }

  /** The values the round after f stores for its first n diagonals. */
  ghost function AdvanceTo<T>(a: seq<T>, b: seq<T>, f: Frontier, n: nat): (g: Frontier)
    requires n <= |f| + 1 && InPlane(f)
    ensures |g| == n
  {
    if n == 0 then [] else AdvanceTo(a, b, f, n - 1) + [Reached(a, b, f, n - 1)]
  }

  lemma {:induction false} AdvanceAt<T>(a: seq<T>, b: seq<T>, f: Frontier, n: nat, j: nat)
    requires j < n <= |f| + 1 && InPlane(f)
    ensures AdvanceTo(a, b, f, n)[j] == Reached(a, b, f, j)
  {
    if j < n - 1 {
      AdvanceAt(a, b, f, n - 1, j);
    }
  }

  ghost function Advance<T>(a: seq<T>, b: seq<T>, f: Frontier): (g: Frontier)
    requires InPlane(f)
    ensures |g| == |f| + 1 && InPlane(g)
  {
    var g := AdvanceTo(a, b, f, |f| + 1);
    assert InPlane(g) by {
      forall j | 0 <= j < |g|
        ensures Row(g, j) >= 0
      {
        AdvanceAt(a, b, f, |f| + 1, j);
      }
    }
    g
  }

  /** The x values the greedy search stores in round d; the one before round 0 is empty. */
  ghost function Round<T>(a: seq<T>, b: seq<T>, d: int): (f: Frontier)
    requires d >= -1
    ensures |f| == d + 1 && InPlane(f)
  {
    if d == -1 then [] else Advance(a, b, Round(a, b, d - 1))
  }

  lemma SlideGoesOn<T>(a: seq<T>, b: seq<T>, x: nat, y: nat, at: nat)
    requires x <= at <= Slide(a, b, x, y) && at < |a| && at - x + y < |b| && a[at] == b[at - x + y]
    ensures at < Slide(a, b, x, y)
  {
    SlideMatches(a, b, x, y);
  }

  lemma {:induction false} SlideReaches<T>(a: seq<T>, b: seq<T>, d: int, x: nat, y: nat)
    requires Reach(a, b, d, x, y)
    ensures Reach(a, b, d, Slide(a, b, x, y), Slide(a, b, x, y) - x + y)
    decreases |a| - x
  {
    if x < |a| && y < |b| && a[x] == b[y] {
      SlideReaches(a, b, d, x + 1, y + 1);
    }
  }

  /** Every point of a frontier can be reached with as many edits as its round. */
  ghost predicate AllReached<T>(a: seq<T>, b: seq<T>, f: Frontier) {
    forall j :: 0 <= j < |f| ==> Reach(a, b, |f| - 1, f[j], Row(f, j))
  }

  /** (x, y) lies no further along its diagonal than the point f stores for it. */
  ghost predicate Within(f: Frontier, x: int, y: int) {
    forall j :: 0 <= j < |f| && x - y == 2 * j - (|f| - 1) ==> x <= f[j]
  }

  /** No point that so many edits can reach lies beyond the frontier on its diagonal. */
  ghost predicate NoneFurther<T>(a: seq<T>, b: seq<T>, f: Frontier) {
    forall x, y :: Reach(a, b, |f| - 1, x, y) ==> Within(f, x, y)
  }

  lemma EntryReaches<T>(a: seq<T>, b: seq<T>, f: Frontier, j: nat)
    requires j <= |f| && InPlane(f) && AllReached(a, b, f)
    ensures Reach(a, b, |f|, Entry(f, j), EntryRow(f, j))
  {
    var x := Entry(f, j);
    var y := EntryRow(f, j);
    if f != [] {
      if Down(f, j) {
        assert Reach(a, b, |f| - 1, x, y - 1);
      } else {
        assert Reach(a, b, |f| - 1, x - 1, y);
      }
    }
  }

  lemma {:induction false} ReachDiagonal<T>(a: seq<T>, b: seq<T>, d: int, x: int, y: int)
    requires Reach(a, b, d, x, y)
    ensures -d <= x - y <= d
    decreases x + y
  {
    if x > 0 && Reach(a, b, d - 1, x - 1, y) {
      ReachDiagonal(a, b, d - 1, x - 1, y);
    } else if y > 0 && Reach(a, b, d - 1, x, y - 1) {
      ReachDiagonal(a, b, d - 1, x, y - 1);
    } else if x > 0 && y > 0 {
      ReachDiagonal(a, b, d, x - 1, y - 1);
    }
  }

  /** A point entered by an edit lies no further along its diagonal than the search's entry. */
  lemma EditsEndAtEntry<T>(a: seq<T>, b: seq<T>, f: Frontier, j: nat, x: int, y: int)
    requires j <= |f| && InPlane(f) && NoneFurther(a, b, f) && x - y == 2 * j - |f|
    requires Reach(a, b, |f| - 1, x - 1, y) || Reach(a, b, |f| - 1, x, y - 1)
    ensures x <= Entry(f, j)
  {
    if Reach(a, b, |f| - 1, x - 1, y) {
      ReachDiagonal(a, b, |f| - 1, x - 1, y);
      assert Within(f, x - 1, y) && x - 1 <= f[j - 1];
    } else {
      ReachDiagonal(a, b, |f| - 1, x, y - 1);
      assert Within(f, x, y - 1) && x <= f[j];
    }
  }

  /** The greedy choice really is furthest: nothing reachable on diagonal j lies beyond it. */
  lemma {:induction false} ReachedIsFurthest<T>(a: seq<T>, b: seq<T>, f: Frontier, j: nat, x: int, y: int)
    requires j <= |f| && InPlane(f) && NoneFurther(a, b, f)
    requires Reach(a, b, |f|, x, y) && x - y == 2 * j - |f|
    ensures x <= Reached(a, b, f, j)
    decreases x
  {
    if x > Entry(f, j) {
      assert Reach(a, b, |f|, x - 1, y - 1) && x <= |a| && y <= |b| && a[x - 1] == b[y - 1] by {
        if Reach(a, b, |f| - 1, x - 1, y) || Reach(a, b, |f| - 1, x, y - 1) {
          EditsEndAtEntry(a, b, f, j, x, y);
        }
      }
      ReachedIsFurthest(a, b, f, j, x - 1, y - 1);
      SlideGoesOn(a, b, Entry(f, j), EntryRow(f, j), x - 1);
    }
  }

  lemma AdvanceIsFurthest<T>(a: seq<T>, b: seq<T>, f: Frontier)
    requires InPlane(f) && AllReached(a, b, f) && NoneFurther(a, b, f)
    ensures AllReached(a, b, Advance(a, b, f)) && NoneFurther(a, b, Advance(a, b, f))
  {
    var g := Advance(a, b, f);
    forall j | 0 <= j < |g|
      ensures Reach(a, b, |f|, g[j], Row(g, j))
    {
      AdvanceAt(a, b, f, |g|, j);
      EntryReaches(a, b, f, j);
      SlideReaches(a, b, |f|, Entry(f, j), EntryRow(f, j));
    }
    forall x: int, y: int | Reach(a, b, |f|, x, y)
      ensures Within(g, x, y)
    {
      forall j: int | 0 <= j < |g| && x - y == 2 * j - |f|
        ensures x <= g[j]
      {
        AdvanceAt(a, b, f, |g|, j);
        ReachedIsFurthest(a, b, f, j, x, y);
      }
    }
  }

  /** What round d stores is exactly the furthest-reaching point of each of its diagonals. */
  lemma {:induction false} RoundIsFurthest<T>(a: seq<T>, b: seq<T>, d: int)
    requires d >= -1
    ensures AllReached(a, b, Round(a, b, d)) && NoneFurther(a, b, Round(a, b, d))
    decreases d
  {
    if d >= 0 {
      RoundIsFurthest(a, b, d - 1);
      AdvanceIsFurthest(a, b, Round(a, b, d - 1));
    }
  }

  // ----- The exit test

  predicate Exits<T>(a: seq<T>, b: seq<T>, f: Frontier, j: nat)
    requires j < |f|
  {
    f[j] >= |a| && Row(f, j) >= |b|
  }

  /** Round d's exit test fires on diagonal j. */
  ghost predicate Hits<T>(a: seq<T>, b: seq<T>, d: nat, j: nat)
    requires j <= d
  {
    Exits(a, b, Round(a, b, d), j)
  }

  ghost predicate NoHitBefore<T>(a: seq<T>, b: seq<T>, d: nat) {
    forall e: nat, j: nat :: j <= e < d ==> !Hits(a, b, e, j)
  }

  /** A reachable corner is hit by some round that spends no more edits. */
  lemma ReachedCornerIsHit<T>(a: seq<T>, b: seq<T>, d: int) returns (e: nat, j: nat)
    requires Reach(a, b, d, |a|, |b|)
    ensures j <= e <= d && Hits(a, b, e, j)
  {
    e, j := ReachExactly(a, b, d, |a|, |b|);
    RoundIsFurthest(a, b, e);
    assert Within(Round(a, b, e), |a|, |b|) && |a| <= Round(a, b, e)[j];
  }

  /** The corner is out of reach for fewer edits than the number of rounds that did not exit. */
  lemma CornerUnreached<T>(a: seq<T>, b: seq<T>, d: nat, e: int)
    requires NoHitBefore(a, b, d) && e < d
    ensures !Reach(a, b, e, |a|, |b|)
  {
    if Reach(a, b, e, |a|, |b|) {
      var e', j := ReachedCornerIsHit(a, b, e);
    }
  }

  /** The first exit is exactly at the far corner, on its diagonal, and never beyond the grid. */
  lemma FirstHitIsCorner<T>(a: seq<T>, b: seq<T>, d: nat, j: nat)
    requires j <= d && NoHitBefore(a, b, d) && Hits(a, b, d, j)
    ensures Round(a, b, d)[j] == |a| && |a| - |b| == 2 * j - d
  {
    var x := Round(a, b, d)[j];
    RoundIsFurthest(a, b, d);
    NothingBeyond(a, b, d, x, Row(Round(a, b, d), j));
  }

  lemma NothingBeyond<T>(a: seq<T>, b: seq<T>, d: nat, x: int, y: int)
    requires NoHitBefore(a, b, d) && Reach(a, b, d, x, y) && x >= |a| && y >= |b|
    ensures x == |a| && y == |b|
  {
    Project(a, b, d, x, y);
    if x > |a| || y > |b| {
      CornerUnreached(a, b, d, d - Excess(x, |a|) - Excess(y, |b|));
    }
  }

  /** |a| + |b| edits always suffice. */
  lemma {:induction false} EverythingReached<T>(a: seq<T>, b: seq<T>, x: nat, y: nat)
    ensures Reach(a, b, x + y, x, y)
    decreases x + y
  {
    if x > 0 {
      EverythingReached(a, b, x - 1, y);
    } else if y > 0 {
      EverythingReached(a, b, x, y - 1);
    }
  }

  /** Without an exit in d rounds, no script of fewer than d edits turns a into b. */
  lemma NoHitNoScript<T(!new)>(a: seq<T>, b: seq<T>, d: nat)
    requires NoHitBefore(a, b, d)
    ensures forall s :: Turns(s, a, b) ==> Cost(s) >= d
    ensures d <= |a| + |b|
  {
    forall s: seq<DiffOp<T>> | Turns(s, a, b)
      ensures Cost(s) >= d
    {
      ScriptReaches(a, b, s);
      if Cost(s) < d {
        CornerUnreached(a, b, d, Cost(s));
      }
    }
    if d > |a| + |b| {
      EverythingReached(a, b, |a|, |b|);
      CornerUnreached(a, b, d, |a| + |b|);
    }
  }

  lemma ReachBounded<T>(a: seq<T>, b: seq<T>, d: int, x: int, y: int)
    requires Reach(a, b, d, x, y)
    ensures x <= |a| + d
  {
    Project(a, b, d, x, y);
  }

  /** A stored value exceeds the old file's length by at most the number of edits spent. */
  lemma RoundBounded<T>(a: seq<T>, b: seq<T>, d: nat, j: nat)
    requires j <= d
    ensures Round(a, b, d)[j] <= |a| + d
  {
    RoundIsFurthest(a, b, d);
    ReachBounded(a, b, d, Round(a, b, d)[j], Row(Round(a, b, d), j));
  }

  // ----- The script of a furthest-reaching point

  ghost predicate InGrid<T>(a: seq<T>, b: seq<T>, f: Frontier, j: nat)
    requires j < |f|
  {
    f[j] <= |a| && Row(f, j) <= |b|
  }

  /** The edit by which the round after f enters diagonal j. */
  ghost function Step<T>(a: seq<T>, b: seq<T>, f: Frontier, j: nat): DiffOp<T>
    requires 0 < |f| && j <= |f| && InPlane(f)
    requires Entry(f, j) <= |a| && EntryRow(f, j) <= |b|
  {
    if Down(f, j) then assert Row(f, j) >= 0; DiffOp(Insert, b[EntryRow(f, j) - 1])
    else DiffOp(Delete, a[Entry(f, j) - 1])
  }

  /** A point in the grid was entered in the grid, from a point in the grid. */
  lemma StaysInGrid<T>(a: seq<T>, b: seq<T>, f: Frontier, j: nat)
    requires j <= |f| && InPlane(f) && InGrid(a, b, Advance(a, b, f), j)
    ensures Entry(f, j) <= Reached(a, b, f, j) == Advance(a, b, f)[j] <= |a|
    ensures 0 <= EntryRow(f, j) <= |b|
    ensures 0 < |f| ==> InGrid(a, b, f, Source(f, j))
  {
    AdvanceAt(a, b, f, |f| + 1, j);
  }

  /** The script that follows the search's own choices to diagonal j of round d. */
  ghost function Walk<T>(a: seq<T>, b: seq<T>, d: nat, j: nat): seq<DiffOp<T>>
    requires j <= d && InGrid(a, b, Round(a, b, d), j)
    decreases d
  {
    var f := Round(a, b, d - 1);
    StaysInGrid(a, b, f, j);
    var toEntry := if d == 0 then [] else Walk(a, b, d - 1, Source(f, j)) + [Step(a, b, f, j)];
    toEntry + Run(Equal, a[Entry(f, j)..Reached(a, b, f, j)])
  }

  /** s is a script for the prefixes at (x, y). */
  ghost predicate Spells<T>(a: seq<T>, b: seq<T>, s: seq<DiffOp<T>>, x: int, y: int) {
    0 <= x <= |a| && 0 <= y <= |b| && Turns(s, a[..x], b[..y])
  }

  /** s is a script for the prefixes at the point f stores for diagonal j. */
  ghost predicate SpellsAt<T>(a: seq<T>, b: seq<T>, f: Frontier, j: nat, s: seq<DiffOp<T>>)
    requires j < |f|
  {
    Spells(a, b, s, f[j], Row(f, j))
  }

  ghost predicate Snake<T>(a: seq<T>, b: seq<T>, x: int, y: int, end: int) {
    0 <= x <= end <= |a| && 0 <= y && end - x + y <= |b| && a[x..end] == b[y..end - x + y]
  }

  lemma SpellsKept<T>(a: seq<T>, b: seq<T>, s: seq<DiffOp<T>>, kept: seq<T>)
    requires Turns(s, a, b)
    ensures Turns(s + Run(Equal, kept), a + kept, b + kept)
  {
    RunSides(Equal, kept);
    AppendSides(s, Run(Equal, kept));
  }

  lemma SpellsSnake<T>(a: seq<T>, b: seq<T>, s: seq<DiffOp<T>>, x: int, y: int, end: int)
    requires Spells(a, b, s, x, y) && Snake(a, b, x, y, end)
    ensures Spells(a, b, s + Run(Equal, a[x..end]), end, end - x + y)
  {
    SpellsKept(a[..x], b[..y], s, a[x..end]);
    TakeJoin(a, x, end);
    TakeJoin(b, y, end - x + y);
  }

  lemma SpellsInsert<T>(a: seq<T>, b: seq<T>, s: seq<DiffOp<T>>, x: int, y: int)
    requires Spells(a, b, s, x, y) && y < |b|
    ensures Spells(a, b, s + [DiffOp(Insert, b[y])], x, y + 1)
  {
    SidesSnoc(s, DiffOp(Insert, b[y]));
    SliceSnoc(b, 0, y);
  }

  lemma SpellsDelete<T>(a: seq<T>, b: seq<T>, s: seq<DiffOp<T>>, x: int, y: int)
    requires Spells(a, b, s, x, y) && x < |a|
    ensures Spells(a, b, s + [DiffOp(Delete, a[x])], x + 1, y)
  {
    SidesSnoc(s, DiffOp(Delete, a[x]));
    SliceSnoc(a, 0, x);
  }

  lemma WalkOn<T>(a: seq<T>, b: seq<T>, f: Frontier, j: nat, s: seq<DiffOp<T>>)
    requires 0 < |f| && j <= |f| && InPlane(f)
    requires InGrid(a, b, Advance(a, b, f), j) && Entry(f, j) <= |a| && EntryRow(f, j) <= |b|
    requires SpellsAt(a, b, f, Source(f, j), s)
    ensures SpellsAt(a, b, Advance(a, b, f), j,
                     s + [Step(a, b, f, j)] + Run(Equal, a[Entry(f, j)..Reached(a, b, f, j)]))
  {
    var x := Entry(f, j);
    var y := EntryRow(f, j);
    StaysInGrid(a, b, f, j);
    if Down(f, j) {
      SpellsInsert(a, b, s, x, y - 1);
    } else {
      SpellsDelete(a, b, s, x - 1, y);
    }
    SlideMatches(a, b, x, y);
    SpellsSnake(a, b, s + [Step(a, b, f, j)], x, y, Reached(a, b, f, j));
  }

  lemma WalkStart<T>(a: seq<T>, b: seq<T>, d: nat, j: nat)
    requires j <= d == 0 && InGrid(a, b, Round(a, b, d), j)
    ensures SpellsAt(a, b, Round(a, b, d), j, Walk(a, b, d, j))
  {
    SlideMatches(a, b, 0, 0);
    StaysInGrid(a, b, [], 0);
    SpellsSnake(a, b, [], 0, 0, Reached(a, b, [], 0));
  }

  lemma WalkFurther<T>(a: seq<T>, b: seq<T>, d: nat, j: nat)
    requires 0 < d && j <= d && InGrid(a, b, Round(a, b, d), j)
    requires var f := Round(a, b, d - 1);
             InGrid(a, b, f, Source(f, j)) && SpellsAt(a, b, f, Source(f, j), Walk(a, b, d - 1, Source(f, j)))
    ensures SpellsAt(a, b, Round(a, b, d), j, Walk(a, b, d, j))
  {
    var f := Round(a, b, d - 1);
    StaysInGrid(a, b, f, j);
    WalkOn(a, b, f, j, Walk(a, b, d - 1, Source(f, j)));
  }

  lemma SourceInGrid<T>(a: seq<T>, b: seq<T>, d: nat, j: nat) returns (i: nat)
    requires 0 < d && j <= d && InGrid(a, b, Round(a, b, d), j)
    ensures i < d && i == Source(Round(a, b, d - 1), j) && InGrid(a, b, Round(a, b, d - 1), i)
  {
    i := Source(Round(a, b, d - 1), j);
    StaysInGrid(a, b, Round(a, b, d - 1), j);
  }

  /** The walk to a point is a script for the prefixes there. */
  lemma {:induction false} WalkSpells<T>(a: seq<T>, b: seq<T>, d: nat, j: nat)
    requires j <= d && InGrid(a, b, Round(a, b, d), j)
    ensures SpellsAt(a, b, Round(a, b, d), j, Walk(a, b, d, j))
    decreases d
  {
    if d == 0 {
      WalkStart(a, b, d, j);
    } else {
      var i := SourceInGrid(a, b, d, j);
      WalkSpells(a, b, d - 1, i);
      WalkFurther(a, b, d, j);
    }
  }

  lemma CostOn<T>(s: seq<DiffOp<T>>, step: DiffOp<T>, snake: seq<DiffOp<T>>)
    ensures Cost(s + [step] + snake) == Cost(s) + (if step.kind == Equal then 0 else 1) + Cost(snake)
  {
    StepSides(step);
    AppendCost(s, [step]);
    AppendCost(s + [step], snake);
  }

  /** One more round is one more edit. */
  lemma WalkCostsMore<T>(a: seq<T>, b: seq<T>, d: nat, j: nat, i: nat)
    requires 0 < d && j <= d && InGrid(a, b, Round(a, b, d), j) && i == Source(Round(a, b, d - 1), j)
    requires InGrid(a, b, Round(a, b, d - 1), i)
    ensures Cost(Walk(a, b, d, j)) == Cost(Walk(a, b, d - 1, i)) + 1
  {
    var f := Round(a, b, d - 1);
    StaysInGrid(a, b, f, j);
    var kept := a[Entry(f, j)..Reached(a, b, f, j)];
    RunSides(Equal, kept);
    CostOn(Walk(a, b, d - 1, i), Step(a, b, f, j), Run(Equal, kept));
  }

  lemma WalkStartCosts<T>(a: seq<T>, b: seq<T>, d: nat, j: nat)
    requires j <= d == 0 && InGrid(a, b, Round(a, b, d), j)
    ensures Cost(Walk(a, b, d, j)) == 0
  {
    StaysInGrid(a, b, [], 0);
    var kept := a[0..Reached(a, b, [], 0)];
    RunSides(Equal, kept);
    AppendCost([], Run(Equal, kept));
  }

  /** The walk to a point of round d makes exactly d edits. */
  lemma {:induction false} WalkCosts<T>(a: seq<T>, b: seq<T>, d: nat, j: nat)
    requires j <= d && InGrid(a, b, Round(a, b, d), j)
    ensures Cost(Walk(a, b, d, j)) == d
    decreases d
  {
    if d == 0 {
      WalkStartCosts(a, b, d, j);
    } else {
      var i := SourceInGrid(a, b, d, j);
      WalkCosts(a, b, d - 1, i);
      WalkCostsMore(a, b, d, j, i);
    }
  }
}
