/**
 * The script the line diff chooses, as a function of two keyed files: prefix and suffix trim, the
 * short cuts, and the greedy walk. It is sound for all files and minimal within the edit budget.
 */
module LineScript {
  import opened EditScript
  import opened EditGraph

  const MAX_EDIT_DISTANCE: nat := 1000
  const OFFSET: nat := MAX_EDIT_DISTANCE + 1
  const WIDTH: nat := 2 * MAX_EDIT_DISTANCE + 3

  // ----- The script, as a function of the two files

  function Limit<T>(a: seq<T>, b: seq<T>): nat {
    if |a| + |b| < MAX_EDIT_DISTANCE then |a| + |b| else MAX_EDIT_DISTANCE
  }

  /** The first round from d on whose exit test fires, or -1 when none does within the limit. */
  ghost function SolvedRound<T>(a: seq<T>, b: seq<T>, d: nat, limit: nat): (r: int)
    requires d <= limit + 1
    ensures r == -1 || d <= r <= limit
    decreases limit + 1 - d
  {
    if d > limit then -1
    else if exists j: nat :: j <= d && Hits(a, b, d, j) then d
    else SolvedRound(a, b, d + 1, limit)
  }

  function CornerDiagonal<T>(a: seq<T>, b: seq<T>, d: nat): int {
    (d + |a| - |b|) / 2
  }

  /** Diagonal j of round d ends at the far corner. */
  ghost predicate AtCorner<T>(a: seq<T>, b: seq<T>, d: nat, j: int) {
    && 0 <= j <= d && 2 * j - d == |a| - |b|
    && Round(a, b, d)[j] == |a| && Row(Round(a, b, d), j) == |b|
  }

  lemma HitAtCorner<T>(a: seq<T>, b: seq<T>, d: nat, j: nat)
    requires NoHitBefore(a, b, d) && j <= d && Hits(a, b, d, j)
    ensures CornerDiagonal(a, b, d) == j && AtCorner(a, b, d, j)
  {
    FirstHitIsCorner(a, b, d, j);
  }

  lemma {:induction false} SolvedRoundAtCorner<T>(a: seq<T>, b: seq<T>, d: nat, limit: nat)
    requires d <= limit + 1 && NoHitBefore(a, b, d)
    ensures var r := SolvedRound(a, b, d, limit);
            if r == -1 then NoHitBefore(a, b, limit + 1)
            else NoHitBefore(a, b, r) && AtCorner(a, b, r, CornerDiagonal(a, b, r))
    decreases limit + 1 - d
  {
    if d <= limit {
      if j: nat :| j <= d && Hits(a, b, d, j) {
        HitAtCorner(a, b, d, j);
      } else {
        SolvedRoundAtCorner(a, b, d + 1, limit);
      }
    }
  }

  ghost function MiddleScript<T(!new)>(a: seq<T>, b: seq<T>): seq<DiffOp<T>> {
    if a == [] then Run(Insert, b)
    else if b == [] then Run(Delete, a)
    else if !SharesAny(a, b) then Rewrite(a, b)
    else
      var d := SolvedRound(a, b, 0, Limit(a, b));
      if d == -1 then Rewrite(a, b)
      else
        SolvedRoundAtCorner(a, b, 0, Limit(a, b));
        Walk(a, b, d, CornerDiagonal(a, b, d))
  }

  /** How many lines end both a[..x] and b[..y] without reaching into the first `head`. */
  function SharedTail<T(==)>(a: seq<T>, b: seq<T>, head: nat, x: nat, y: nat): (t: nat)
    requires head <= x <= |a| && head <= y <= |b|
    ensures head + t <= x && head + t <= y
  {
    if x > head && y > head && a[x - 1] == b[y - 1] then 1 + SharedTail(a, b, head, x - 1, y - 1) else 0
  }

  /** The script around a middle that starts at `head` and ends at tailA in a and tailB in b. */
  ghost function ScriptAround<T(!new)>(a: seq<T>, b: seq<T>, head: nat, tailA: nat, tailB: nat): seq<DiffOp<T>>
    requires head <= tailA <= |a| && head <= tailB <= |b|
  {
    Wrapped(a[..head], MiddleScript(a[head..tailA], b[head..tailB]), a[tailA..])
  }

  /** How far into the first file, or the second one, the part reaches that is left between head and tail. */
  ghost function MiddleEnd<T>(a: seq<T>, b: seq<T>, size: nat): (end: nat)
    requires size == |a| || size == |b|
    ensures Slide(a, b, 0, 0) <= end <= size
  {
    size - SharedTail(a, b, Slide(a, b, 0, 0), |a|, |b|)
  }

  /** The script diffLines returns for two keyed files. */
  ghost function Script<T(!new)>(a: seq<T>, b: seq<T>): seq<DiffOp<T>> {
    ScriptAround(a, b, Slide(a, b, 0, 0), MiddleEnd(a, b, |a|), MiddleEnd(a, b, |b|))
  }

  // ----- It is sound, and minimal within the budget

  lemma WalkToCorner<T>(a: seq<T>, b: seq<T>, d: nat, j: nat)
    requires AtCorner(a, b, d, j)
    ensures Turns(Walk(a, b, d, j), a, b) && Cost(Walk(a, b, d, j)) == d
  {
    WalkSpells(a, b, d, j);
    WalkCosts(a, b, d, j);
    assert a[..|a|] == a && b[..|b|] == b;
  }

  ghost predicate Verdict<T(!new)>(ops: seq<DiffOp<T>>, a: seq<T>, b: seq<T>) {
    Turns(ops, a, b) && (Minimal(ops, a, b) || Beyond(MAX_EDIT_DISTANCE, a, b))
  }

  lemma OneSided<T(!new)>(kind: Kind, lines: seq<T>)
    requires kind != Equal
    ensures kind == Insert ==> Minimal(Run(kind, lines), [], lines)
    ensures kind == Delete ==> Minimal(Run(kind, lines), lines, [])
  {
    RunSides(kind, lines);
    if kind == Insert {
      RewriteMinimal([], lines);
      RewriteTurns([], lines);
    } else {
      RewriteMinimal(lines, []);
      RewriteTurns(lines, []);
    }
  }

  /** The middle script is minimal, unless no script keeps within the budget. */
  lemma MiddleVerdict<T(!new)>(a: seq<T>, b: seq<T>)
    ensures Verdict(MiddleScript(a, b), a, b)
  {
    if a == [] {
      OneSided(Insert, b);
    } else if b == [] {
      OneSided(Delete, a);
    } else if !SharesAny(a, b) {
      RewriteMinimal(a, b);
    } else {
      var d := SolvedRound(a, b, 0, Limit(a, b));
      SolvedRoundAtCorner(a, b, 0, Limit(a, b));
      if d == -1 {
        RewriteTurns(a, b);
        NoHitNoScript(a, b, Limit(a, b) + 1);
      } else {
        WalkToCorner(a, b, d, CornerDiagonal(a, b, d));
        NoHitNoScript(a, b, d);
      }
    }
  }

  lemma {:induction false} SharedTailMatches<T>(a: seq<T>, b: seq<T>, head: nat, x: nat, y: nat)
    requires head <= x <= |a| && head <= y <= |b|
    ensures var t := SharedTail(a, b, head, x, y); a[x - t..x] == b[y - t..y]
  {
    if x > head && y > head && a[x - 1] == b[y - 1] {
      SharedTailMatches(a, b, head, x - 1, y - 1);
      var t := SharedTail(a, b, head, x - 1, y - 1);
      SliceSnoc(a, x - 1 - t, x - 1);
      SliceSnoc(b, y - 1 - t, y - 1);
    }
  }

  lemma CutInThree<T>(s: seq<T>, i: nat, j: nat)
    requires i <= j <= |s|
    ensures s == s[..i] + s[i..j] + s[j..]
  {
  }

  lemma SharedHeadMatches<T>(a: seq<T>, b: seq<T>, h: nat)
    requires h == Slide(a, b, 0, 0)
    ensures h <= |a| && h <= |b| && a[..h] == b[..h]
  {
    SlideMatches(a, b, 0, 0);
    assert a[0..h] == a[..h] && b[0..h] == b[..h];
  }

  lemma SharedTailOfWhole<T>(a: seq<T>, b: seq<T>, h: nat, t: nat)
    requires h <= |a| && h <= |b| && t == SharedTail(a, b, h, |a|, |b|)
    ensures a[|a| - t..] == b[|b| - t..]
  {
    SharedTailMatches(a, b, h, |a|, |b|);
    assert a[|a| - t..] == a[|a| - t..|a|];
    assert b[|b| - t..] == b[|b| - t..|b|];
  }

  /** The parts the trim cuts both files into. */
  lemma TrimParts<T>(a: seq<T>, b: seq<T>, h: nat, t: nat)
    requires h == Slide(a, b, 0, 0) && h <= |a| && h <= |b| && t == SharedTail(a, b, h, |a|, |b|)
    ensures a == a[..h] + a[h..|a| - t] + a[|a| - t..]
    ensures b == a[..h] + b[h..|b| - t] + a[|a| - t..]
  {
    CutInThree(a, h, |a| - t);
    CutInThree(b, h, |b| - t);
    SharedHeadMatches(a, b, h);
    SharedTailOfWhole(a, b, h, t);
  }

  /**
   * For every pair of files the script turns the old one into the new one, with the fewest edits
   * of any script that does, unless every one of them exceeds the budget.
   */
  lemma ScriptVerdict<T(!new)>(a: seq<T>, b: seq<T>)
    ensures Verdict(Script(a, b), a, b)
  {
    SlideMatches(a, b, 0, 0);
    var h := Slide(a, b, 0, 0);
    var t := SharedTail(a, b, h, |a|, |b|);
    var midA, midB := a[h..|a| - t], b[h..|b| - t];
    TrimParts(a, b, h, t);
    MiddleVerdict(midA, midB);
    WrappedTurns(a[..h], MiddleScript(midA, midB), a[|a| - t..], midA, midB);
    if Minimal(MiddleScript(midA, midB), midA, midB) {
      WrappedMinimal(a[..h], MiddleScript(midA, midB), a[|a| - t..], midA, midB);
    } else {
      WrappedBeyond(MAX_EDIT_DISTANCE, a[..h], a[|a| - t..], midA, midB);
    }
  }
}
