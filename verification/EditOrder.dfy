/** Which of the shortest scripts the diff chooses: the order of its edits, and where it puts them. */
module EditOrder {
  import opened EditScript
  import opened EditGraph
  import opened LineScript

  // ----- Deletions before insertions

  /** Lines that are replaced are first deleted and then inserted. */
  predicate DeletionsFirst<T>(ops: seq<DiffOp<T>>) {
    forall i :: 0 < i < |ops| && ops[i].kind == Delete ==> ops[i - 1].kind != Insert
  }

  /** The script does not end in an insertion. */
  predicate NoInsertLast<T>(ops: seq<DiffOp<T>>) {
    ops != [] ==> ops[|ops| - 1].kind != Insert
  }

  lemma JoinInOrder<T>(s: seq<DiffOp<T>>, t: seq<DiffOp<T>>)
    requires DeletionsFirst(s) && DeletionsFirst(t)
    requires t != [] && t[0].kind == Delete ==> NoInsertLast(s)
    ensures DeletionsFirst(s + t)
  {
  }

  lemma {:induction false} RunKinds<T>(kind: Kind, lines: seq<T>)
    ensures forall i :: 0 <= i < |lines| ==> Run(kind, lines)[i] == DiffOp(kind, lines[i])
    decreases |lines|
  {
    if lines != [] {
      RunKinds(kind, lines[..|lines| - 1]);
    }
  }

  lemma RunInOrder<T>(kind: Kind, lines: seq<T>)
    ensures DeletionsFirst(Run(kind, lines))
  {
    RunKinds(kind, lines);
  }

  lemma RewriteInOrder<T>(a: seq<T>, b: seq<T>)
    ensures DeletionsFirst(Rewrite(a, b))
  {
    RunKinds(Delete, a);
    RunKinds(Insert, b);
    JoinInOrder(Run(Delete, a), Run(Insert, b));
  }

  lemma RoundAt<T>(a: seq<T>, b: seq<T>, d: nat, i: nat) returns (f: Frontier, g: Frontier)
    requires 0 < d && i <= d
    ensures f == Round(a, b, d - 1) && g == Round(a, b, d) && |f| == d && |g| == d + 1 && InPlane(f)
    ensures g[i] == Reached(a, b, f, i) >= Entry(f, i)
  {
    f, g := Round(a, b, d - 1), Round(a, b, d);
    AdvanceAt(a, b, f, d + 1, i);
  }

  /** A round comes further on the diagonal above than the one before it came on this one. */
  lemma EntersBeyond(f: Frontier, i: nat)
    requires InPlane(f) && i < |f|
    ensures Entry(f, i + 1) > f[i]
  {
  }

  /** An insertion that leads to no shared line is not followed by a deletion: the next round comes by an insertion. */
  lemma DownAgain<T>(a: seq<T>, b: seq<T>, d: nat, i: nat)
    requires 0 < d && i < d
    requires Down(Round(a, b, d - 1), i) && Reached(a, b, Round(a, b, d - 1), i) == Entry(Round(a, b, d - 1), i)
    ensures Down(Round(a, b, d), i + 1)
  {
    var f, g := RoundAt(a, b, d, i);
    var f1, g1 := RoundAt(a, b, d, i + 1);
    EntersBeyond(f, i);
    assert g[i] == f[i] < g[i + 1];
  }

  /** How the walk to diagonal j of round d ends: in an insertion only if it found no shared line behind it. */
  ghost predicate EndsIn<T>(a: seq<T>, b: seq<T>, d: nat, j: nat, ops: seq<DiffOp<T>>)
    requires j <= d
  {
    NoInsertLast(ops) ||
    (j < d && Down(Round(a, b, d - 1), j) && Reached(a, b, Round(a, b, d - 1), j) == Entry(Round(a, b, d - 1), j))
  }

  lemma StepInOrder<T>(a: seq<T>, b: seq<T>, d: nat, j: nat, i: nat, before: seq<DiffOp<T>>)
    requires 0 < d && j <= d && i == Source(Round(a, b, d - 1), j) && InGrid(a, b, Round(a, b, d), j)
    requires DeletionsFirst(before) && EndsIn(a, b, d - 1, i, before)
    ensures Entry(Round(a, b, d - 1), j) <= |a| && EntryRow(Round(a, b, d - 1), j) <= |b|
    ensures DeletionsFirst(before + [Step(a, b, Round(a, b, d - 1), j)])
  {
    var f := Round(a, b, d - 1);
    StaysInGrid(a, b, f, j);
    if !Down(f, j) && !NoInsertLast(before) {
      DownAgain(a, b, d - 1, i);
      assert false;
    }
    JoinInOrder(before, [Step(a, b, f, j)]);
  }

  lemma WalkParts<T>(a: seq<T>, b: seq<T>, d: nat, j: nat, i: nat)
    returns (before: seq<DiffOp<T>>, step: DiffOp<T>, kept: seq<T>)
    requires 0 < d && j <= d && InGrid(a, b, Round(a, b, d), j) && i == Source(Round(a, b, d - 1), j)
    requires InGrid(a, b, Round(a, b, d - 1), i)
    ensures Entry(Round(a, b, d - 1), j) <= |a| && EntryRow(Round(a, b, d - 1), j) <= |b|
    ensures before == Walk(a, b, d - 1, i) && step == Step(a, b, Round(a, b, d - 1), j)
    ensures |kept| == Reached(a, b, Round(a, b, d - 1), j) - Entry(Round(a, b, d - 1), j)
    ensures Walk(a, b, d, j) == before + [step] + Run(Equal, kept)
  {
    var f := Round(a, b, d - 1);
    StaysInGrid(a, b, f, j);
    before, step := Walk(a, b, d - 1, i), Step(a, b, f, j);
    kept := a[Entry(f, j)..Reached(a, b, f, j)];
  }

  lemma KeptInOrder<T>(s: seq<DiffOp<T>>, kept: seq<T>)
    requires DeletionsFirst(s)
    ensures DeletionsFirst(s + Run(Equal, kept))
    ensures kept != [] ==> NoInsertLast(s + Run(Equal, kept))
  {
    RunKinds(Equal, kept);
    JoinInOrder(s, Run(Equal, kept));
  }

  lemma FirstWalkInOrder<T>(a: seq<T>, b: seq<T>)
    requires InGrid(a, b, Round(a, b, 0), 0)
    ensures DeletionsFirst(Walk(a, b, 0, 0)) && NoInsertLast(Walk(a, b, 0, 0))
  {
    StaysInGrid(a, b, [], 0);
    var kept := a[0..Reached(a, b, [], 0)];
    RunInOrder(Equal, kept);
    RunKinds(Equal, kept);
    assert Walk(a, b, 0, 0) == [] + Run(Equal, kept);
  }

  lemma LaterWalkInOrder<T>(a: seq<T>, b: seq<T>, d: nat, j: nat, i: nat)
    requires 0 < d && j <= d && i == Source(Round(a, b, d - 1), j) && InGrid(a, b, Round(a, b, d), j)
    requires InGrid(a, b, Round(a, b, d - 1), i)
    requires DeletionsFirst(Walk(a, b, d - 1, i)) && EndsIn(a, b, d - 1, i, Walk(a, b, d - 1, i))
    ensures DeletionsFirst(Walk(a, b, d, j)) && EndsIn(a, b, d, j, Walk(a, b, d, j))
  {
    var before, step, kept := WalkParts(a, b, d, j, i);
    StepInOrder(a, b, d, j, i, before);
    KeptInOrder(before + [step], kept);
    if kept == [] {
      assert before + [step] + Run(Equal, kept) == before + [step];
    }
  }

  lemma {:induction false} WalkInOrder<T>(a: seq<T>, b: seq<T>, d: nat, j: nat)
    requires j <= d && InGrid(a, b, Round(a, b, d), j)
    ensures DeletionsFirst(Walk(a, b, d, j)) && EndsIn(a, b, d, j, Walk(a, b, d, j))
    decreases d
  {
    if d == 0 {
      FirstWalkInOrder(a, b);
    } else {
      var i := SourceInGrid(a, b, d, j);
      WalkInOrder(a, b, d - 1, i);
      LaterWalkInOrder(a, b, d, j, i);
    }
  }

  lemma MiddleInOrder<T(!new)>(a: seq<T>, b: seq<T>)
    ensures DeletionsFirst(MiddleScript(a, b))
  {
    RunInOrder(Insert, b);
    RunInOrder(Delete, a);
    RewriteInOrder(a, b);
    if a != [] && b != [] && SharesAny(a, b) {
      var d := SolvedRound(a, b, 0, Limit(a, b));
      SolvedRoundAtCorner(a, b, 0, Limit(a, b));
      if d != -1 {
        WalkInOrder(a, b, d, CornerDiagonal(a, b, d));
      }
    }
  }

  lemma AroundInOrder<T>(head: seq<T>, mid: seq<DiffOp<T>>, tail: seq<T>)
    requires DeletionsFirst(mid)
    ensures DeletionsFirst(Wrapped(head, mid, tail))
  {
    RunKinds(Equal, head);
    RunInOrder(Equal, head);
    JoinInOrder(Run(Equal, head), mid);
    KeptInOrder(Run(Equal, head) + mid, tail);
  }

  /** For every pair of files no insertion is directly followed by a deletion. */
  lemma DeletionsComeFirst<T(!new)>(a: seq<T>, b: seq<T>)
    ensures DeletionsFirst(Script(a, b))
  {
    var h := Slide(a, b, 0, 0);
    SlideMatches(a, b, 0, 0);
    var tailA, tailB := MiddleEnd(a, b, |a|), MiddleEnd(a, b, |b|);
    MiddleInOrder(a[h..tailA], b[h..tailB]);
    AroundInOrder(a[..h], MiddleScript(a[h..tailA], b[h..tailB]), a[tailA..]);
  }

  // ----- Shared ends are kept

  lemma {:induction false} SlideLongest<T>(a: seq<T>, b: seq<T>, x: nat, n: nat)
    requires x <= n <= |a| && n <= |b| && a[x..n] == b[x..n]
    ensures n <= Slide(a, b, x, x)
    decreases n - x
  {
    if x < n {
      var restA, restB := a[x..n], b[x..n];
      assert restA[0] == a[x] && restB[0] == b[x];
      assert restA[1..] == a[x + 1..n] && restB[1..] == b[x + 1..n];
      SlideLongest(a, b, x + 1, n);
    }
  }

  lemma LastOfSlice<T>(s: seq<T>, i: nat, j: nat)
    requires i < j <= |s|
    ensures s[i..j][..j - 1 - i] == s[i..j - 1] && s[i..j][j - 1 - i] == s[j - 1]
  {
  }

  lemma {:induction false} TailLongest<T>(a: seq<T>, b: seq<T>, head: nat, x: nat, y: nat, t: nat)
    requires head + t <= x <= |a| && head + t <= y <= |b| && a[x - t..x] == b[y - t..y]
    ensures t <= SharedTail(a, b, head, x, y)
    decreases t
  {
    if t > 0 {
      LastOfSlice(a, x - t, x);
      LastOfSlice(b, y - t, y);
      TailLongest(a, b, head, x - 1, y - 1, t - 1);
    }
  }

  lemma WrappedEnds<T>(head: seq<T>, mid: seq<DiffOp<T>>, tail: seq<T>, i: nat)
    ensures i < |head| ==> Wrapped(head, mid, tail)[i] == DiffOp(Equal, head[i])
    ensures i < |tail| ==>
      Wrapped(head, mid, tail)[|Wrapped(head, mid, tail)| - 1 - i] == DiffOp(Equal, tail[|tail| - 1 - i])
  {
    RunKinds(Equal, head);
    RunKinds(Equal, tail);
  }

  lemma MatchAt<T>(a: seq<T>, b: seq<T>, h: nat, n: nat)
    requires n < h <= |a| && h <= |b| && a[0..h] == b[0..h]
    ensures a[n] == b[n]
  {
    assert a[0..h][n] == a[n] && b[0..h][n] == b[n];
  }

  lemma SharedHead<T>(a: seq<T>, b: seq<T>, n: nat)
    requires n <= |a| && n <= |b| && a[..n] == b[..n] && (n < |a| && n < |b| ==> a[n] != b[n])
    ensures Slide(a, b, 0, 0) == n
  {
    SlideMatches(a, b, 0, 0);
    assert a[0..n] == a[..n] && b[0..n] == b[..n];
    SlideLongest(a, b, 0, n);
    if n < Slide(a, b, 0, 0) {
      MatchAt(a, b, Slide(a, b, 0, 0), n);
    }
  }

  lemma ToTheEnd<T>(s: seq<T>, i: nat)
    requires i <= |s|
    ensures s[i..|s|] == s[i..]
  {
  }

  lemma SharedEnd<T>(a: seq<T>, b: seq<T>, n: nat, t: nat)
    requires n == Slide(a, b, 0, 0) && n + t <= |a| && n + t <= |b| && a[|a| - t..] == b[|b| - t..]
    ensures t <= SharedTail(a, b, n, |a|, |b|)
  {
    ToTheEnd(a, |a| - t);
    ToTheEnd(b, |b| - t);
    TailLongest(a, b, n, |a|, |b|, t);
  }

  lemma ScriptParts<T(!new)>(a: seq<T>, b: seq<T>, n: nat, t: nat)
    returns (mid: seq<DiffOp<T>>, tail: seq<T>)
    requires n == Slide(a, b, 0, 0) && n <= |a| && n <= |b| && t <= SharedTail(a, b, n, |a|, |b|)
    ensures Script(a, b) == Wrapped(a[..n], mid, tail) && t <= |tail| <= |a| && tail == a[|a| - |tail|..]
  {
    var tailA, tailB := MiddleEnd(a, b, |a|), MiddleEnd(a, b, |b|);
    mid, tail := MiddleScript(a[n..tailA], b[n..tailB]), a[tailA..];
  }

  lemma EndsKeptIn<T>(script: seq<DiffOp<T>>, a: seq<T>, n: nat, mid: seq<DiffOp<T>>, tail: seq<T>, i: nat)
    requires n <= |a| && |tail| <= |a| && tail == a[|a| - |tail|..] && script == Wrapped(a[..n], mid, tail)
    ensures n + |tail| <= |script|
    ensures i < n ==> script[i] == DiffOp(Equal, a[i])
    ensures i < |tail| ==> script[|script| - 1 - i] == DiffOp(Equal, a[|a| - 1 - i])
  {
    WrappedEnds(a[..n], mid, tail, i);
    assert i < |tail| ==> tail[|tail| - 1 - i] == a[|a| - 1 - i];
  }

  /**
   * Lines that both files begin with are kept at the beginning of the script, all of them; and so are the
   * lines that both end with at its end, as far as they lie behind the longest shared beginning.
   */
  lemma SharedEndsKept<T(!new)>(a: seq<T>, b: seq<T>, n: nat, t: nat, i: nat)
    requires n <= |a| && n <= |b| && a[..n] == b[..n] && (n < |a| && n < |b| ==> a[n] != b[n])
    requires n + t <= |a| && n + t <= |b| && a[|a| - t..] == b[|b| - t..]
    ensures n + t <= |Script(a, b)|
    ensures i < n ==> Script(a, b)[i] == DiffOp(Equal, a[i])
    ensures i < t ==> Script(a, b)[|Script(a, b)| - 1 - i] == DiffOp(Equal, a[|a| - 1 - i])
  {
    SharedHead(a, b, n);
    SharedEnd(a, b, n, t);
    var mid, tail := ScriptParts(a, b, n, t);
    EndsKeptIn(Script(a, b), a, n, mid, tail, i);
  }

  // ----- Edits as late as possible

  lemma FirstWalkKeeps<T>(a: seq<T>, b: seq<T>, n: nat)
    requires InGrid(a, b, Round(a, b, 0), 0) && n < |Walk(a, b, 0, 0)|
    ensures Walk(a, b, 0, 0)[n].kind == Equal
  {
    StaysInGrid(a, b, [], 0);
    RunKinds(Equal, a[0..Reached(a, b, [], 0)]);
    assert Walk(a, b, 0, 0) == [] + Run(Equal, a[0..Reached(a, b, [], 0)]);
  }

  /** What the walk spells before its c-th edit and after its last one is itself a walk. */
  lemma {:induction false} CutIsWalk<T>(a: seq<T>, b: seq<T>, d: nat, j: nat, n: nat) returns (c: nat, i: nat)
    requires j <= d && InGrid(a, b, Round(a, b, d), j)
    requires n <= |Walk(a, b, d, j)| && (n < |Walk(a, b, d, j)| ==> Walk(a, b, d, j)[n].kind != Equal)
    ensures i <= c <= d && InGrid(a, b, Round(a, b, c), i) && Walk(a, b, d, j)[..n] == Walk(a, b, c, i)
    decreases d
  {
    var walk := Walk(a, b, d, j);
    if n == |walk| {
      assert walk[..n] == walk;
      c, i := d, j;
    } else if d == 0 {
      FirstWalkKeeps(a, b, n);
    } else {
      var source := SourceInGrid(a, b, d, j);
      var before, step, kept := WalkParts(a, b, d, j, source);
      CutInBefore(before, step, kept, n);
      c, i := CutIsWalk(a, b, d - 1, source, n);
    }
  }

  lemma CutInBefore<T>(before: seq<DiffOp<T>>, step: DiffOp<T>, kept: seq<T>, n: nat)
    requires n < |before + [step] + Run(Equal, kept)| && (before + [step] + Run(Equal, kept))[n].kind != Equal
    ensures n <= |before| && (before + [step] + Run(Equal, kept))[..n] == before[..n]
    ensures n < |before| ==> (before + [step] + Run(Equal, kept))[n] == before[n]
  {
    RunKinds(Equal, kept);
  }

  lemma NoneGetsFurther<T>(a: seq<T>, b: seq<T>, c: nat, i: nat, s: seq<DiffOp<T>>)
    requires i <= c && Cost(s) <= c && OldSide(s) <= a && NewSide(s) <= b
    requires |OldSide(s)| - |NewSide(s)| == 2 * i - c
    ensures |OldSide(s)| <= Round(a, b, c)[i]
  {
    RoundIsFurthest(a, b, c);
    ScriptReaches(a, b, s);
    ReachMore(a, b, Cost(s), c, |OldSide(s)|, |NewSide(s)|);
    assert EditGraph.Within(Round(a, b, c), |OldSide(s)|, |NewSide(s)|);
  }

  lemma WalkedTo<T>(a: seq<T>, b: seq<T>, c: nat, i: nat, walked: seq<DiffOp<T>>)
    requires i <= c && InGrid(a, b, Round(a, b, c), i) && walked == Walk(a, b, c, i)
    ensures Cost(walked) == c && |OldSide(walked)| == Round(a, b, c)[i]
    ensures |OldSide(walked)| - |NewSide(walked)| == 2 * i - c
  {
    WalkSpells(a, b, c, i);
    WalkCosts(a, b, c, i);
  }

  /**
   * Each edit comes only where no other script with as few edits can get any further on the same diagonal:
   * before every edit of the walk, and at its end, it has passed as many lines as can be.
   */
  lemma EditsComeLate<T>(a: seq<T>, b: seq<T>, d: nat, j: nat, n: nat, s: seq<DiffOp<T>>)
    requires j <= d && InGrid(a, b, Round(a, b, d), j)
    requires n <= |Walk(a, b, d, j)| && (n < |Walk(a, b, d, j)| ==> Walk(a, b, d, j)[n].kind != Equal)
    requires var walked := Walk(a, b, d, j)[..n];
             && Cost(s) <= Cost(walked) && OldSide(s) <= a && NewSide(s) <= b
             && |OldSide(s)| - |NewSide(s)| == |OldSide(walked)| - |NewSide(walked)|
    ensures |OldSide(s)| <= |OldSide(Walk(a, b, d, j)[..n])|
  {
    var c, i := CutIsWalk(a, b, d, j, n);
    WalkedTo(a, b, c, i, Walk(a, b, d, j)[..n]);
    NoneGetsFurther(a, b, c, i, s);
  }
}
