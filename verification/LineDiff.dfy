/**
 * The line diff as an algorithm: the forward search overwrites one array of furthest-reaching
 * points and keeps a snapshot of it per round; the walk back reads those snapshots.
 * Every method computes the script that LineScript defines and EditOrder describes.
 */
module LineDiff {
  import opened EditScript
  import opened EditGraph
  import opened LineScript
  import opened EditOrder

  /** The array slot of diagonal j when the frontier has `size` diagonals. */
  function Slot(size: nat, j: int): int {
    OFFSET + 2 * j - size + 1
  }

  /** v holds frontier f; before round 0 it holds the one value that round reads. */
  ghost predicate Stores(v: seq<int>, f: Frontier) {
    && |v| == WIDTH && |f| <= MAX_EDIT_DISTANCE + 1
    && (f == [] ==> v[OFFSET + 1] == 0)
    && forall j :: 0 <= j < |f| ==> v[Slot(|f|, j)] == f[j]
  }

  // ----- The forward search

  method FollowSnake<T(==)>(a: seq<T>, b: seq<T>, x0: nat, y0: nat) returns (x: nat)
    ensures x == Slide(a, b, x0, y0)
  {
    x := x0;
    var y := y0;
    while x < |a| && y < |b| && a[x] == b[y]
      invariant y == y0 + x - x0 && x >= x0
      invariant Slide(a, b, x, y) == Slide(a, b, x0, y0)
      decreases |a| - x
    {
      x, y := x + 1, y + 1;
    }
  }

  /** Mid-round: all of f is still in place, and g's first j values are stored beside it. */
  ghost predicate Interleaved(v: seq<int>, f: Frontier, g: Frontier, j: nat) {
    && |v| == WIDTH && |g| == |f| + 1 <= MAX_EDIT_DISTANCE + 1 && j <= |g|
    && (f == [] && j == 0 ==> v[OFFSET + 1] == 0)
    && (forall i :: 0 <= i < |f| ==> v[Slot(|f|, i)] == f[i])
    && (forall i :: 0 <= i < j ==> v[Slot(|g|, i)] == g[i])
  }

  lemma StoreNext(v: seq<int>, f: Frontier, g: Frontier, j: nat)
    requires Interleaved(v, f, g, j) && j < |g|
    ensures Interleaved(v[Slot(|g|, j) := g[j]], f, g, j + 1)
  {
  }

  /** Where round d enters the diagonal k, read off the two neighbouring slots. */
  method EnterDiagonal(v: array<int>, d: nat, k: int, ghost f: Frontier, ghost g: Frontier, ghost j: nat)
    returns (x: nat)
    requires |f| == d && j <= d && k == 2 * j - d && InPlane(f) && Interleaved(v[..], f, g, j)
    ensures x == Entry(f, j)
  {
    assert j < d ==> v[OFFSET + k + 1] == v[Slot(d, j)] == f[j];
    assert 0 < j ==> v[OFFSET + k - 1] == v[Slot(d, j - 1)] == f[j - 1];
    if k == 0 - d || (k != d && v[OFFSET + k - 1] < v[OFFSET + k + 1]) {
      x := v[OFFSET + k + 1];
    } else {
      x := v[OFFSET + k - 1] + 1;
    }
  }

  /** Overwrites the slot of diagonal k with its new value. */
  method StoreDiagonal(v: array<int>, k: int, x: nat, ghost f: Frontier, ghost g: Frontier, ghost j: nat)
    requires Interleaved(v[..], f, g, j) && j < |g| && k == 2 * j - |f| && x == g[j]
    modifies v
    ensures Interleaved(v[..], f, g, j + 1)
  {
    StoreNext(v[..], f, g, j);
    ghost var before := v[..];
    v[OFFSET + k] := x;
    assert v[..] == before[Slot(|g|, j) := x];
  }

  /** One diagonal of a round: its entry, its snake, its new value, and the exit test. */
  method RunDiagonal<T(==)>(a: seq<T>, b: seq<T>, v: array<int>, d: nat, k: int, ghost f: Frontier, ghost j: nat)
    returns (exits: bool)
    requires |f| == d && j <= d && k == 2 * j - d && InPlane(f) && Interleaved(v[..], f, Advance(a, b, f), j)
    modifies v
    ensures Interleaved(v[..], f, Advance(a, b, f), j + 1)
    ensures exits == Exits(a, b, Advance(a, b, f), j)
  {
    ghost var g := Advance(a, b, f);
    AdvanceAt(a, b, f, d + 1, j);
    var x := EnterDiagonal(v, d, k, f, g, j);
    x := FollowSnake(a, b, x, x - k);
    StoreDiagonal(v, k, x, f, g, j);
    exits := x >= |a| && x - k >= |b|;
  }

  /** One round: every diagonal's new value, from the neighbours the last round left in place. */
  method RunRound<T(==)>(a: seq<T>, b: seq<T>, d: nat, v: array<int>) returns (solved: bool)
    requires d <= MAX_EDIT_DISTANCE && Stores(v[..], Round(a, b, d - 1))
    modifies v
    ensures solved <==> exists j: nat :: j <= d && Hits(a, b, d, j)
    ensures !solved ==> Stores(v[..], Round(a, b, d))
  {
    ghost var f := Round(a, b, d - 1);
    ghost var g := Advance(a, b, f);
    ghost var j := 0;
    var k := 0 - d;
    while k <= d
      invariant 0 <= j <= d + 1 && k == 2 * j - d
      invariant Interleaved(v[..], f, g, j)
      invariant forall i: nat :: i < j ==> !Exits(a, b, g, i)
    {
      var exits := RunDiagonal(a, b, v, d, k, f, j);
      if exits {
        assert Hits(a, b, d, j);
        return true;
      }
      j := j + 1;
      k := k + 2;
    }
    return false;
  }

  /** Snapshot e is the array as round e found it: holding the frontier of round e - 1. */
  ghost predicate Snapshots<T>(a: seq<T>, b: seq<T>, trace: seq<seq<int>>) {
    forall e :: 0 <= e < |trace| ==> Stores(trace[e], Round(a, b, e - 1))
  }

  lemma PushSnapshot<T>(a: seq<T>, b: seq<T>, trace: seq<seq<int>>, v: seq<int>)
    requires Snapshots(a, b, trace) && Stores(v, Round(a, b, |trace| - 1))
    ensures Snapshots(a, b, trace + [v])
  {
  }

  lemma SearchGoesOn<T>(a: seq<T>, b: seq<T>, d: nat, limit: nat)
    requires d <= limit
    ensures SolvedRound(a, b, d, limit)
         == if exists j: nat :: j <= d && Hits(a, b, d, j) then d else SolvedRound(a, b, d + 1, limit)
  {
  }

  method StartArray<T>(ghost a: seq<T>, ghost b: seq<T>) returns (v: array<int>)
    ensures fresh(v) && v.Length == WIDTH && Stores(v[..], Round(a, b, -1))
  {
    v := new int[WIDTH](_ => 0);
    v[OFFSET + 1] := 0;
  }

  method Search<T(==)>(a: seq<T>, b: seq<T>) returns (solvedAt: int, trace: seq<seq<int>>)
    ensures solvedAt == SolvedRound(a, b, 0, Limit(a, b))
    ensures Snapshots(a, b, trace) && solvedAt < |trace|
  {
    var limit := Limit(a, b);
    var v := StartArray(a, b);
    trace, solvedAt := [], -1;
    var d: int := 0;
    while d <= limit
      invariant 0 <= d <= limit + 1 && |trace| == d && v.Length == WIDTH && fresh(v)
      invariant Snapshots(a, b, trace)
      invariant d <= limit ==> Stores(v[..], Round(a, b, d - 1))
      invariant SolvedRound(a, b, d, limit) == SolvedRound(a, b, 0, limit)
    {
      PushSnapshot(a, b, trace, v[..]);
      trace := trace + [v[..]];
      SearchGoesOn(a, b, d, limit);
      var solved := RunRound(a, b, d, v);
      if solved {
        solvedAt := d;
        break;
      }
      d := d + 1;
    }
  }

  // ----- The walk back

  lemma PushReversed<T>(ops: seq<DiffOp<T>>, op: DiffOp<T>)
    ensures Reverse(ops + [op]) == [op] + Reverse(ops)
  {
    ReverseSnoc(ops, op);
  }

  lemma {:induction false} RunCons<T>(kind: Kind, line: T, lines: seq<T>)
    ensures Run(kind, [line] + lines) == [DiffOp(kind, line)] + Run(kind, lines)
  {
    if lines == [] {
      assert [line] + lines == [line] && [line][..0] == [];
    } else {
      var init := lines[..|lines| - 1];
      RunCons(kind, line, init);
      assert ([line] + lines)[..|lines|] == [line] + init;
    }
  }

  lemma PushKept<T>(a: seq<T>, ops0: seq<DiffOp<T>>, ops: seq<DiffOp<T>>, x: nat, x0: nat)
    requires 0 < x <= x0 <= |a| && Reverse(ops) == Run(Equal, a[x..x0]) + Reverse(ops0)
    ensures Reverse(ops + [DiffOp(Equal, a[x - 1])]) == Run(Equal, a[x - 1..x0]) + Reverse(ops0)
  {
    var op, kept := DiffOp(Equal, a[x - 1]), a[x..x0];
    PushReversed(ops, op);
    RunCons(Equal, a[x - 1], kept);
    SliceCons(a, x - 1, x0);
    Associate([op], Run(Equal, kept), Reverse(ops0));
  }

  /** Walks back along a diagonal to the point an edit left, emitting its kept lines last to first. */
  method BackAlongSnake<T>(a: seq<T>, ops0: seq<DiffOp<T>>, x0: nat, y0: nat, prevX: nat, prevY: nat)
    returns (ops: seq<DiffOp<T>>, x: nat, y: nat)
    requires prevX <= x0 <= |a| && prevY <= y0
    ensures x0 - y0 == x - y && prevX <= x <= x0 && prevY <= y && (x == prevX || y == prevY)
    ensures Reverse(ops) == Run(Equal, a[x..x0]) + Reverse(ops0)
  {
    ops, x, y := ops0, x0, y0;
    while x > prevX && y > prevY
      invariant x0 - y0 == x - y && prevX <= x <= x0 && prevY <= y
      invariant Reverse(ops) == Run(Equal, a[x..x0]) + Reverse(ops0)
    {
      PushKept(a, ops0, ops, x, x0);
      ops := ops + [DiffOp(Equal, a[x - 1])];
      x, y := x - 1, y - 1;
    }
  }

  /** Where the snake of diagonal j in round d ends up when followed back, and the edit before it. */
  lemma StepBack<T>(a: seq<T>, b: seq<T>, d: nat, j: nat)
    requires 0 < d && j <= d && InGrid(a, b, Round(a, b, d), j)
    ensures var f := Round(a, b, d - 1);
            var i, x, y := Source(f, j), Entry(f, j), EntryRow(f, j);
            && InGrid(a, b, f, i) && 0 <= Row(f, i) && x <= Round(a, b, d)[j] <= |a| && 0 <= y <= |b|
            && (if Down(f, j) then x == f[i] && y == Row(f, i) + 1 && Step(a, b, f, j) == DiffOp(Insert, b[y - 1])
                else x == f[i] + 1 && y == Row(f, i) && Step(a, b, f, j) == DiffOp(Delete, a[x - 1]))
            && Walk(a, b, d, j) == Walk(a, b, d - 1, i) + [Step(a, b, f, j)] + Run(Equal, a[x..Round(a, b, d)[j]])
  {
    var f := Round(a, b, d - 1);
    StaysInGrid(a, b, f, j);
    assert Row(f, Source(f, j)) >= 0;
  }

  /** The parts of the walk to diagonal j of round d: the walk before it, its edit, and where its snake starts. */
  lemma StepParts<T>(a: seq<T>, b: seq<T>, d: nat, j: nat, x0: nat, y0: nat)
    returns (whole: seq<DiffOp<T>>, walk: seq<DiffOp<T>>, entry: nat, step: DiffOp<T>)
    requires 0 < d && j <= d && InGrid(a, b, Round(a, b, d), j)
    requires x0 == Round(a, b, d)[j] && y0 == Row(Round(a, b, d), j)
    ensures var f := Round(a, b, d - 1);
            var i := Source(f, j);
            && InGrid(a, b, f, i) && Row(f, i) >= 0 && y0 <= |b| && walk == Walk(a, b, d - 1, i)
            && (if Down(f, j) then entry == f[i] && Row(f, i) < |b| && step == DiffOp(Insert, b[Row(f, i)])
                else entry == f[i] + 1 && f[i] < |a| && step == DiffOp(Delete, a[f[i]]))
    ensures entry <= x0 <= |a| && whole == Walk(a, b, d, j) == walk + [step] + Run(Equal, a[entry..x0])
  {
    StepBack(a, b, d, j);
    var f := Round(a, b, d - 1);
    whole, walk := Walk(a, b, d, j), Walk(a, b, d - 1, Source(f, j));
    entry, step := Entry(f, j), Step(a, b, f, j);
  }

  /** The point round d - 1 stored from which round d entered diagonal k. */
  method PreviousPoint(vd: seq<int>, d: nat, k: int, ghost f: Frontier, ghost j: nat)
    returns (prevX: nat, prevY: int)
    requires 0 < d == |f| && j <= d && k == 2 * j - d && InPlane(f) && Stores(vd, f)
    ensures prevX == f[Source(f, j)] && prevY == Row(f, Source(f, j))
  {
    assert j < d ==> vd[OFFSET + k + 1] == vd[Slot(d, j)] == f[j];
    assert 0 < j ==> vd[OFFSET + k - 1] == vd[Slot(d, j - 1)] == f[j - 1];
    var prevK;
    if k == 0 - d || (k != d && vd[OFFSET + k - 1] < vd[OFFSET + k + 1]) {
      prevK := k + 1;
    } else {
      prevK := k - 1;
    }
    prevX := vd[OFFSET + prevK];
    prevY := prevX - prevK;
  }

  lemma PushStep<T>(walk: seq<DiffOp<T>>, step: DiffOp<T>, kept: seq<DiffOp<T>>, ops0: seq<DiffOp<T>>,
          ops: seq<DiffOp<T>>)
    requires Reverse(ops) == kept + Reverse(ops0)
    ensures (walk + [step] + kept) + Reverse(ops0) == walk + Reverse(ops + [step])
  {
    PushReversed(ops, step);
    Associate(walk + [step], kept, Reverse(ops0));
    Associate(walk, [step], Reverse(ops));
  }

  /** Back along a snake and over the edit before it, extending the reversed script. */
  method BackOverEdit<T>(a: seq<T>, b: seq<T>, ops0: seq<DiffOp<T>>, x0: nat, y0: nat, prevX: nat, prevY: nat,
                         ghost down: bool, ghost walk: seq<DiffOp<T>>)
    returns (ops: seq<DiffOp<T>>, ghost entry: nat, ghost step: DiffOp<T>)
    requires x0 <= |a| && y0 <= |b| && (if down then prevX <= x0 && prevY < y0 else prevX < x0 && prevY <= y0)
    requires x0 - y0 == if down then prevX - prevY - 1 else prevX + 1 - prevY
    ensures entry == if down then prevX else prevX + 1
    ensures entry <= x0 && step == if down then DiffOp(Insert, b[prevY]) else DiffOp(Delete, a[prevX])
    ensures walk + [step] + Run(Equal, a[entry..x0]) + Reverse(ops0) == walk + Reverse(ops)
  {
    var x: nat, y: nat;
    ops, x, y := BackAlongSnake(a, ops0, x0, y0, prevX, prevY);
    entry := x;
    var op: DiffOp<T>;
    if x == prevX {
      op := DiffOp(Insert, b[y - 1]);
    } else {
      op := DiffOp(Delete, a[x - 1]);
    }
    step := op;
    PushStep(walk, op, Run(Equal, a[x..x0]), ops0, ops);
    ops := ops + [op];
  }

  /** The point round d came from, and how it lies before the point reached. */
  lemma StepPoint<T>(a: seq<T>, b: seq<T>, d: nat, j: nat, x0: nat, y0: nat)
    returns (down: bool, px: nat, py: nat)
    requires 0 < d && j <= d && InGrid(a, b, Round(a, b, d), j)
    requires x0 == Round(a, b, d)[j] && y0 == Row(Round(a, b, d), j)
    ensures var f := Round(a, b, d - 1); down == Down(f, j) && px == f[Source(f, j)] && py == Row(f, Source(f, j))
    ensures x0 <= |a| && y0 <= |b| && if down then px <= x0 && py < y0 else px < x0 && py <= y0
    ensures x0 - y0 == if down then px - py - 1 else px + 1 - py
  {
    var whole, walk, entry, step := StepParts(a, b, d, j, x0, y0);
    var f := Round(a, b, d - 1);
    down, px, py := Down(f, j), f[Source(f, j)], Row(f, Source(f, j));
  }

  /** One level of the walk back: the last snake of round d, and the edit before it. */
  method BackOneRound<T>(a: seq<T>, b: seq<T>, vd: seq<int>, ops0: seq<DiffOp<T>>, d: nat, x0: nat, y0: nat,
          ghost j: nat)
    returns (ops: seq<DiffOp<T>>, x: nat, y: nat)
    requires 0 < d && j <= d && InGrid(a, b, Round(a, b, d), j) && Stores(vd, Round(a, b, d - 1))
    requires x0 == Round(a, b, d)[j] && y0 == Row(Round(a, b, d), j)
    ensures var f := Round(a, b, d - 1);
            var i := Source(f, j);
            && InGrid(a, b, f, i) && x == f[i] && y == Row(f, i)
            && Walk(a, b, d, j) + Reverse(ops0) == Walk(a, b, d - 1, i) + Reverse(ops)
  {
    ghost var f := Round(a, b, d - 1);
    ghost var i := Source(f, j);
    ghost var whole, walk, entry, step := StepParts(a, b, d, j, x0, y0);
    ghost var down, px, py := StepPoint(a, b, d, j, x0, y0);
    x, y := PreviousPoint(vd, d, x0 - y0, f, j);
    assert x == px && y == py && px == f[i] && py == Row(f, i);
    ghost var entry1, step1;
    ops, entry1, step1 := BackOverEdit(a, b, ops0, x0, y0, x, y, down, walk);
    assert entry1 == entry && step1 == step;
    assert whole + Reverse(ops0) == walk + Reverse(ops);
  }

  /** The walk back over the snapshots rebuilds the walk forward. */
  method WalkBack<T>(a: seq<T>, b: seq<T>, solvedAt: nat, trace: seq<seq<int>>) returns (ops: seq<DiffOp<T>>)
    requires Snapshots(a, b, trace) && solvedAt < |trace|
    requires AtCorner(a, b, solvedAt, CornerDiagonal(a, b, solvedAt))
    ensures ops == Walk(a, b, solvedAt, CornerDiagonal(a, b, solvedAt))
  {
    ghost var whole := Walk(a, b, solvedAt, CornerDiagonal(a, b, solvedAt));
    var x: nat, y: nat;
    ops, x, y := BackOverRounds(a, b, solvedAt, trace);
    ops := BackFirstSnake(a, b, ops, x, y);
    ops := Reverse(ops);
  }

  /** From the far corner to where round 0 ended. */
  method BackOverRounds<T>(a: seq<T>, b: seq<T>, solvedAt: nat, trace: seq<seq<int>>)
    returns (ops: seq<DiffOp<T>>, x: nat, y: nat)
    requires Snapshots(a, b, trace) && solvedAt < |trace|
    requires AtCorner(a, b, solvedAt, CornerDiagonal(a, b, solvedAt))
    ensures InGrid(a, b, Round(a, b, 0), 0) && x == Round(a, b, 0)[0] && y == Row(Round(a, b, 0), 0)
    ensures Walk(a, b, solvedAt, CornerDiagonal(a, b, solvedAt)) == Walk(a, b, 0, 0) + Reverse(ops)
  {
    ghost var j: nat := CornerDiagonal(a, b, solvedAt);
    ghost var whole := Walk(a, b, solvedAt, j);
    x, y, ops := |a|, |b|, [];
    var d: nat := solvedAt;
    while d > 0
      invariant d <= solvedAt && j <= d && InGrid(a, b, Round(a, b, d), j)
      invariant x == Round(a, b, d)[j] && y == Row(Round(a, b, d), j)
      invariant whole == Walk(a, b, d, j) + Reverse(ops)
    {
      ops, x, y := BackOneRound(a, b, trace[d], ops, d, x, y, j);
      j := Source(Round(a, b, d - 1), j);
      d := d - 1;
    }
  }

  /** The snake of round 0, from the origin. */
  method BackFirstSnake<T>(a: seq<T>, b: seq<T>, ops0: seq<DiffOp<T>>, x0: nat, y0: nat)
    returns (ops: seq<DiffOp<T>>)
    requires InGrid(a, b, Round(a, b, 0), 0) && x0 == Round(a, b, 0)[0] && y0 == Row(Round(a, b, 0), 0)
    ensures Reverse(ops) == Walk(a, b, 0, 0) + Reverse(ops0)
  {
    StaysInGrid(a, b, [], 0);
    var x, y;
    ops, x, y := BackAlongSnake(a, ops0, x0, y0, 0, 0);
    assert Walk(a, b, 0, 0) == Run(Equal, a[0..x0]);
  }

  // ----- The whole diff

  method SharesAnyLine<T(==,!new)>(a: seq<T>, b: seq<T>) returns (shares: bool)
    ensures shares == SharesAny(a, b)
  {
    var inB := set line | line in b;
    shares := false;
    for i := 0 to |a|
      invariant !shares && forall line :: line in a[..i] ==> line !in b
    {
      if a[i] in inB {
        return true;
      }
    }
  }

  /** The middle of the two files, between their shared head and tail. */
  method MyersMiddle<T(==,!new)>(a: seq<T>, b: seq<T>) returns (ops: seq<DiffOp<T>>)
    ensures ops == MiddleScript(a, b)
    ensures Verdict(ops, a, b) && DeletionsFirst(ops)
  {
    MiddleVerdict(a, b);
    MiddleInOrder(a, b);
    if |a| == 0 {
      return Run(Insert, b);
    }
    if |b| == 0 {
      return Run(Delete, a);
    }
    var sharesAny := SharesAnyLine(a, b);
    if !sharesAny {
      return Run(Delete, a) + Run(Insert, b);
    }
    var solvedAt, trace := Search(a, b);
    if solvedAt < 0 {
      return Run(Delete, a) + Run(Insert, b);
    }
    SolvedRoundAtCorner(a, b, 0, Limit(a, b));
    ops := WalkBack(a, b, solvedAt, trace);
  }

  method TrimSharedTail<T(==)>(a: seq<T>, b: seq<T>, head: nat) returns (tailA: nat, tailB: nat)
    requires head <= |a| && head <= |b|
    ensures head <= tailA <= |a| && head <= tailB <= |b|
    ensures |a| - tailA == |b| - tailB == SharedTail(a, b, head, |a|, |b|)
  {
    tailA, tailB := |a|, |b|;
    while tailA > head && tailB > head && a[tailA - 1] == b[tailB - 1]
      invariant head <= tailA <= |a| && head <= tailB <= |b| && |a| - tailA == |b| - tailB
      invariant SharedTail(a, b, head, |a|, |b|) == |a| - tailA + SharedTail(a, b, head, tailA, tailB)
    {
      tailA, tailB := tailA - 1, tailB - 1;
    }
  }

  lemma AroundMiddle<T(!new)>(a: seq<T>, b: seq<T>, head: nat, tailA: nat, tailB: nat, middle: seq<DiffOp<T>>)
    requires head <= tailA <= |a| && head <= tailB <= |b|
    requires middle == MiddleScript(a[head..tailA], b[head..tailB])
    ensures ScriptAround(a, b, head, tailA, tailB) == Wrapped(a[..head], middle, a[tailA..])
  {
  }

  /** The diff of two keyed files. */
  method DiffLines<T(==,!new)>(a: seq<T>, b: seq<T>) returns (ops: seq<DiffOp<T>>)
    ensures ops == Script(a, b)
    ensures Verdict(ops, a, b) && DeletionsFirst(ops)
  {
    ScriptVerdict(a, b);
    DeletionsComeFirst(a, b);
    var head := FollowSnake(a, b, 0, 0);
    SharedHeadMatches(a, b, head);
    var tailA, tailB := TrimSharedTail(a, b, head);
    var middle := MyersMiddle(a[head..tailA], b[head..tailB]);
    assert tailA == MiddleEnd(a, b, |a|) && tailB == MiddleEnd(a, b, |b|);
    AroundMiddle(a, b, head, tailA, tailB, middle);
    ops := Run(Equal, a[..head]) + middle + Run(Equal, a[tailA..]);
  }
}
