/** Edit scripts over keyed lines, and what it means for one to be valid and minimal. */
module EditScript {

  datatype Kind = Equal | Insert | Delete

  datatype DiffOp<T> = DiffOp(kind: Kind, line: T)

  // ----- The two files a script relates

  /** The old file as the script spells it: its kept and deleted lines. */
  ghost function OldSide<T>(ops: seq<DiffOp<T>>): seq<T> {
    if ops == [] then []
    else
      var op := ops[|ops| - 1];
      OldSide(ops[..|ops| - 1]) + (if op.kind == Insert then [] else [op.line])
  }

  /** The new file as the script spells it: its kept and inserted lines. */
  ghost function NewSide<T>(ops: seq<DiffOp<T>>): seq<T> {
    if ops == [] then []
    else
      var op := ops[|ops| - 1];
      NewSide(ops[..|ops| - 1]) + (if op.kind == Delete then [] else [op.line])
  }

  ghost predicate Turns<T>(ops: seq<DiffOp<T>>, a: seq<T>, b: seq<T>) {
    OldSide(ops) == a && NewSide(ops) == b
  }

  /** The number of single-line edits. */
  ghost function Cost<T>(ops: seq<DiffOp<T>>): nat {
    if ops == [] then 0
    else Cost(ops[..|ops| - 1]) + (if ops[|ops| - 1].kind == Equal then 0 else 1)
  }

  ghost predicate Minimal<T(!new)>(ops: seq<DiffOp<T>>, a: seq<T>, b: seq<T>) {
    Turns(ops, a, b) && forall s :: Turns(s, a, b) ==> Cost(ops) <= Cost(s)
  }

  /** No script within the budget turns a into b. */
  ghost predicate Beyond<T(!new)>(budget: nat, a: seq<T>, b: seq<T>) {
    forall s :: Turns(s, a, b) ==> Cost(s) > budget
  }

  lemma SidesSnoc<T>(s: seq<DiffOp<T>>, op: DiffOp<T>)
    ensures OldSide(s + [op]) == if op.kind == Insert then OldSide(s) else OldSide(s) + [op.line]
    ensures NewSide(s + [op]) == if op.kind == Delete then NewSide(s) else NewSide(s) + [op.line]
    ensures Cost(s + [op]) == Cost(s) + (if op.kind == Equal then 0 else 1)
  {
    assert (s + [op])[..|s|] == s;
  }

  // ----- Runs of one kind

  function Run<T>(kind: Kind, lines: seq<T>): (ops: seq<DiffOp<T>>)
    ensures |ops| == |lines|
  {
    if lines == [] then []
    else Run(kind, lines[..|lines| - 1]) + [DiffOp(kind, lines[|lines| - 1])]
  }

  lemma LastSplit<T>(s: seq<T>)
    requires s != []
    ensures s[..|s| - 1] + [s[|s| - 1]] == s
  {
  }

  lemma {:induction false} RunSides<T>(kind: Kind, lines: seq<T>)
    ensures OldSide(Run(kind, lines)) == if kind == Insert then [] else lines
    ensures NewSide(Run(kind, lines)) == if kind == Delete then [] else lines
    ensures Cost(Run(kind, lines)) == if kind == Equal then 0 else |lines|
  {
    if lines != [] {
      var init := lines[..|lines| - 1];
      RunSides(kind, init);
      SidesSnoc(Run(kind, init), DiffOp(kind, lines[|lines| - 1]));
      LastSplit(lines);
    }
  }

  // ----- Concatenation and reversal

  lemma SliceSnoc<T>(s: seq<T>, i: nat, j: nat)
    requires i <= j < |s|
    ensures s[i..j] + [s[j]] == s[i..j + 1]
  {
  }

  lemma TakeSnoc<T>(s: seq<T>, i: nat)
    requires i < |s|
    ensures s[..i] + [s[i]] == s[..i + 1]
  {
  }

  lemma SliceCons<T>(s: seq<T>, i: nat, j: nat)
    requires i < j <= |s|
    ensures [s[i]] + s[i + 1..j] == s[i..j]
  {
  }

  lemma TakeJoin<T>(s: seq<T>, i: nat, j: nat)
    requires i <= j <= |s|
    ensures s[..i] + s[i..j] == s[..j]
  {
  }

  lemma Associate<T>(a: seq<T>, b: seq<T>, c: seq<T>)
    ensures (a + b) + c == a + (b + c)
  {
  }

  lemma AppendLast<T>(s: seq<T>, t: seq<T>)
    requires t != []
    ensures s + t[..|t| - 1] + [t[|t| - 1]] == s + t
  {
  }

  lemma {:induction false} AppendSides<T>(s: seq<DiffOp<T>>, t: seq<DiffOp<T>>)
    ensures OldSide(s + t) == OldSide(s) + OldSide(t)
    ensures NewSide(s + t) == NewSide(s) + NewSide(t)
  {
    if t == [] {
      assert s + t == s;
    } else {
      var init, last := t[..|t| - 1], t[|t| - 1];
      AppendSides(s, init);
      AppendLast(s, t);
      SidesSnoc(s + init, last);
      Associate(OldSide(s), OldSide(init), [last.line]);
      Associate(NewSide(s), NewSide(init), [last.line]);
    }
  }

  lemma {:induction false} AppendCost<T>(s: seq<DiffOp<T>>, t: seq<DiffOp<T>>)
    ensures Cost(s + t) == Cost(s) + Cost(t)
  {
    if t == [] {
      assert s + t == s;
    } else {
      var init, last := t[..|t| - 1], t[|t| - 1];
      AppendCost(s, init);
      AppendLast(s, t);
      SidesSnoc(s + init, last);
    }
  }

  function Reverse<T>(s: seq<T>): seq<T> {
    if s == [] then [] else [s[|s| - 1]] + Reverse(s[..|s| - 1])
  }

  lemma ReverseSnoc<T>(s: seq<T>, x: T)
    ensures Reverse(s + [x]) == [x] + Reverse(s)
  {
    assert (s + [x])[..|s|] == s;
  }

  lemma {:induction false} ReverseAppend<T>(s: seq<T>, t: seq<T>)
    ensures Reverse(s + t) == Reverse(t) + Reverse(s)
  {
    if t == [] {
      assert s + t == s;
    } else {
      var init, last := t[..|t| - 1], t[|t| - 1];
      LastSplit(t);
      ReverseAppend(s, init);
      Associate(s, init, [last]);
      ReverseSnoc(s + init, last);
      ReverseSnoc(init, last);
      Associate([last], Reverse(init), Reverse(s));
    }
  }

  lemma ReverseOne<T>(x: T)
    ensures Reverse([x]) == [x]
  {
    assert [x][..0] == [];
  }

  lemma {:induction false} ReverseTwice<T>(s: seq<T>)
    ensures Reverse(Reverse(s)) == s
  {
    if s != [] {
      var init, last := s[..|s| - 1], s[|s| - 1];
      ReverseTwice(init);
      ReverseOne(last);
      ReverseAppend([last], Reverse(init));
      assert s == init + [last];
    }
  }

  lemma StepSides<T>(op: DiffOp<T>)
    ensures OldSide([op]) == if op.kind == Insert then [] else [op.line]
    ensures NewSide([op]) == if op.kind == Delete then [] else [op.line]
    ensures Cost([op]) == if op.kind == Equal then 0 else 1
  {
    assert [op][..0] == [];
  }

  lemma {:induction false} ReverseSides<T>(s: seq<DiffOp<T>>)
    ensures OldSide(Reverse(s)) == Reverse(OldSide(s))
    ensures NewSide(Reverse(s)) == Reverse(NewSide(s))
  {
    if s != [] {
      var init, last := s[..|s| - 1], s[|s| - 1];
      ReverseSides(init);
      StepSides(last);
      AppendSides([last], Reverse(init));
      ReverseAppend(OldSide(init), OldSide([last]));
      ReverseAppend(NewSide(init), NewSide([last]));
      ReverseOne(last.line);
    }
  }

  lemma {:induction false} ReverseCost<T>(s: seq<DiffOp<T>>)
    ensures Cost(Reverse(s)) == Cost(s)
  {
    if s != [] {
      var init, last := s[..|s| - 1], s[|s| - 1];
      ReverseCost(init);
      StepSides(last);
      AppendCost([last], Reverse(init));
    }
  }

  // ----- Dropping one line from a script, and trimming a shared end

  /** A script for a shorter new file, at the price of at most one more edit. */
  lemma {:induction false} DropLastNew<T>(s: seq<DiffOp<T>>) returns (r: seq<DiffOp<T>>)
    requires NewSide(s) != []
    ensures OldSide(r) == OldSide(s) && NewSide(r) == NewSide(s)[..|NewSide(s)| - 1]
    ensures Cost(r) <= Cost(s) + 1
  {
    var init, last := s[..|s| - 1], s[|s| - 1];
    if last.kind == Insert {
      r := init;
    } else if last.kind == Equal {
      r := init + [DiffOp(Delete, last.line)];
      assert r[..|r| - 1] == init;
    } else {
      var r0 := DropLastNew(init);
      r := r0 + [last];
      assert r[..|r| - 1] == r0;
    }
  }

  lemma {:induction false} DropLastOld<T>(s: seq<DiffOp<T>>) returns (r: seq<DiffOp<T>>)
    requires OldSide(s) != []
    ensures NewSide(r) == NewSide(s) && OldSide(r) == OldSide(s)[..|OldSide(s)| - 1]
    ensures Cost(r) <= Cost(s) + 1
  {
    var init, last := s[..|s| - 1], s[|s| - 1];
    if last.kind == Delete {
      r := init;
    } else if last.kind == Equal {
      r := init + [DiffOp(Insert, last.line)];
      assert r[..|r| - 1] == init;
    } else {
      var r0 := DropLastOld(init);
      r := r0 + [last];
      assert r[..|r| - 1] == r0;
    }
  }

  /** Keeping a shared last line is never worse than not keeping it. */
  lemma {:induction false} TrimLast<T>(s: seq<DiffOp<T>>, a: seq<T>, b: seq<T>, line: T)
    returns (r: seq<DiffOp<T>>)
    requires Turns(s, a + [line], b + [line])
    ensures Turns(r, a, b) && Cost(r) <= Cost(s)
  {
    var init, last := s[..|s| - 1], s[|s| - 1];
    assert (a + [line])[..|a|] == a && (b + [line])[..|b|] == b;
    if last.kind == Equal {
      assert OldSide(init) == OldSide(s)[..|a|];
      assert NewSide(init) == NewSide(s)[..|b|];
      r := init;
    } else if last.kind == Delete {
      assert OldSide(init) == OldSide(s)[..|a|];
      r := DropLastNew(init);
    } else {
      assert NewSide(init) == NewSide(s)[..|b|];
      r := DropLastOld(init);
    }
  }

  lemma {:induction false} TrimTail<T>(s: seq<DiffOp<T>>, a: seq<T>, b: seq<T>, tail: seq<T>)
    returns (r: seq<DiffOp<T>>)
    requires Turns(s, a + tail, b + tail)
    ensures Turns(r, a, b) && Cost(r) <= Cost(s)
    decreases |tail|
  {
    if tail == [] {
      assert a + tail == a && b + tail == b;
      r := s;
    } else {
      var init, line := tail[..|tail| - 1], tail[|tail| - 1];
      assert a + tail == (a + init) + [line] && b + tail == (b + init) + [line];
      var t := TrimLast(s, a + init, b + init, line);
      r := TrimTail(t, a, b, init);
    }
  }

  lemma {:induction false} TrimHead<T>(s: seq<DiffOp<T>>, a: seq<T>, b: seq<T>, head: seq<T>)
    returns (r: seq<DiffOp<T>>)
    requires Turns(s, head + a, head + b)
    ensures Turns(r, a, b) && Cost(r) <= Cost(s)
  {
    ReverseSides(s);
    ReverseCost(s);
    ReverseAppend(head, a);
    ReverseAppend(head, b);
    var t := TrimTail(Reverse(s), Reverse(a), Reverse(b), Reverse(head));
    ReverseSides(t);
    ReverseCost(t);
    ReverseTwice(a);
    ReverseTwice(b);
    r := Reverse(t);
  }

  /** The script for two files with a shared head and tail, around one for their middles. */
  ghost function Wrapped<T>(head: seq<T>, mid: seq<DiffOp<T>>, tail: seq<T>): seq<DiffOp<T>> {
    Run(Equal, head) + mid + Run(Equal, tail)
  }

  lemma WrappedTurns<T>(head: seq<T>, mid: seq<DiffOp<T>>, tail: seq<T>, a: seq<T>, b: seq<T>)
    requires Turns(mid, a, b)
    ensures Turns(Wrapped(head, mid, tail), head + a + tail, head + b + tail)
    ensures Cost(Wrapped(head, mid, tail)) == Cost(mid)
  {
    RunSides(Equal, head);
    RunSides(Equal, tail);
    AppendSides(Run(Equal, head), mid);
    AppendSides(Run(Equal, head) + mid, Run(Equal, tail));
    AppendCost(Run(Equal, head), mid);
    AppendCost(Run(Equal, head) + mid, Run(Equal, tail));
  }

  /** Any script for the whole files yields one for the middles that is no longer. */
  lemma Unwrap<T>(s: seq<DiffOp<T>>, head: seq<T>, tail: seq<T>, a: seq<T>, b: seq<T>)
    returns (r: seq<DiffOp<T>>)
    requires Turns(s, head + a + tail, head + b + tail)
    ensures Turns(r, a, b) && Cost(r) <= Cost(s)
  {
    var t := TrimTail(s, head + a, head + b, tail);
    r := TrimHead(t, a, b, head);
  }

  /** Trimming a shared head and tail loses neither minimality nor the budget verdict. */
  lemma WrappedMinimal<T(!new)>(head: seq<T>, mid: seq<DiffOp<T>>, tail: seq<T>, a: seq<T>, b: seq<T>)
    requires Minimal(mid, a, b)
    ensures Minimal(Wrapped(head, mid, tail), head + a + tail, head + b + tail)
  {
    WrappedTurns(head, mid, tail, a, b);
    forall s: seq<DiffOp<T>> | Turns(s, head + a + tail, head + b + tail)
      ensures Cost(mid) <= Cost(s)
    {
      var r := Unwrap(s, head, tail, a, b);
    }
  }

  lemma WrappedBeyond<T(!new)>(budget: nat, head: seq<T>, tail: seq<T>, a: seq<T>, b: seq<T>)
    requires Beyond(budget, a, b)
    ensures Beyond(budget, head + a + tail, head + b + tail)
  {
    forall s: seq<DiffOp<T>> | Turns(s, head + a + tail, head + b + tail)
      ensures Cost(s) > budget
    {
      var r := Unwrap(s, head, tail, a, b);
    }
  }

  // ----- Files that share no line

  ghost predicate SharesAny<T(!new)>(a: seq<T>, b: seq<T>) {
    exists line :: line in a && line in b
  }

  /** Every kept line is a line of both files. */
  lemma {:induction false} KeptLineIsShared<T>(s: seq<DiffOp<T>>, i: nat)
    requires i < |s| && s[i].kind == Equal
    ensures s[i].line in OldSide(s) && s[i].line in NewSide(s)
  {
    if i < |s| - 1 {
      KeptLineIsShared(s[..|s| - 1], i);
    }
  }

  lemma CopiesSnoc<T>(s: seq<T>, x: T, line: T)
    ensures multiset(s + [x])[line] == multiset(s)[line] + if x == line then 1 else 0
  {
  }

  /** A script with fewer copies of a line on its new side deletes one of them. */
  lemma {:induction false} FewerCopiesDeleted<T>(s: seq<DiffOp<T>>, line: T) returns (i: nat)
    requires multiset(OldSide(s))[line] > multiset(NewSide(s))[line]
    ensures i < |s| && s[i] == DiffOp(Delete, line)
  {
    var init, last := s[..|s| - 1], s[|s| - 1];
    if last == DiffOp(Delete, line) {
      i := |s| - 1;
    } else {
      CopiesSnoc(OldSide(init), last.line, line);
      CopiesSnoc(NewSide(init), last.line, line);
      i := FewerCopiesDeleted(init, line);
    }
  }

  /** A script that keeps nothing costs one edit per line of either file. */
  lemma {:induction false} CostWithoutKept<T>(s: seq<DiffOp<T>>)
    requires forall i :: 0 <= i < |s| ==> s[i].kind != Equal
    ensures Cost(s) == |OldSide(s)| + |NewSide(s)|
  {
    if s != [] {
      CostWithoutKept(s[..|s| - 1]);
    }
  }

  ghost function Rewrite<T>(a: seq<T>, b: seq<T>): seq<DiffOp<T>> {
    Run(Delete, a) + Run(Insert, b)
  }

  lemma RewriteTurns<T>(a: seq<T>, b: seq<T>)
    ensures Turns(Rewrite(a, b), a, b)
    ensures Cost(Rewrite(a, b)) == |a| + |b|
  {
    RunSides(Delete, a);
    RunSides(Insert, b);
    AppendSides(Run(Delete, a), Run(Insert, b));
    AppendCost(Run(Delete, a), Run(Insert, b));
  }

  /** With no line in common the whole rewrite is the shortest script. */
  lemma RewriteMinimal<T(!new)>(a: seq<T>, b: seq<T>)
    requires !SharesAny(a, b)
    ensures Minimal(Rewrite(a, b), a, b)
  {
    RewriteTurns(a, b);
    forall s: seq<DiffOp<T>> | Turns(s, a, b)
      ensures Cost(s) == |a| + |b|
    {
      forall i | 0 <= i < |s|
        ensures s[i].kind != Equal
      {
        if s[i].kind == Equal {
          KeptLineIsShared(s, i);
        }
      }
      CostWithoutKept(s);
    }
  }
}
