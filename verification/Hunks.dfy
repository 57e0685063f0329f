/** Grouping an edit script into hunks, with exact header arithmetic. */
module Hunks {
  import opened Text
  import opened LineModel
  import opened EditScript

  type Op = DiffOp<string>

  /** One line of a hunk; noNewline marks the last line of a file without a final newline. */
  datatype HunkLine = HunkLine(kind: Kind, text: string, noNewline: bool)

  datatype Hunk = Hunk(oldStart: nat, oldCount: nat, newStart: nat, newCount: nat, lines: seq<HunkLine>,
          section: string)

  // ----- Hunk lines

  function HunkLineOf(op: Op): HunkLine {
    HunkLine(op.kind, Strip(op.line), Marked(op.line))
  }

  function HunkLinesOf(ops: seq<Op>): seq<HunkLine> {
    if ops == [] then [] else HunkLinesOf(ops[..|ops| - 1]) + [HunkLineOf(ops[|ops| - 1])]
  }

  lemma {:induction false} HunkLinesLength(ops: seq<Op>)
    ensures |HunkLinesOf(ops)| == |ops|
  {
    if ops != [] {
      HunkLinesLength(ops[..|ops| - 1]);
    }
  }

  lemma {:induction false} HunkLineAt(ops: seq<Op>, i: nat)
    requires i < |ops| == |HunkLinesOf(ops)|
    ensures HunkLinesOf(ops)[i] == HunkLineOf(ops[i])
  {
    HunkLinesLength(ops[..|ops| - 1]);
    if i < |ops| - 1 {
      HunkLineAt(ops[..|ops| - 1], i);
    }
  }

  /** The keyed line a hunk line stands for. */
  function Key(line: HunkLine): string {
    line.text + (if line.noNewline then NO_NEWLINE else "")
  }

  function OldKeys(lines: seq<HunkLine>): seq<string> {
    if lines == [] then []
    else
      var last := lines[|lines| - 1];
      OldKeys(lines[..|lines| - 1]) + (if last.kind == Insert then [] else [Key(last)])
  }

  function NewKeys(lines: seq<HunkLine>): seq<string> {
    if lines == [] then []
    else
      var last := lines[|lines| - 1];
      NewKeys(lines[..|lines| - 1]) + (if last.kind == Delete then [] else [Key(last)])
  }

  lemma KeyOfHunkLine(op: Op)
    ensures Key(HunkLineOf(op)) == op.line
  {
    if Marked(op.line) {
      assert op.line == op.line[..|op.line| - |NO_NEWLINE|] + NO_NEWLINE;
    }
  }

  /** Stripping the marker into a flag loses nothing: a hunk's two sides are its script's. */
  lemma {:induction false} HunkLineSides(ops: seq<Op>)
    ensures OldKeys(HunkLinesOf(ops)) == OldSide(ops)
    ensures NewKeys(HunkLinesOf(ops)) == NewSide(ops)
  {
    if ops != [] {
      HunkLineSides(ops[..|ops| - 1]);
      KeyOfHunkLine(ops[|ops| - 1]);
      assert HunkLinesOf(ops)[..|HunkLinesOf(ops)| - 1] == HunkLinesOf(ops[..|ops| - 1]);
    }
  }

  // ----- Groups of changes

  /** The indices of the edits, in order. */
  function Changed(ops: seq<Op>): seq<nat> {
    if ops == [] then []
    else Changed(ops[..|ops| - 1]) + (if ops[|ops| - 1].kind == Equal then [] else [|ops| - 1])
  }

  /** Changes at most 2 * context kept lines apart share a group (first, last). */
  function Groups(changed: seq<nat>, context: nat): (g: seq<(nat, nat)>)
    ensures changed != [] ==> g != []
  {
    if changed == [] then []
    else
      var i := changed[|changed| - 1];
      var g := Groups(changed[..|changed| - 1], context);
      if g != [] && i - g[|g| - 1].1 - 1 <= context * 2
      then g[..|g| - 1] + [(g[|g| - 1].0, i)]
      else g + [(i, i)]
  }

  function HunkFrom(g: (nat, nat), context: nat): nat {
    if g.0 < context then 0 else g.0 - context
  }

  /** One past the last script index of the hunk. */
  function HunkTo(g: (nat, nat), context: nat, size: nat): nat {
    if g.1 + context + 1 < size then g.1 + context + 1 else size
  }

  /**
   * The header rule of POSIX.1-2017 diff, "Diff -u or -U Output Format": the first line of the
   * range, or for an empty range the line before it (0 at the start of the file).
   */
  function RangeStart(linesBefore: nat, count: nat): nat {
    if count == 0 then linesBefore else linesBefore + 1
  }

  ghost function HunkOf(ops: seq<Op>, context: nat, g: (nat, nat)): Hunk
    requires g.0 <= g.1 < |ops|
  {
    var start, end := HunkFrom(g, context), HunkTo(g, context, |ops|);
    var span := ops[start..end];
    Hunk(RangeStart(|OldSide(ops[..start])|, |OldSide(span)|), |OldSide(span)|,
         RangeStart(|NewSide(ops[..start])|, |NewSide(span)|), |NewSide(span)|,
         HunkLinesOf(span), "")
  }

  ghost predicate WithinScript(g: seq<(nat, nat)>, size: nat) {
    forall i :: 0 <= i < |g| ==> g[i].0 <= g[i].1 < size
  }

  /** The hunks of the first n groups. */
  ghost function HunksOfGroups(ops: seq<Op>, context: nat, g: seq<(nat, nat)>, n: nat): (hunks: seq<Hunk>)
    requires n <= |g| && WithinScript(g, |ops|)
    ensures |hunks| == n
  {
    if n == 0 then [] else HunksOfGroups(ops, context, g, n - 1) + [HunkOf(ops, context, g[n - 1])]
  }

  // ----- What the grouping guarantees

  ghost predicate Quiet(ops: seq<Op>, from: int, to: int)
    requires 0 <= from && to <= |ops|
  {
    forall t :: from <= t < to ==> ops[t].kind == Equal
  }

  /** Groups in order, far enough apart, with every edit inside one of them. */
  ghost predicate Separated(ops: seq<Op>, context: nat, g: seq<(nat, nat)>) {
    && WithinScript(g, |ops|)
    && (forall i :: 0 < i < |g| ==> g[i].0 - g[i - 1].1 - 1 > context * 2 && Quiet(ops, g[i - 1].1 + 1, g[i].0))
    && (g == [] ==> Quiet(ops, 0, |ops|))
    && (g != [] ==> Quiet(ops, 0, g[0].0) && Quiet(ops, g[|g| - 1].1 + 1, |ops|))
  }

  lemma MergeIntoLast(init: seq<Op>, op: Op, context: nat, g: seq<(nat, nat)>)
    requires Separated(init, context, g) && g != []
    ensures Separated(init + [op], context, g[..|g| - 1] + [(g[|g| - 1].0, |init|)])
  {
  }

  lemma OpenGroup(init: seq<Op>, op: Op, context: nat, g: seq<(nat, nat)>)
    requires Separated(init, context, g) && (g != [] ==> |init| - g[|g| - 1].1 - 1 > context * 2)
    ensures Separated(init + [op], context, g + [(|init|, |init|)])
  {
    var ops, grown := init + [op], g + [(|init|, |init|)];
    forall i | 0 < i < |grown|
      ensures grown[i].0 - grown[i - 1].1 - 1 > context * 2 && Quiet(ops, grown[i - 1].1 + 1, grown[i].0)
    {
      if i < |g| {
        assert grown[i] == g[i] && grown[i - 1] == g[i - 1];
      }
    }
  }

  lemma KeepGroups(init: seq<Op>, op: Op, context: nat, g: seq<(nat, nat)>)
    requires Separated(init, context, g) && op.kind == Equal
    ensures Separated(init + [op], context, g)
  {
  }

  lemma GroupsSnoc(changed: seq<nat>, i: nat, context: nat)
    ensures var g := Groups(changed, context);
            Groups(changed + [i], context) ==
            if g != [] && i - g[|g| - 1].1 - 1 <= context * 2
            then g[..|g| - 1] + [(g[|g| - 1].0, i)]
            else g + [(i, i)]
  {
    assert (changed + [i])[..|changed|] == changed;
  }

  lemma ChangedSnoc(init: seq<Op>, op: Op)
    ensures Changed(init + [op]) == if op.kind == Equal then Changed(init) else Changed(init) + [|init|]
  {
    assert (init + [op])[..|init|] == init;
    assert Changed(init) + [] == Changed(init);
  }

  lemma ExtendGroups(init: seq<Op>, op: Op, context: nat, g: seq<(nat, nat)>, grown: seq<(nat, nat)>)
    requires Separated(init, context, g)
    requires grown == if op.kind == Equal then g
                   else if g != [] && |init| - g[|g| - 1].1 - 1 <= context * 2
                   then g[..|g| - 1] + [(g[|g| - 1].0, |init|)]
                   else g + [(|init|, |init|)]
    ensures Separated(init + [op], context, grown)
  {
    if op.kind == Equal {
      KeepGroups(init, op, context, g);
    } else if g != [] && |init| - g[|g| - 1].1 - 1 <= context * 2 {
      MergeIntoLast(init, op, context, g);
    } else {
      OpenGroup(init, op, context, g);
    }
  }

  lemma SeparatedSnoc(init: seq<Op>, op: Op, context: nat)
    requires Separated(init, context, Groups(Changed(init), context))
    ensures Separated(init + [op], context, Groups(Changed(init + [op]), context))
  {
    var g := Groups(Changed(init), context);
    ChangedSnoc(init, op);
    if op.kind == Equal {
      KeepGroups(init, op, context, g);
    } else {
      GroupsSnoc(Changed(init), |init|, context);
      ExtendGroups(init, op, context, g, Groups(Changed(init) + [|init|], context));
    }
  }

  /** Grouping the edits of a script separates them. */
  lemma {:induction false} GroupsSeparate(ops: seq<Op>, context: nat)
    ensures Separated(ops, context, Groups(Changed(ops), context))
  {
    if ops != [] {
      LastSplit(ops);
      GroupsSeparate(ops[..|ops| - 1], context);
      SeparatedSnoc(ops[..|ops| - 1], ops[|ops| - 1], context);
    }
  }

  /** The hunks buildHunks returns for a script. */
  ghost function HunksOf(ops: seq<Op>, context: nat): seq<Hunk> {
    GroupsSeparate(ops, context);
    var g := Groups(Changed(ops), context);
    HunksOfGroups(ops, context, g, |g|)
  }

  lemma {:induction false} HunkAt(ops: seq<Op>, context: nat, g: seq<(nat, nat)>, n: nat, i: nat)
    requires WithinScript(g, |ops|) && i < n <= |g|
    ensures HunksOfGroups(ops, context, g, n)[i] == HunkOf(ops, context, g[i])
  {
    if i < n - 1 {
      HunkAt(ops, context, g, n - 1, i);
    }
  }

  // ----- What a header promises

  /** 0-based position in the old file where the hunk applies. */
  function Anchor(h: Hunk): int {
    if h.oldCount == 0 then h.oldStart else h.oldStart - 1
  }

  function NewAnchor(h: Hunk): int {
    if h.newCount == 0 then h.newStart else h.newStart - 1
  }

  lemma CutScript(ops: seq<Op>, i: nat, j: nat)
    requires i <= j <= |ops|
    ensures OldSide(ops[..j]) == OldSide(ops[..i]) + OldSide(ops[i..j])
    ensures NewSide(ops[..j]) == NewSide(ops[..i]) + NewSide(ops[i..j])
  {
    assert ops[..j] == ops[..i] + ops[i..j];
    AppendSides(ops[..i], ops[i..j]);
  }

  /** The header of h names exactly the lines its two sides span. */
  ghost predicate HeaderHolds(a: seq<string>, b: seq<string>, h: Hunk) {
    && 0 <= Anchor(h) && Anchor(h) + h.oldCount <= |a|
    && a[Anchor(h)..Anchor(h) + h.oldCount] == OldKeys(h.lines)
    && 0 <= NewAnchor(h) && NewAnchor(h) + h.newCount <= |b|
    && b[NewAnchor(h)..NewAnchor(h) + h.newCount] == NewKeys(h.lines)
  }

  lemma HunkPlace(ops: seq<Op>, context: nat, g: (nat, nat))
    requires g.0 <= g.1 < |ops|
    ensures var h, start, end := HunkOf(ops, context, g), HunkFrom(g, context), HunkTo(g, context, |ops|);
            && start < end
            && Anchor(h) == |OldSide(ops[..start])| && Anchor(h) + h.oldCount == |OldSide(ops[..end])|
            && NewAnchor(h) == |NewSide(ops[..start])| && NewAnchor(h) + h.newCount == |NewSide(ops[..end])|
  {
    CutScript(ops, HunkFrom(g, context), HunkTo(g, context, |ops|));
  }

  lemma Middle<T>(s: seq<T>, t: seq<T>, u: seq<T>)
    ensures (s + t + u)[|s|..|s| + |t|] == t
  {
  }

  lemma HunkHeaderHolds(ops: seq<Op>, context: nat, g: (nat, nat))
    requires g.0 <= g.1 < |ops|
    ensures HeaderHolds(OldSide(ops), NewSide(ops), HunkOf(ops, context, g))
  {
    var start, end := HunkFrom(g, context), HunkTo(g, context, |ops|);
    HunkPlace(ops, context, g);
    CutScript(ops, start, end);
    CutScript(ops, end, |ops|);
    assert ops[..|ops|] == ops;
    HunkLineSides(ops[start..end]);
    Middle(OldSide(ops[..start]), OldSide(ops[start..end]), OldSide(ops[end..|ops|]));
    Middle(NewSide(ops[..start]), NewSide(ops[start..end]), NewSide(ops[end..|ops|]));
  }

  /** Every hunk of a script has a true header. */
  lemma HunkHeaders(ops: seq<Op>, context: nat, i: nat)
    requires i < |HunksOf(ops, context)|
    ensures HeaderHolds(OldSide(ops), NewSide(ops), HunksOf(ops, context)[i])
  {
    GroupsSeparate(ops, context);
    var g := Groups(Changed(ops), context);
    HunkAt(ops, context, g, |g|, i);
    HunkHeaderHolds(ops, context, g[i]);
  }

  /** Between consecutive hunks at least one line of each file is left out. */
  lemma HunksApart(ops: seq<Op>, context: nat, i: nat)
    requires 0 < i < |HunksOf(ops, context)|
    ensures var g, h := HunksOf(ops, context)[i - 1], HunksOf(ops, context)[i];
            Anchor(g) + g.oldCount < Anchor(h) && NewAnchor(g) + g.newCount < NewAnchor(h)
  {
    GroupsSeparate(ops, context);
    var g := Groups(Changed(ops), context);
    HunkAt(ops, context, g, |g|, i);
    HunkAt(ops, context, g, |g|, i - 1);
    HunkPlace(ops, context, g[i]);
    HunkPlace(ops, context, g[i - 1]);
    HunkGap(ops, context, g[i - 1], g[i]);
  }

  lemma {:induction false} QuietSides(ops: seq<Op>, from: nat, to: nat)
    requires from <= to <= |ops| && Quiet(ops, from, to)
    ensures OldSide(ops[from..to]) == NewSide(ops[from..to]) && |OldSide(ops[from..to])| == to - from
  {
    if from < to {
      QuietSides(ops, from, to - 1);
      assert ops[from..to][..to - 1 - from] == ops[from..to - 1];
    }
  }

  lemma HunkGap(ops: seq<Op>, context: nat, g: (nat, nat), h: (nat, nat))
    requires g.0 <= g.1 < h.0 <= h.1 < |ops| && h.0 - g.1 - 1 > context * 2 && Quiet(ops, g.1 + 1, h.0)
    ensures HunkTo(g, context, |ops|) < HunkFrom(h, context)
    ensures |OldSide(ops[..HunkTo(g, context, |ops|)])| < |OldSide(ops[..HunkFrom(h, context)])|
    ensures |NewSide(ops[..HunkTo(g, context, |ops|)])| < |NewSide(ops[..HunkFrom(h, context)])|
  {
    var end, start := HunkTo(g, context, |ops|), HunkFrom(h, context);
    CutScript(ops, end, start);
    QuietSides(ops, end, start);
  }

  // ----- buildHunks

  /** Which lines each side has seen once op i is behind it, for the ops that side contributes. */
  ghost predicate Numbered(ops: seq<Op>, oldNo: seq<int>, newNo: seq<int>, size: nat) {
    && |oldNo| == |newNo| == |ops| && size <= |ops|
    && (forall i :: 0 <= i < size && ops[i].kind != Insert ==> oldNo[i] == |OldSide(ops[..i + 1])|)
    && (forall i :: 0 <= i < size && ops[i].kind != Delete ==> newNo[i] == |NewSide(ops[..i + 1])|)
  }

  lemma SideCounts(ops: seq<Op>, i: nat)
    requires i < |ops|
    ensures |OldSide(ops[..i + 1])| == |OldSide(ops[..i])| + (if ops[i].kind == Insert then 0 else 1)
    ensures |NewSide(ops[..i + 1])| == |NewSide(ops[..i])| + (if ops[i].kind == Delete then 0 else 1)
  {
    SidesSnoc(ops[..i], ops[i]);
    SliceSnoc(ops, 0, i);
    assert ops[0..i] == ops[..i] && ops[0..i + 1] == ops[..i + 1];
  }

  lemma NumberedNext(ops: seq<Op>, olds0: seq<int>, news0: seq<int>, olds: seq<int>, news: seq<int>, i: nat)
    requires i < |ops| && Numbered(ops, olds0, news0, i)
    requires olds == if ops[i].kind == Insert then olds0 else olds0[i := |OldSide(ops[..i + 1])|]
    requires news == if ops[i].kind == Delete then news0 else news0[i := |NewSide(ops[..i + 1])|]
    ensures Numbered(ops, olds, news, i + 1)
  {
  }

  method NumberLines(ops: seq<Op>) returns (oldNo: seq<int>, newNo: seq<int>)
    ensures Numbered(ops, oldNo, newNo, |ops|)
  {
    var olds, news := new int[|ops|], new int[|ops|];
    var oc, nc := 0, 0;
    for i := 0 to |ops|
      invariant oc == |OldSide(ops[..i])| && nc == |NewSide(ops[..i])|
      invariant Numbered(ops, olds[..], news[..], i)
    {
      SideCounts(ops, i);
      ghost var olds0, news0 := olds[..], news[..];
      if ops[i].kind != Insert {
        oc := oc + 1;
        olds[i] := oc;
      }
      if ops[i].kind != Delete {
        nc := nc + 1;
        news[i] := nc;
      }
      NumberedNext(ops, olds0, news0, olds[..], news[..], i);
    }
    assert ops[..|ops|] == ops;
    oldNo, newNo := olds[..], news[..];
  }

  method CollectChanged(ops: seq<Op>) returns (changed: seq<nat>)
    ensures changed == Changed(ops)
  {
    changed := [];
    for i := 0 to |ops|
      invariant changed == Changed(ops[..i])
    {
      ChangedSnoc(ops[..i], ops[i]);
      assert ops[..i + 1] == ops[..i] + [ops[i]];
      if ops[i].kind != Equal {
        changed := changed + [i];
      }
    }
    assert ops[..|ops|] == ops;
  }

  lemma GroupsOneMore(changed: seq<nat>, c: nat, context: nat)
    requires c < |changed|
    ensures var g := Groups(changed[..c], context);
            Groups(changed[..c + 1], context) ==
            if g != [] && changed[c] - g[|g| - 1].1 - 1 <= context * 2
            then g[..|g| - 1] + [(g[|g| - 1].0, changed[c])]
            else g + [(changed[c], changed[c])]
  {
    GroupsSnoc(changed[..c], changed[c], context);
    TakeSnoc(changed, c);
  }

  method GroupChanges(changed: seq<nat>, context: nat) returns (ranges: seq<(nat, nat)>)
    requires changed != []
    ensures ranges == Groups(changed, context)
  {
    ranges := [];
    var groupFirst, groupLast := changed[0], changed[0];
    GroupsOneMore(changed, 0, context);
    for c := 1 to |changed|
      invariant groupLast == changed[c - 1]
      invariant ranges + [(groupFirst, groupLast)] == Groups(changed[..c], context)
    {
      GroupsOneMore(changed, c, context);
      if changed[c] - groupLast - 1 <= context * 2 {
        groupLast := changed[c];
      } else {
        ranges := ranges + [(groupFirst, groupLast)];
        groupFirst, groupLast := changed[c], changed[c];
      }
    }
    ranges := ranges + [(groupFirst, groupLast)];
    assert changed[..|changed|] == changed;
  }

  /** findIndex over the ops of a hunk: the first that is not of the given kind. */
  method FirstOther(ops: seq<Op>, kind: Kind, start: nat, end: nat) returns (first: int)
    requires start <= end <= |ops|
    ensures first == -1 || 0 <= first < end - start
    ensures first == -1 ==> forall i :: start <= i < end ==> ops[i].kind == kind
    ensures first >= 0 ==>
      ops[start + first].kind != kind && forall i :: start <= i < start + first ==> ops[i].kind == kind
  {
    var i := start;
    while i < end
      invariant start <= i <= end
      invariant forall t :: start <= t < i ==> ops[t].kind == kind
    {
      if ops[i].kind != kind {
        return i - start;
      }
      i := i + 1;
    }
    return -1;
  }

  lemma {:induction false} InsertsOnly(ops: seq<Op>)
    requires forall i :: 0 <= i < |ops| ==> ops[i].kind == Insert
    ensures OldSide(ops) == []
  {
    if ops != [] {
      InsertsOnly(ops[..|ops| - 1]);
    }
  }

  lemma {:induction false} DeletesOnly(ops: seq<Op>)
    requires forall i :: 0 <= i < |ops| ==> ops[i].kind == Delete
    ensures NewSide(ops) == []
  {
    if ops != [] {
      DeletesOnly(ops[..|ops| - 1]);
    }
  }

  lemma OneKindSide(ops: seq<Op>, kind: Kind, from: nat, to: nat)
    requires from <= to <= |ops| && forall i :: from <= i < to ==> ops[i].kind == kind
    ensures kind == Insert ==> OldSide(ops[from..to]) == []
    ensures kind == Delete ==> NewSide(ops[from..to]) == []
  {
    if kind == Insert {
      InsertsOnly(ops[from..to]);
    } else if kind == Delete {
      DeletesOnly(ops[from..to]);
    }
  }

  /** A side that the hunk touches starts one past the lines before it. */
  lemma FirstOldLine(ops: seq<Op>, start: nat, first: nat)
    requires start <= first < |ops| && ops[first].kind != Insert
    requires forall i :: start <= i < first ==> ops[i].kind == Insert
    ensures |OldSide(ops[..first + 1])| == |OldSide(ops[..start])| + 1
  {
    CutScript(ops, start, first);
    OneKindSide(ops, Insert, start, first);
    SideCounts(ops, first);
  }

  lemma FirstNewLine(ops: seq<Op>, start: nat, first: nat)
    requires start <= first < |ops| && ops[first].kind != Delete
    requires forall i :: start <= i < first ==> ops[i].kind == Delete
    ensures |NewSide(ops[..first + 1])| == |NewSide(ops[..start])| + 1
  {
    CutScript(ops, start, first);
    OneKindSide(ops, Delete, start, first);
    SideCounts(ops, first);
  }

  /** The first op of a range that contributes an old line carries the range's first old line number. */
  lemma OldTouched(ops: seq<Op>, oldNo: seq<int>, newNo: seq<int>, start: nat, end: nat, stop: nat)
    requires start <= stop <= end <= |ops| && Numbered(ops, oldNo, newNo, |ops|) && |OldSide(ops[start..end])| > 0
    requires stop < end ==> ops[stop].kind != Insert
    requires forall i :: start <= i < stop ==> ops[i].kind == Insert
    ensures stop < end && oldNo[stop] == |OldSide(ops[..start])| + 1
  {
    if stop == end {
      OneKindSide(ops, Insert, start, end);
    } else {
      FirstOldLine(ops, start, stop);
    }
  }

  /** The first op of a range that contributes a new line carries the range's first new line number. */
  lemma NewTouched(ops: seq<Op>, oldNo: seq<int>, newNo: seq<int>, start: nat, end: nat, stop: nat)
    requires start <= stop <= end <= |ops| && Numbered(ops, oldNo, newNo, |ops|) && |NewSide(ops[start..end])| > 0
    requires stop < end ==> ops[stop].kind != Delete
    requires forall i :: start <= i < stop ==> ops[i].kind == Delete
    ensures stop < end && newNo[stop] == |NewSide(ops[..start])| + 1
  {
    if stop == end {
      OneKindSide(ops, Delete, start, end);
    } else {
      FirstNewLine(ops, start, stop);
    }
  }

  /** The op before a hunk is a kept line, or the hunk itself begins with one. */
  ghost predicate Framed(ops: seq<Op>, start: nat) {
    start < |ops| && (start > 0 ==> ops[start - 1].kind == Equal || ops[start].kind == Equal)
  }

  lemma GroupsFramed(ops: seq<Op>, context: nat, g: seq<(nat, nat)>, i: nat)
    requires Separated(ops, context, g) && i < |g|
    ensures Framed(ops, HunkFrom(g[i], context))
  {
    var start := HunkFrom(g[i], context);
    if start > 0 {
      assert Quiet(ops, if i == 0 then 0 else g[i - 1].1 + 1, g[i].0);
      assert context > 0 ==> ops[start].kind == Equal;
      assert context == 0 ==> ops[start - 1].kind == Equal;
    }
  }

  method CollectLines(ops: seq<Op>, start: nat, end: nat) returns (lines: seq<HunkLine>, oldCount: nat, newCount: nat)
    requires start <= end <= |ops|
    ensures lines == HunkLinesOf(ops[start..end])
    ensures oldCount == |OldSide(ops[start..end])| && newCount == |NewSide(ops[start..end])|
  {
    lines, oldCount, newCount := [], 0, 0;
    for i := start to end
      invariant lines == HunkLinesOf(ops[start..i])
      invariant oldCount == |OldSide(ops[start..i])| && newCount == |NewSide(ops[start..i])|
    {
      assert ops[start..i + 1][..i - start] == ops[start..i];
      var op := ops[i];
      var noNewline := EndsWith(op.line, NO_NEWLINE);
      lines := lines + [HunkLine(
        op.kind, if noNewline then op.line[..|op.line| - |NO_NEWLINE|] else op.line, noNewline)];
      if op.kind != Insert {
        oldCount := oldCount + 1;
      }
      if op.kind != Delete {
        newCount := newCount + 1;
      }
    }
  }

  /** The number of the first old line of the range, or of the line before an empty one. */
  method OldStart(ops: seq<Op>, oldNo: seq<int>, ghost newNo: seq<int>, start: nat, end: nat, count: nat)
    returns (r: nat)
    requires start < end <= |ops| && Framed(ops, start) && Numbered(ops, oldNo, newNo, |ops|)
    requires count == |OldSide(ops[start..end])|
    ensures r == RangeStart(|OldSide(ops[..start])|, count)
  {
    var first := FirstOther(ops, Insert, start, end);
    if count > 0 {
      OldTouched(ops, oldNo, newNo, start, end, if first == -1 then end else start + first);
      r := oldNo[start + first];
    } else {
      SideNotEmpty(ops, start, end);
      r := if start > 0 then oldNo[start - 1] else 0;
    }
  }

  method NewStart(ops: seq<Op>, ghost oldNo: seq<int>, newNo: seq<int>, start: nat, end: nat, count: nat)
    returns (r: nat)
    requires start < end <= |ops| && Framed(ops, start) && Numbered(ops, oldNo, newNo, |ops|)
    requires count == |NewSide(ops[start..end])|
    ensures r == RangeStart(|NewSide(ops[..start])|, count)
  {
    var first := FirstOther(ops, Delete, start, end);
    if count > 0 {
      NewTouched(ops, oldNo, newNo, start, end, if first == -1 then end else start + first);
      r := newNo[start + first];
    } else {
      SideNotEmpty(ops, start, end);
      r := if start > 0 then newNo[start - 1] else 0;
    }
  }

  /** A hunk that begins with a kept line is empty on neither side. */
  lemma SideNotEmpty(ops: seq<Op>, start: nat, end: nat)
    requires start < end <= |ops|
    ensures ops[start].kind == Equal ==> OldSide(ops[start..end]) != [] && NewSide(ops[start..end]) != []
  {
    if ops[start].kind == Equal {
      assert ops[start..end] == [ops[start]] + ops[start + 1..end];
      StepSides(ops[start]);
      AppendSides([ops[start]], ops[start + 1..end]);
    }
  }

  /** One hunk: its lines and counts, and the two starts read off the line numbers. */
  method EmitHunk(ops: seq<Op>, context: nat, g: (nat, nat), oldNo: seq<int>, newNo: seq<int>) returns (h: Hunk)
    requires g.0 <= g.1 < |ops| && Framed(ops, HunkFrom(g, context)) && Numbered(ops, oldNo, newNo, |ops|)
    ensures h == HunkOf(ops, context, g)
  {
    var start := if g.0 < context then 0 else g.0 - context;
    var end := if g.1 + context < |ops| - 1 then g.1 + context + 1 else |ops|;
    assert start == HunkFrom(g, context) && end == HunkTo(g, context, |ops|);
    var lines, oldCount, newCount := CollectLines(ops, start, end);
    var oldStart := OldStart(ops, oldNo, newNo, start, end, oldCount);
    var newStart := NewStart(ops, oldNo, newNo, start, end, newCount);
    h := Hunk(oldStart, oldCount, newStart, newCount, lines, "");
  }

  method EmitHunks(ops: seq<Op>, context: nat, ranges: seq<(nat, nat)>) returns (hunks: seq<Hunk>)
    requires Separated(ops, context, ranges)
    ensures hunks == HunksOfGroups(ops, context, ranges, |ranges|)
  {
    var oldNo, newNo := NumberLines(ops);
    hunks := [];
    for r := 0 to |ranges|
      invariant hunks == HunksOfGroups(ops, context, ranges, r)
    {
      GroupsFramed(ops, context, ranges, r);
      var h := EmitHunk(ops, context, ranges[r], oldNo, newNo);
      hunks := hunks + [h];
    }
  }

  /** Groups changed lines into hunks with `context` kept lines around them. */
  method BuildHunks(ops: seq<Op>, context: nat) returns (hunks: seq<Hunk>)
    ensures hunks == HunksOf(ops, context)
  {
    if |ops| == 0 {
      return [];
    }
    var changed := CollectChanged(ops);
    if |changed| == 0 {
      return [];
    }
    var ranges := GroupChanges(changed, context);
    GroupsSeparate(ops, context);
    hunks := EmitHunks(ops, context, ranges);
  }
}
