/** How much context a hunk carries, and which edits share one. */
module HunkContext {
  import opened EditScript
  import opened Hunks

  // ----- Groups begin and end with an edit

  /** No more than 2 * context kept lines in a row between the first edit and the last one. */
  ghost predicate Tight(ops: seq<Op>, context: nat, first: nat, last: nat) {
    && first <= last < |ops| && ops[first].kind != Equal && ops[last].kind != Equal
    && forall t :: first <= t && t + 2 * context <= last ==> EditIn(ops, t, context)
  }

  /** One of the 2 * context + 1 ops from the index on is an edit. */
  ghost predicate EditIn(ops: seq<Op>, from: int, context: nat)
    requires 0 <= from && from + 2 * context < |ops|
  {
    exists u :: from <= u <= from + 2 * context && ops[u].kind != Equal
  }

  ghost predicate AllTight(ops: seq<Op>, context: nat, g: seq<(nat, nat)>) {
    forall i :: 0 <= i < |g| ==> Tight(ops, context, g[i].0, g[i].1)
  }

  lemma TightStays(init: seq<Op>, op: Op, context: nat, first: nat, last: nat)
    requires Tight(init, context, first, last)
    ensures Tight(init + [op], context, first, last)
  {
    forall t | first <= t && t + 2 * context <= last ensures EditIn(init + [op], t, context) {
      assert EditIn(init, t, context);
      var u :| t <= u <= t + 2 * context && init[u].kind != Equal;
      assert (init + [op])[u] == init[u];
    }
  }

  lemma TightGrows(init: seq<Op>, op: Op, context: nat, first: nat, last: nat)
    requires Tight(init, context, first, last) && op.kind != Equal && |init| - last - 1 <= context * 2
    ensures Tight(init + [op], context, first, |init|)
  {
    var ops := init + [op];
    TightStays(init, op, context, first, last);
    forall t | first <= t && t + 2 * context <= |init| ensures EditIn(ops, t, context) {
      if t + 2 * context == |init| {
        assert ops[|init|] == op;
      } else if t + 2 * context > last {
        assert t <= last && ops[last] == init[last];
      }
    }
  }

  lemma TightOne(init: seq<Op>, op: Op, context: nat)
    requires op.kind != Equal
    ensures Tight(init + [op], context, |init|, |init|)
  {
    var ops := init + [op];
    forall t | |init| <= t && t + 2 * context <= |init| ensures EditIn(ops, t, context) {
      assert ops[|init|] == op;
    }
  }

  lemma KeepTight(init: seq<Op>, op: Op, context: nat, g: seq<(nat, nat)>)
    requires AllTight(init, context, g)
    ensures AllTight(init + [op], context, g)
  {
    forall i | 0 <= i < |g| ensures Tight(init + [op], context, g[i].0, g[i].1) {
      TightStays(init, op, context, g[i].0, g[i].1);
    }
  }

  lemma OneMoreTight(ops: seq<Op>, context: nat, g: seq<(nat, nat)>, first: nat, last: nat)
    requires AllTight(ops, context, g) && Tight(ops, context, first, last)
    ensures AllTight(ops, context, g + [(first, last)])
  {
    var grown := g + [(first, last)];
    forall i | 0 <= i < |grown| ensures Tight(ops, context, grown[i].0, grown[i].1) {
      assert i < |g| ==> grown[i] == g[i];
    }
  }

  lemma FrontTight(ops: seq<Op>, context: nat, g: seq<(nat, nat)>)
    requires AllTight(ops, context, g) && g != []
    ensures AllTight(ops, context, g[..|g| - 1])
  {
    var front := g[..|g| - 1];
    forall i | 0 <= i < |front| ensures Tight(ops, context, front[i].0, front[i].1) {
      assert front[i] == g[i];
    }
  }

  lemma EditTight(init: seq<Op>, op: Op, context: nat, g: seq<(nat, nat)>)
    requires AllTight(init, context, g) && op.kind != Equal
    ensures AllTight(init + [op], context,
                     if g != [] && |init| - g[|g| - 1].1 - 1 <= context * 2
                     then g[..|g| - 1] + [(g[|g| - 1].0, |init|)]
                     else g + [(|init|, |init|)])
  {
    KeepTight(init, op, context, g);
    if g != [] && |init| - g[|g| - 1].1 - 1 <= context * 2 {
      TightGrows(init, op, context, g[|g| - 1].0, g[|g| - 1].1);
      FrontTight(init + [op], context, g);
      OneMoreTight(init + [op], context, g[..|g| - 1], g[|g| - 1].0, |init|);
    } else {
      TightOne(init, op, context);
      OneMoreTight(init + [op], context, g, |init|, |init|);
    }
  }

  lemma TightSnoc(init: seq<Op>, op: Op, context: nat)
    requires AllTight(init, context, Groups(Changed(init), context))
    ensures AllTight(init + [op], context, Groups(Changed(init + [op]), context))
  {
    var g := Groups(Changed(init), context);
    ChangedSnoc(init, op);
    if op.kind == Equal {
      KeepTight(init, op, context, g);
    } else {
      GroupsSnoc(Changed(init), |init|, context);
      EditTight(init, op, context, g);
    }
  }

  lemma {:induction false} GroupsTight(ops: seq<Op>, context: nat)
    ensures AllTight(ops, context, Groups(Changed(ops), context))
    decreases |ops|
  {
    if ops != [] {
      LastSplit(ops);
      GroupsTight(ops[..|ops| - 1], context);
      TightSnoc(ops[..|ops| - 1], ops[|ops| - 1], context);
    }
  }

  // ----- The lines of a hunk

  /** How many kept lines the hunk begins with. */
  function Leading(lines: seq<HunkLine>): (n: nat)
    ensures n <= |lines|
  {
    if lines == [] || lines[0].kind != Equal then 0 else 1 + Leading(lines[1..])
  }

  /** How many kept lines it ends with. */
  function Trailing(lines: seq<HunkLine>): (n: nat)
    ensures n <= |lines|
  {
    if lines == [] || lines[|lines| - 1].kind != Equal then 0 else 1 + Trailing(lines[..|lines| - 1])
  }

  lemma {:induction false} LeadingIs(lines: seq<HunkLine>, n: nat)
    requires n < |lines| && lines[n].kind != Equal && forall i :: 0 <= i < n ==> lines[i].kind == Equal
    ensures Leading(lines) == n
    decreases n
  {
    if n > 0 {
      LeadingIs(lines[1..], n - 1);
    }
  }

  lemma {:induction false} TrailingIs(lines: seq<HunkLine>, n: nat)
    requires n < |lines| && lines[|lines| - 1 - n].kind != Equal
    requires forall i :: |lines| - n <= i < |lines| ==> lines[i].kind == Equal
    ensures Trailing(lines) == n
    decreases n
  {
    if n > 0 {
      TrailingIs(lines[..|lines| - 1], n - 1);
    }
  }

  /**
   * The hunk begins and ends with exactly `context` kept lines, fewer only at an end of both files, and
   * nowhere else has it more than 2 * context of them in a row.
   */
  ghost predicate CarriesContext(ops: seq<Op>, context: nat, h: Hunk) {
    && h.section == "" && Leading(h.lines) < |h.lines| && Leading(h.lines) <= context && Trailing(h.lines) <= context
    && (Leading(h.lines) == context || (Anchor(h) == 0 && NewAnchor(h) == 0))
    && (Trailing(h.lines) == context
        || (Anchor(h) + h.oldCount == |OldSide(ops)| && NewAnchor(h) + h.newCount == |NewSide(ops)|))
    && (forall t :: 0 <= t && t + 2 * context < |h.lines| ==> HasEdit(h.lines, t, context))
  }

  ghost predicate HasEdit(lines: seq<HunkLine>, from: int, context: nat)
    requires 0 <= from && from + 2 * context < |lines|
  {
    exists u :: from <= u <= from + 2 * context && lines[u].kind != Equal
  }

  /** Around a group only kept lines lie, as far as its context reaches. */
  ghost predicate QuietAround(ops: seq<Op>, context: nat, g: (nat, nat))
    requires g.0 <= g.1 < |ops|
  {
    Quiet(ops, HunkFrom(g, context), g.0) && Quiet(ops, g.1 + 1, HunkTo(g, context, |ops|))
  }

  lemma GroupQuiet(ops: seq<Op>, context: nat, g: seq<(nat, nat)>, i: nat)
    requires Separated(ops, context, g) && i < |g|
    ensures QuietAround(ops, context, g[i])
  {
    assert Quiet(ops, if i == 0 then 0 else g[i - 1].1 + 1, g[i].0);
    assert Quiet(ops, g[i].1 + 1, if i == |g| - 1 then |ops| else g[i + 1].0);
  }

  lemma SpanKind(ops: seq<Op>, start: nat, end: nat, i: nat)
    requires start <= i < end <= |ops|
    ensures |HunkLinesOf(ops[start..end])| == end - start && HunkLinesOf(ops[start..end])[i - start].kind == ops[i].kind
  {
    HunkLinesLength(ops[start..end]);
    HunkLineAt(ops[start..end], i - start);
  }

  lemma SpanEnds(ops: seq<Op>, start: nat, first: nat, last: nat, end: nat)
    requires start <= first <= last < end <= |ops| && ops[first].kind != Equal && ops[last].kind != Equal
    requires Quiet(ops, start, first) && Quiet(ops, last + 1, end)
    ensures var lines := HunkLinesOf(ops[start..end]);
            |lines| == end - start && Leading(lines) == first - start && Trailing(lines) == end - 1 - last
  {
    var lines := HunkLinesOf(ops[start..end]);
    forall i | start <= i < end ensures |lines| == end - start && lines[i - start].kind == ops[i].kind {
      SpanKind(ops, start, end, i);
    }
    assert lines[first - start].kind == ops[first].kind && lines[last - start].kind == ops[last].kind;
    forall i | 0 <= i < first - start ensures lines[i].kind == Equal {
      assert lines[i + start - start].kind == ops[i + start].kind;
    }
    forall i | last + 1 - start <= i < end - start ensures lines[i].kind == Equal {
      assert lines[i + start - start].kind == ops[i + start].kind;
    }
    LeadingIs(lines, first - start);
    TrailingIs(lines, end - 1 - last);
  }

  lemma WindowHasEdit(ops: seq<Op>, context: nat, g: (nat, nat), t: nat)
    requires Tight(ops, context, g.0, g.1)
    requires HunkFrom(g, context) <= t && t + 2 * context < HunkTo(g, context, |ops|)
    ensures EditIn(ops, t, context)
  {
    if t <= g.0 {
      assert g.0 <= t + 2 * context && ops[g.0].kind != Equal;
    } else if t + 2 * context > g.1 {
      assert t <= g.1 && ops[g.1].kind != Equal;
    }
  }

  lemma SpanWindows(ops: seq<Op>, context: nat, g: (nat, nat), t: nat)
    requires Tight(ops, context, g.0, g.1)
    requires t + 2 * context < |HunkOf(ops, context, g).lines|
    ensures HasEdit(HunkOf(ops, context, g).lines, t, context)
  {
    var start, end := HunkFrom(g, context), HunkTo(g, context, |ops|);
    SpanKind(ops, start, end, g.0);
    WindowHasEdit(ops, context, g, start + t);
    var u :| start + t <= u <= start + t + 2 * context && ops[u].kind != Equal;
    SpanKind(ops, start, end, u);
    assert HunkOf(ops, context, g).lines[u - start].kind != Equal;
  }

  lemma GroupCarries(ops: seq<Op>, context: nat, g: (nat, nat))
    requires Tight(ops, context, g.0, g.1) && QuietAround(ops, context, g)
    ensures CarriesContext(ops, context, HunkOf(ops, context, g))
  {
    var h, start, end := HunkOf(ops, context, g), HunkFrom(g, context), HunkTo(g, context, |ops|);
    SpanEnds(ops, start, g.0, g.1, end);
    HunkPlace(ops, context, g);
    assert ops[..0] == [] && ops[..|ops|] == ops;
    forall t: nat | t + 2 * context < |h.lines| ensures HasEdit(h.lines, t, context) {
      SpanWindows(ops, context, g, t);
    }
  }

  /**
   * For every script and every amount of context each hunk carries exactly that much before its first edit
   * and behind its last one, unless the files begin or end there, and no edits share one that lie further
   * than twice the context apart.
   */
  lemma HunksCarryContext(ops: seq<Op>, context: nat, i: nat)
    requires i < |HunksOf(ops, context)|
    ensures CarriesContext(ops, context, HunksOf(ops, context)[i])
  {
    var g := Groups(Changed(ops), context);
    GroupsSeparate(ops, context);
    GroupsTight(ops, context);
    HunkAt(ops, context, g, |g|, i);
    GroupQuiet(ops, context, g, i);
    GroupCarries(ops, context, g[i]);
  }

  ghost predicate LiesAt(ops: seq<Op>, h: Hunk, t: nat) {
    && t + |h.lines| <= |ops| && h.lines == HunkLinesOf(ops[t..t + |h.lines|])
    && h.oldCount == |OldKeys(h.lines)| && h.newCount == |NewKeys(h.lines)|
    && h.oldStart == |OldSide(ops[..t])| + (if h.oldCount == 0 then 0 else 1)
    && h.newStart == |NewSide(ops[..t])| + (if h.newCount == 0 then 0 else 1)
  }

  lemma GroupLiesAt(ops: seq<Op>, context: nat, g: (nat, nat))
    requires g.0 <= g.1 < |ops|
    ensures LiesAt(ops, HunkOf(ops, context, g), HunkFrom(g, context))
  {
    var span := ops[HunkFrom(g, context)..HunkTo(g, context, |ops|)];
    HunkLinesLength(span);
    HunkLineSides(span);
  }

  /**
   * Where a hunk lies: its lines are the script's from op t on, and each start is the number of that side's
   * first line in it; or, if it has none, the number of the line before, which is 0 at the start of the file.
   */
  lemma HunkLiesAt(ops: seq<Op>, context: nat, i: nat) returns (t: nat)
    requires i < |HunksOf(ops, context)|
    ensures LiesAt(ops, HunksOf(ops, context)[i], t)
  {
    var g := Groups(Changed(ops), context);
    GroupsSeparate(ops, context);
    HunkAt(ops, context, g, |g|, i);
    GroupLiesAt(ops, context, g[i]);
    t := HunkFrom(g[i], context);
  }
}
