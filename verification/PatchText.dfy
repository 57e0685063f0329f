/** Printing hunks as a unified diff. */
module PatchText {
  import opened Text
  import opened EditScript
  import opened Hunks

  const NO_NL: string := "\\ No newline at end of file"

  function FormatRange(start: nat, count: nat): string {
    if count == 1 then Decimal(start) else Decimal(start) + "," + Decimal(count)
  }

  /** The short form, without a count, is used exactly for a range of one line. */
  lemma ShortRange(start: nat, count: nat)
    ensures ',' in FormatRange(start, count) <==> count != 1
  {
    DecimalNumber(start);
    if count != 1 {
      assert FormatRange(start, count)[|Decimal(start)|] == ',';
    }
  }

  function HunkHeader(h: Hunk): string {
    "@@ -" + (FormatRange(h.oldStart, h.oldCount)
    + (" +" + (FormatRange(h.newStart, h.newCount)
    + (" @@" + (if h.section == "" then "" else " " + h.section)))))
  }

  function Prefix(kind: Kind): string {
    match kind
    case Insert => "+"
    case Delete => "-"
    case Equal => " "
  }

  function LineText(line: HunkLine): seq<string> {
    [Prefix(line.kind) + line.text] + (if line.noNewline then [NO_NL] else [])
  }

  // ----- Pieces of a text

  lemma {:induction false} ConcatAppend<T>(p: seq<seq<T>>, q: seq<seq<T>>, k: nat)
    requires k <= |p|
    ensures Concat(p + q, k) == Concat(p, k) + Concat(q)
    decreases |p| - k
  {
    if k == |p| {
      ConcatShift(p, q, 0);
    } else {
      ConcatAppend(p, q, k + 1);
      Associate(p[k], Concat(p, k + 1), Concat(q));
    }
  }

  lemma {:induction false} ConcatShift<T>(p: seq<seq<T>>, q: seq<seq<T>>, k: nat)
    requires k <= |q|
    ensures Concat(p + q, |p| + k) == Concat(q, k)
    decreases |q| - k
  {
    if k < |q| {
      ConcatShift(p, q, k + 1);
    }
  }

  // ----- Bodies, hunks and files

  function LineTexts(lines: seq<HunkLine>): (pieces: seq<seq<string>>)
    ensures |pieces| == |lines|
    ensures forall k {:trigger pieces[k]} :: 0 <= k < |lines| ==> pieces[k] == LineText(lines[k])
  {
    seq(|lines|, k requires 0 <= k < |lines| => LineText(lines[k]))
  }

  function BodyText(lines: seq<HunkLine>): seq<string> {
    Concat(LineTexts(lines))
  }

  function HunkText(h: Hunk): seq<string> {
    [HunkHeader(h)] + BodyText(h.lines)
  }

  function HunkTexts(hunks: seq<Hunk>): (pieces: seq<seq<string>>)
    ensures |pieces| == |hunks|
    ensures forall k {:trigger pieces[k]} :: 0 <= k < |hunks| ==> pieces[k] == HunkText(hunks[k])
  {
    seq(|hunks|, k requires 0 <= k < |hunks| => HunkText(hunks[k]))
  }

  function HunksText(hunks: seq<Hunk>): seq<string> {
    Concat(HunkTexts(hunks))
  }

  function PatchLines(oldHeader: string, newHeader: string, hunks: seq<Hunk>): seq<string> {
    ["--- " + oldHeader, "+++ " + newHeader] + HunksText(hunks)
  }

  // ----- Printing line by line

  method PrintLine(l: HunkLine, out0: seq<string>) returns (out: seq<string>)
    ensures out == out0 + LineText(l)
  {
    var prefix := if l.kind == Insert then "+" else if l.kind == Delete then "-" else " ";
    out := out0 + [prefix + l.text];
    if l.noNewline {
      out := out + [NO_NL];
    }
  }

  method PrintBody(lines: seq<HunkLine>, out0: seq<string>) returns (out: seq<string>)
    ensures out == out0 + BodyText(lines)
  {
    out := out0;
    ghost var pieces := LineTexts(lines);
    var i := 0;
    while i < |lines|
      invariant i <= |lines|
      invariant out + Concat(pieces, i) == out0 + Concat(pieces)
    {
      Associate(out, pieces[i], Concat(pieces, i + 1));
      out := PrintLine(lines[i], out);
      i := i + 1;
    }
  }

  method PrintHunk(h: Hunk, out0: seq<string>) returns (out: seq<string>)
    ensures out == out0 + HunkText(h)
  {
    Associate(out0, [HunkHeader(h)], BodyText(h.lines));
    out := PrintBody(h.lines, out0 + [HunkHeader(h)]);
  }

  method PrintHunks(hunks: seq<Hunk>, out0: seq<string>) returns (out: seq<string>)
    ensures out == out0 + HunksText(hunks)
  {
    out := out0;
    ghost var pieces := HunkTexts(hunks);
    var i := 0;
    while i < |hunks|
      invariant i <= |hunks|
      invariant out + Concat(pieces, i) == out0 + Concat(pieces)
    {
      Associate(out, pieces[i], Concat(pieces, i + 1));
      out := PrintHunk(hunks[i], out);
      i := i + 1;
    }
  }
}
