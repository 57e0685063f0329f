/** Parsing inverts printing, for hunks, whole files and concatenations of files. */
module PrintParse {
  import opened Text
  import opened EditScript
  import opened Hunks
  import opened PatchText
  import opened PatchParse

  // ----- What can be printed and read back

  /** A deleted line that starts with "-- " prints as "--- ...", which the parser takes for a file header. */
  predicate ReadsAsHeader(line: HunkLine) {
    line.kind == Delete && StartsWith(line.text, "-- ")
  }

  predicate PrintableLines(lines: seq<HunkLine>) {
    forall i :: 0 <= i < |lines| ==> !ReadsAsHeader(lines[i])
  }

  /** Printable but for lines that read as a header. */
  predicate WellFormed(h: Hunk) {
    && h.oldCount == |OldKeys(h.lines)| && h.newCount == |NewKeys(h.lines)|
    && (forall i :: 0 <= i < |h.lines| ==> OneLine(h.lines[i].text))
    && (forall i :: 0 <= i < |h.section| ==> !IsLineTerminator(h.section[i]))
  }

  predicate Printable(h: Hunk) {
    WellFormed(h) && PrintableLines(h.lines)
  }

  predicate AllPrintable(hunks: seq<Hunk>) {
    forall i :: 0 <= i < |hunks| ==> Printable(hunks[i])
  }

  // ----- Pieces of a sequence of lines

  ghost predicate At(lines: seq<string>, i: nat, piece: seq<string>) {
    i + |piece| <= |lines| && forall k :: 0 <= k < |piece| ==> lines[i + k] == piece[k]
  }

  lemma AtSplit(lines: seq<string>, i: nat, p: seq<string>, q: seq<string>)
    requires At(lines, i, p + q)
    ensures At(lines, i, p) && At(lines, i + |p|, q)
  {
    forall k | 0 <= k < |p|
      ensures lines[i + k] == p[k]
    {
      assert (p + q)[k] == p[k];
    }
    forall k | 0 <= k < |q|
      ensures lines[i + |p| + k] == q[k]
    {
      assert (p + q)[|p| + k] == q[k];
    }
  }

  lemma AtFirst(lines: seq<string>, i: nat, piece: seq<string>)
    requires At(lines, i, piece) && piece != []
    ensures i < |lines| && lines[i] == piece[0]
  {
    assert lines[i + 0] == piece[0];
  }

  /** The pieces lie one after the other in lines, the k-th from at[k] to at[k + 1]. */
  ghost predicate Layout(lines: seq<string>, pieces: seq<seq<string>>, at: seq<nat>) {
    && |at| == |pieces| + 1
    && forall k :: 0 <= k < |pieces| ==> At(lines, at[k], pieces[k]) && at[k + 1] == at[k] + |pieces[k]|
  }

  lemma {:induction false} LayOut(lines: seq<string>, i: nat, pieces: seq<seq<string>>, k: nat) returns (at: seq<nat>)
    requires k <= |pieces| && At(lines, i, Concat(pieces, k))
    ensures Layout(lines, pieces[k..], at) && at[0] == i && at[|at| - 1] == i + |Concat(pieces, k)|
    decreases |pieces| - k
  {
    if k == |pieces| {
      at := [i];
    } else {
      AtSplit(lines, i, pieces[k], Concat(pieces, k + 1));
      var rest := LayOut(lines, i + |pieces[k]|, pieces, k + 1);
      at := [i] + rest;
      LayoutCons(lines, pieces[k..], pieces[k + 1..], i, rest);
    }
  }

  lemma LayoutCons(lines: seq<string>, pieces: seq<seq<string>>, more: seq<seq<string>>, i: nat, rest: seq<nat>)
    requires pieces != [] && pieces[1..] == more && Layout(lines, more, rest)
    requires At(lines, i, pieces[0]) && rest[0] == i + |pieces[0]|
    ensures Layout(lines, pieces, [i] + rest)
  {
    var at := [i] + rest;
    forall k | 0 <= k < |pieces|
      ensures At(lines, at[k], pieces[k]) && at[k + 1] == at[k] + |pieces[k]|
    {
      if k > 0 {
        assert more[k - 1] == pieces[k];
      }
    }
  }

  lemma LayOutAll(lines: seq<string>, i: nat, pieces: seq<seq<string>>) returns (at: seq<nat>)
    requires At(lines, i, Concat(pieces))
    ensures Layout(lines, pieces, at) && at[0] == i && at[|pieces|] == i + |Concat(pieces)|
  {
    at := LayOut(lines, i, pieces, 0);
    assert pieces[0..] == pieces;
  }

  // ----- Hunk headers

  lemma TakeFormattedRange(start: nat, count: nat, rest: string)
    requires rest != "" && !IsDigit(rest[0]) && rest[0] != ','
    ensures TakeRange(FormatRange(start, count) + rest) == Some(((start, count), rest))
  {
    if count == 1 {
      TakeDecimal(start, rest);
    } else {
      var tail := Decimal(count) + rest;
      TakeDecimal(count, rest);
      TakeDecimal(start, "," + tail);
      assert FormatRange(start, count) + rest == Decimal(start) + ("," + tail);
      assert ("," + tail)[1..] == tail;
    }
  }

  /** A printed header parses back to its ranges and its section. */
  lemma ParsePrintedHeader(h: Hunk)
    requires forall i :: 0 <= i < |h.section| ==> !IsLineTerminator(h.section[i])
    ensures ParseHeader(HunkHeader(h)) == Some(h.(lines := []))
  {
    var section := if h.section == "" then "" else " " + h.section;
    var newPart := FormatRange(h.newStart, h.newCount) + (" @@" + section);
    var oldPart := FormatRange(h.oldStart, h.oldCount) + (" +" + newPart);
    AfterAppended("@@ -", oldPart);
    TakeFormattedRange(h.oldStart, h.oldCount, " +" + newPart);
    AfterAppended(" +", newPart);
    TakeFormattedRange(h.newStart, h.newCount, " @@" + section);
    AfterAppended(" @@", section);
    if h.section != "" {
      assert section[1..] == h.section;
    }
  }

  lemma HeaderIsHunkLine(h: Hunk)
    ensures StartsWith(HunkHeader(h), "@@ ") && HunkHeader(h) != NO_NL
  {
    assert HunkHeader(h)[..3] == "@@ ";
    StartsWithPrefix(HunkHeader(h), "@@ ");
    assert HunkHeader(h)[0] == '@' && NO_NL[0] == '\\';
  }

  lemma FileHeaderIsNoHunkLine(line: string)
    requires StartsWith(line, "--- ")
    ensures !StartsWith(line, "@@ ") && line != NO_NL
  {
    assert line[0] == '-' && NO_NL[0] == '\\';
  }

  // ----- Hunk bodies

  lemma ParsePrintedLine(line: HunkLine)
    requires !ReadsAsHeader(line)
    ensures var body := Prefix(line.kind) + line.text;
            body != NO_NL && BodyLine(body) == Ok(line.(noNewline := false))
  {
    var body := Prefix(line.kind) + line.text;
    assert body[1..] == line.text;
    assert body[0] == Prefix(line.kind)[0] && body[0] != '\\' && NO_NL[0] == '\\';
    assert "--- "[1..] == "-- ";
  }

  lemma ParseBodyPlain(lines: seq<string>, i: nat, line: HunkLine, oldCount: nat, newCount: nat,
                       seenOld: nat, seenNew: nat, acc: seq<HunkLine>)
    requires i < |lines| && lines[i] == Prefix(line.kind) + line.text && !ReadsAsHeader(line)
    requires seenOld + Weight(line, Insert) <= oldCount && seenNew + Weight(line, Delete) <= newCount
    ensures ParseBody(lines, i, oldCount, newCount, seenOld, seenNew, acc) ==
            ParseBody(lines, i + 1, oldCount, newCount, seenOld + Weight(line, Insert), seenNew + Weight(line, Delete),
                      acc + [line.(noNewline := false)])
  {
    ParsePrintedLine(line);
  }

  lemma ParseBodyMarked(lines: seq<string>, i: nat, line: HunkLine, oldCount: nat, newCount: nat,
                        seenOld: nat, seenNew: nat, acc: seq<HunkLine>)
    requires i < |lines| && lines[i] == NO_NL && line.noNewline
    ensures ParseBody(lines, i, oldCount, newCount, seenOld, seenNew, acc + [line.(noNewline := false)]) ==
            ParseBody(lines, i + 1, oldCount, newCount, seenOld, seenNew, acc + [line])
  {
    assert (acc + [line.(noNewline := false)])[..|acc|] == acc;
  }

  /** Where the lines of one printed line lie. */
  lemma LineTextAt(lines: seq<string>, i: nat, line: HunkLine)
    requires At(lines, i, LineText(line))
    ensures i + |LineText(line)| <= |lines| && lines[i] == Prefix(line.kind) + line.text
    ensures line.noNewline ==> |LineText(line)| == 2 && lines[i + 1] == NO_NL
  {
    AtFirst(lines, i, LineText(line));
    AtSplit(lines, i, [Prefix(line.kind) + line.text], if line.noNewline then [NO_NL] else []);
    if line.noNewline {
      AtFirst(lines, i + 1, [NO_NL]);
    }
  }

  /** Reading one printed line, with its marker line when it has one. */
  lemma ParseBodyStep(lines: seq<string>, i: nat, line: HunkLine, oldCount: nat, newCount: nat,
                      seenOld: nat, seenNew: nat, acc: seq<HunkLine>)
    requires At(lines, i, LineText(line)) && !ReadsAsHeader(line)
    requires seenOld + Weight(line, Insert) <= oldCount && seenNew + Weight(line, Delete) <= newCount
    ensures ParseBody(lines, i, oldCount, newCount, seenOld, seenNew, acc) ==
            ParseBody(lines, i + |LineText(line)|, oldCount, newCount,
                      seenOld + Weight(line, Insert), seenNew + Weight(line, Delete), acc + [line])
  {
    var o, n := seenOld + Weight(line, Insert), seenNew + Weight(line, Delete);
    LineTextAt(lines, i, line);
    ParseBodyPlain(lines, i, line, oldCount, newCount, seenOld, seenNew, acc);
    if line.noNewline {
      ParseBodyMarked(lines, i + 1, line, oldCount, newCount, o, n, acc);
    }
  }

  lemma {:induction false} KeysGrow(lines: seq<HunkLine>, k: nat)
    requires k < |lines|
    ensures |OldKeys(lines[..k + 1])| == |OldKeys(lines[..k])| + Weight(lines[k], Insert) <= |OldKeys(lines)|
    ensures |NewKeys(lines[..k + 1])| == |NewKeys(lines[..k])| + Weight(lines[k], Delete) <= |NewKeys(lines)|
    decreases |lines| - k
  {
    assert lines[..k + 1][..k] == lines[..k];
    if k + 1 < |lines| {
      KeysGrow(lines, k + 1);
    } else {
      assert lines[..k + 1] == lines;
    }
  }

  /** The parser at line i with the first k lines of body read. */
  function BodyFrom(lines: seq<string>, i: nat, body: seq<HunkLine>, k: nat): Result<(seq<HunkLine>, nat), PatchError>
    requires i <= |lines| && k <= |body|
  {
    ParseBody(lines, i, |OldKeys(body)|, |NewKeys(body)|, |OldKeys(body[..k])|, |NewKeys(body[..k])|, body[..k])
  }

  lemma BodyAdvances(lines: seq<string>, i: nat, body: seq<HunkLine>, k: nat)
    requires k < |body| && At(lines, i, LineText(body[k])) && !ReadsAsHeader(body[k])
    ensures BodyFrom(lines, i, body, k) == BodyFrom(lines, i + |LineText(body[k])|, body, k + 1)
  {
    KeysGrow(body, k);
    var read, read' := body[..k], body[..k + 1];
    var old0, new0, old1, new1 := |OldKeys(read)|, |NewKeys(read)|, |OldKeys(read')|, |NewKeys(read')|;
    TakeSnoc(body, k);
    ParseBodyStep(lines, i, body[k], |OldKeys(body)|, |NewKeys(body)|, old0, new0, read);
    assert old1 == old0 + Weight(body[k], Insert) && new1 == new0 + Weight(body[k], Delete);
  }

  lemma BodyEnds(lines: seq<string>, i: nat, body: seq<HunkLine>)
    requires i <= |lines| && (i < |lines| ==> lines[i] != NO_NL)
    ensures BodyFrom(lines, i, body, |body|) == Ok((body, i))
  {
    assert body[..|body|] == body;
  }

  /** Following the layout of a printed body line by line. */
  lemma {:induction false} FollowBody(lines: seq<string>, at: seq<nat>, body: seq<HunkLine>, k: nat)
    requires k <= |body| && Layout(lines, LineTexts(body), at) && PrintableLines(body)
    requires at[|body|] <= |lines| && (at[|body|] < |lines| ==> lines[at[|body|]] != NO_NL)
    ensures at[k] <= |lines| && BodyFrom(lines, at[k], body, k) == Ok((body, at[|body|]))
    decreases |body| - k
  {
    if k == |body| {
      BodyEnds(lines, at[k], body);
    } else {
      assert At(lines, at[k], LineTexts(body)[k]);
      FollowBody(lines, at, body, k + 1);
      BodyAdvances(lines, at[k], body, k);
    }
  }

  lemma ParsePrintedBody(lines: seq<string>, i: nat, body: seq<HunkLine>, next: nat)
    requires At(lines, i, BodyText(body)) && PrintableLines(body) && next == i + |BodyText(body)|
    requires next < |lines| ==> lines[next] != NO_NL
    ensures ParseBody(lines, i, |OldKeys(body)|, |NewKeys(body)|, 0, 0, []) == Ok((body, next))
  {
    var pieces := LineTexts(body);
    var at := LayOutAll(lines, i, pieces);
    FollowBody(lines, at, body, 0);
    assert body[..0] == [];
  }

  // ----- Hunks

  predicate EndsHunks(lines: seq<string>, i: nat) {
    i < |lines| ==> !StartsWith(lines[i], "@@ ") && lines[i] != NO_NL
  }

  lemma ParseHunksStep(lines: seq<string>, i: nat, header: Hunk, body: seq<HunkLine>, next: nat, acc: seq<Hunk>)
    requires i < |lines| && StartsWith(lines[i], "@@ ") && ParseHeader(lines[i]) == Some(header)
    requires ParseBody(lines, i + 1, header.oldCount, header.newCount, 0, 0, []) == Ok((body, next))
    ensures ParseHunks(lines, i, acc) == ParseHunks(lines, next, acc + [header.(lines := body)])
  {
  }

  /** Line i is the header of h, and its body ends before line next. */
  ghost predicate HunkReads(lines: seq<string>, i: nat, h: Hunk, next: nat) {
    && i < |lines| && StartsWith(lines[i], "@@ ") && lines[i] != NO_NL
    && ParseHeader(lines[i]) == Some(h.(lines := []))
    && ParseBody(lines, i + 1, h.oldCount, h.newCount, 0, 0, []) == Ok((h.lines, next))
  }

  lemma PrintedHunkReads(lines: seq<string>, i: nat, h: Hunk, next: nat)
    requires At(lines, i, HunkText(h)) && Printable(h) && next == i + |HunkText(h)|
    requires next < |lines| ==> lines[next] != NO_NL
    ensures HunkReads(lines, i, h, next)
  {
    AtSplit(lines, i, [HunkHeader(h)], BodyText(h.lines));
    AtFirst(lines, i, [HunkHeader(h)]);
    HeaderIsHunkLine(h);
    ParsePrintedHeader(h);
    ParsePrintedBody(lines, i + 1, h.lines, next);
  }

  ghost predicate AllHunksRead(lines: seq<string>, at: seq<nat>, hunks: seq<Hunk>) {
    |at| == |hunks| + 1 && forall k :: 0 <= k < |hunks| ==> HunkReads(lines, at[k], hunks[k], at[k + 1])
  }

  lemma HunksAdvance(lines: seq<string>, i: nat, hunks: seq<Hunk>, k: nat, next: nat)
    requires k < |hunks| && HunkReads(lines, i, hunks[k], next)
    ensures ParseHunks(lines, i, hunks[..k]) == ParseHunks(lines, next, hunks[..k + 1])
  {
    var h := hunks[k];
    ParseHunksStep(lines, i, h.(lines := []), h.lines, next, hunks[..k]);
    TakeSnoc(hunks, k);
  }

  lemma {:induction false} FollowHunks(lines: seq<string>, at: seq<nat>, hunks: seq<Hunk>, k: nat)
    requires k <= |hunks| && AllHunksRead(lines, at, hunks)
    requires at[|hunks|] <= |lines| && EndsHunks(lines, at[|hunks|])
    ensures at[k] <= |lines|
    ensures ParseHunks(lines, at[k], hunks[..k]) == Ok((hunks, at[|hunks|]))
    decreases |hunks| - k
  {
    if k == |hunks| {
      assert hunks[..k] == hunks;
    } else {
      assert HunkReads(lines, at[k], hunks[k], at[k + 1]);
      FollowHunks(lines, at, hunks, k + 1);
      HunksAdvance(lines, at[k], hunks, k, at[k + 1]);
    }
  }

  lemma FollowAllHunks(lines: seq<string>, at: seq<nat>, hunks: seq<Hunk>)
    requires AllHunksRead(lines, at, hunks)
    requires at[|hunks|] <= |lines| && EndsHunks(lines, at[|hunks|])
    ensures at[0] <= |lines|
    ensures ParseHunks(lines, at[0], []) == Ok((hunks, at[|hunks|]))
  {
    FollowHunks(lines, at, hunks, 0);
    TakeNone(hunks);
  }

  lemma TakeNone<T>(s: seq<T>)
    ensures s[..0] == []
  {
  }

  lemma NoMarkerAfterHunk(lines: seq<string>, at: seq<nat>, hunks: seq<Hunk>, k: nat)
    requires Layout(lines, HunkTexts(hunks), at) && 0 < k <= |hunks| && (k == |hunks| ==> EndsHunks(lines, at[k]))
    ensures at[k] < |lines| ==> lines[at[k]] != NO_NL
  {
    if k < |hunks| {
      AtFirst(lines, at[k], HunkTexts(hunks)[k]);
      HeaderIsHunkLine(hunks[k]);
    }
  }

  lemma PrintedHunkAt(lines: seq<string>, at: seq<nat>, hunks: seq<Hunk>, k: nat)
    requires Layout(lines, HunkTexts(hunks), at) && k < |hunks| && Printable(hunks[k])
    requires k + 1 == |hunks| ==> EndsHunks(lines, at[|hunks|])
    ensures HunkReads(lines, at[k], hunks[k], at[k + 1])
  {
    NoMarkerAfterHunk(lines, at, hunks, k + 1);
    assert At(lines, at[k], HunkTexts(hunks)[k]);
    PrintedHunkReads(lines, at[k], hunks[k], at[k + 1]);
  }

  lemma PrintedHunksRead(lines: seq<string>, at: seq<nat>, hunks: seq<Hunk>)
    requires Layout(lines, HunkTexts(hunks), at) && AllPrintable(hunks) && EndsHunks(lines, at[|hunks|])
    ensures AllHunksRead(lines, at, hunks)
  {
    forall k | 0 <= k < |hunks|
      ensures HunkReads(lines, at[k], hunks[k], at[k + 1])
    {
      PrintedHunkAt(lines, at, hunks, k);
    }
  }

  lemma ParseLaidOut(lines: seq<string>, at: seq<nat>, hunks: seq<Hunk>)
    requires Layout(lines, HunkTexts(hunks), at) && AllPrintable(hunks)
    requires at[|hunks|] <= |lines| && EndsHunks(lines, at[|hunks|])
    ensures at[0] <= |lines|
    ensures ParseHunks(lines, at[0], []) == Ok((hunks, at[|hunks|]))
  {
    PrintedHunksRead(lines, at, hunks);
    FollowAllHunks(lines, at, hunks);
  }

  lemma ParsePrintedHunks(lines: seq<string>, i: nat, hunks: seq<Hunk>, next: nat)
    requires At(lines, i, HunksText(hunks)) && AllPrintable(hunks) && next == i + |HunksText(hunks)|
    requires EndsHunks(lines, next)
    ensures ParseHunks(lines, i, []) == Ok((hunks, next))
  {
    var at := LayOutAll(lines, i, HunkTexts(hunks));
    assert at[0] == i && at[|hunks|] == next;
    ParseLaidOut(lines, at, hunks);
  }

  // ----- Files

  datatype PrintedFile = PrintedFile(oldHeader: string, newHeader: string, hunks: seq<Hunk>)

  predicate OneLineHeaders(f: PrintedFile) {
    OneLine(f.oldHeader) && OneLine(f.newHeader)
  }

  /** The new header is not blank, and no deleted line reads as a header. */
  predicate PrintableFile(f: PrintedFile) {
    OneLineHeaders(f) && Trim(f.newHeader) != "" && AllPrintable(f.hunks)
  }

  predicate AllFilesPrintable(files: seq<PrintedFile>) {
    forall i :: 0 <= i < |files| ==> PrintableFile(files[i])
  }

  function FileText(f: PrintedFile): seq<string> {
    PatchLines(f.oldHeader, f.newHeader, f.hunks)
  }

  function FileTexts(files: seq<PrintedFile>): (pieces: seq<seq<string>>)
    ensures |pieces| == |files|
    ensures forall k {:trigger pieces[k]} :: 0 <= k < |files| ==> pieces[k] == FileText(files[k])
  {
    seq(|files|, k requires 0 <= k < |files| => FileText(files[k]))
  }

  function FilesText(files: seq<PrintedFile>): seq<string> {
    Concat(FileTexts(files))
  }

  /** The entry a printed file reads back as: its headers trimmed, its hunks unchanged. */
  function ReadBackAs(f: PrintedFile): FilePatch {
    FileOf(Trim(f.oldHeader), Trim(f.newHeader), f.hunks)
  }

  function AllReadBackAs(files: seq<PrintedFile>): seq<FilePatch> {
    if files == [] then [] else AllReadBackAs(files[..|files| - 1]) + [ReadBackAs(files[|files| - 1])]
  }

  lemma HeaderLine(prefix: string, header: string)
    ensures StartsWith(prefix + header, prefix) && After(prefix + header, prefix) == Some(header)
  {
    AfterAppended(prefix, header);
    StartsWithPrefix(prefix + header, prefix);
  }

  /** Lines i and i + 1 are the headers of f, and its hunks end before line next. */
  ghost predicate FileReads(lines: seq<string>, i: nat, f: PrintedFile, start: nat, next: nat) {
    && i + 2 <= |lines| && After(lines[i], "--- ") == Some(f.oldHeader) &&
        After(lines[i + 1], "+++ ") == Some(f.newHeader)
    && Trim(f.newHeader) != ""
    && SkipDecoration(lines, i + 2) == Ok(start) && start <= |lines|
    && ParseHunks(lines, start, []) == Ok((f.hunks, next))
  }

  lemma ParseFilesStep(lines: seq<string>, i: nat, f: PrintedFile, start: nat, next: nat, acc: seq<FilePatch>)
    requires FileReads(lines, i, f, start, next)
    ensures ParseFiles(lines, i, acc) == ParseFiles(lines, next, acc + [ReadBackAs(f)])
  {
  }

  /** A printed file ends at the next file's header, or at the empty last piece of the text. */
  predicate EndsFile(lines: seq<string>, i: nat) {
    i < |lines| && (StartsWith(lines[i], "--- ") || (lines[i] == "" && i == |lines| - 1))
  }

  lemma EndsFileEndsHunks(lines: seq<string>, i: nat)
    requires EndsFile(lines, i)
    ensures EndsHunks(lines, i)
  {
    if lines[i] != "" {
      FileHeaderIsNoHunkLine(lines[i]);
    }
  }

  /** Where the hunks of a printed file start. */
  lemma HunksStart(lines: seq<string>, i: nat, hunks: seq<Hunk>)
    requires hunks != [] && At(lines, i, HunksText(hunks))
    ensures SkipDecoration(lines, i) == Ok(i)
  {
    var at := LayOutAll(lines, i, HunkTexts(hunks));
    AtFirst(lines, i, HunkTexts(hunks)[0]);
    HeaderIsHunkLine(hunks[0]);
  }

  lemma HeaderLinesAt(lines: seq<string>, i: nat, f: PrintedFile)
    requires At(lines, i, FileText(f))
    ensures i + 2 <= |lines| && At(lines, i + 2, HunksText(f.hunks))
    ensures After(lines[i], "--- ") == Some(f.oldHeader) && After(lines[i + 1], "+++ ") == Some(f.newHeader)
    ensures lines[i + 1] != "" && lines[i + 1][0] == '+'
  {
    var headers := ["--- " + f.oldHeader, "+++ " + f.newHeader];
    AtSplit(lines, i, headers, HunksText(f.hunks));
    assert lines[i + 0] == headers[0] && lines[i + 1] == headers[1];
    HeaderLine("--- ", f.oldHeader);
    HeaderLine("+++ ", f.newHeader);
  }

  lemma PrintedFileReads(lines: seq<string>, i: nat, f: PrintedFile, next: nat)
    requires At(lines, i, FileText(f)) && PrintableFile(f) && f.hunks != []
    requires next == i + |FileText(f)| && next <= |lines| && EndsHunks(lines, next)
    ensures FileReads(lines, i, f, i + 2, next)
  {
    HeaderLinesAt(lines, i, f);
    HunksStart(lines, i + 2, f.hunks);
    ParsePrintedHunks(lines, i + 2, f.hunks, next);
  }

  /** One printed file with hunks, followed by a line that is none. */
  lemma ParsePrintedFileUpTo(lines: seq<string>, i: nat, f: PrintedFile, next: nat, acc: seq<FilePatch>)
    requires At(lines, i, FileText(f)) && PrintableFile(f) && f.hunks != []
    requires next == i + |FileText(f)| && next <= |lines| && EndsHunks(lines, next)
    ensures ParseFiles(lines, i, acc) == ParseFiles(lines, next, acc + [ReadBackAs(f)])
  {
    PrintedFileReads(lines, i, f, next);
    ParseFilesStep(lines, i, f, i + 2, next, acc);
  }

  /** One printed file, followed by another one or by the end of the text. */
  lemma ParsePrintedFile(lines: seq<string>, i: nat, f: PrintedFile, next: nat, acc: seq<FilePatch>)
    requires At(lines, i, FileText(f)) && PrintableFile(f) && next == i + |FileText(f)| && EndsFile(lines, next)
    ensures ParseFiles(lines, i, acc) == ParseFiles(lines, next, acc + [ReadBackAs(f)])
  {
    if f.hunks == [] {
      HeaderLinesAt(lines, i, f);
      FileWithoutHunks(lines, i, f, acc);
    } else {
      EndsFileEndsHunks(lines, next);
      ParsePrintedFileUpTo(lines, i, f, next, acc);
    }
  }

  lemma FileWithoutHunks(lines: seq<string>, i: nat, f: PrintedFile, acc: seq<FilePatch>)
    requires i + 2 < |lines| && f.hunks == [] && EndsFile(lines, i + 2)
    requires After(lines[i], "--- ") == Some(f.oldHeader) && After(lines[i + 1], "+++ ") == Some(f.newHeader)
    requires Trim(f.newHeader) != ""
    ensures ParseFiles(lines, i, acc) == ParseFiles(lines, i + 2, acc + [ReadBackAs(f)])
  {
    EndsFileEndsHunks(lines, i + 2);
    if StartsWith(lines[i + 2], "--- ") {
      ParseFilesStep(lines, i, f, i + 2, i + 2, acc);
    } else {
      assert SkipDecoration(lines, i + 2) == SkipDecoration(lines, i + 3);
      ParseFilesStep(lines, i, f, i + 3, i + 3, acc);
      assert ParseFiles(lines, i + 2, acc + [ReadBackAs(f)]) == ParseFiles(lines, i + 3, acc + [ReadBackAs(f)]);
    }
  }

  lemma EntriesSnoc(files: seq<PrintedFile>, k: nat)
    requires k < |files|
    ensures AllReadBackAs(files[..k + 1]) == AllReadBackAs(files[..k]) + [ReadBackAs(files[k])]
  {
    assert files[..k + 1][..k] == files[..k];
  }

  lemma FileEndsAtNext(lines: seq<string>, at: seq<nat>, files: seq<PrintedFile>, k: nat)
    requires Layout(lines, FileTexts(files), at) && 0 < k <= |files|
    requires at[|files|] == |lines| - 1 && lines[|lines| - 1] == ""
    ensures EndsFile(lines, at[k])
  {
    if k < |files| {
      AtFirst(lines, at[k], FileTexts(files)[k]);
      HeaderLine("--- ", files[k].oldHeader);
    }
  }

  lemma FilesAdvance(lines: seq<string>, i: nat, files: seq<PrintedFile>, k: nat, next: nat)
    requires k < |files| && At(lines, i, FileText(files[k])) && PrintableFile(files[k])
    requires next == i + |FileText(files[k])| && EndsFile(lines, next)
    ensures ParseFiles(lines, i, AllReadBackAs(files[..k])) == ParseFiles(lines, next, AllReadBackAs(files[..k + 1]))
  {
    ParsePrintedFile(lines, i, files[k], next, AllReadBackAs(files[..k]));
    EntriesSnoc(files, k);
  }

  lemma PrintedFileAt(lines: seq<string>, at: seq<nat>, files: seq<PrintedFile>, k: nat) returns (next: nat)
    requires Layout(lines, FileTexts(files), at) && k < |files|
    requires at[|files|] == |lines| - 1 && lines[|lines| - 1] == ""
    ensures next == at[k + 1] == at[k] + |FileText(files[k])|
    ensures At(lines, at[k], FileText(files[k])) && EndsFile(lines, next)
  {
    next := at[k + 1];
    assert At(lines, at[k], FileTexts(files)[k]);
    FileEndsAtNext(lines, at, files, k + 1);
  }

  lemma {:induction false} FollowFiles(lines: seq<string>, at: seq<nat>, files: seq<PrintedFile>, k: nat)
    requires k <= |files| && Layout(lines, FileTexts(files), at) && AllFilesPrintable(files)
    requires at[|files|] == |lines| - 1 && lines[|lines| - 1] == ""
    ensures at[k] <= |lines| && ParseFiles(lines, at[k], AllReadBackAs(files[..k])) == Ok(AllReadBackAs(files))
    decreases |files| - k
  {
    if k == |files| {
      assert files[..k] == files;
    } else {
      FollowFiles(lines, at, files, k + 1);
      var next := PrintedFileAt(lines, at, files, k);
      FilesAdvance(lines, at[k], files, k, next);
    }
  }

  // ----- Printed lines contain no newline of their own

  lemma HunkHeaderOneLine(h: Hunk)
    requires forall i :: 0 <= i < |h.section| ==> !IsLineTerminator(h.section[i])
    ensures OneLine(HunkHeader(h))
  {
    DecimalOneLine(h.oldStart);
    DecimalOneLine(h.oldCount);
    DecimalOneLine(h.newStart);
    DecimalOneLine(h.newCount);
    assert OneLine(FormatRange(h.oldStart, h.oldCount)) && OneLine(FormatRange(h.newStart, h.newCount));
    assert OneLine(h.section);
  }

  lemma AllOneLineConcat(s: seq<string>, t: seq<string>)
    requires AllOneLine(s) && AllOneLine(t)
    ensures AllOneLine(s + t)
  {
  }

  lemma {:induction false} ConcatOneLine(pieces: seq<seq<string>>, k: nat)
    requires forall i :: 0 <= i < |pieces| ==> AllOneLine(pieces[i])
    ensures AllOneLine(Concat(pieces, k))
    decreases |pieces| - k
  {
    if k < |pieces| {
      ConcatOneLine(pieces, k + 1);
      AllOneLineConcat(pieces[k], Concat(pieces, k + 1));
    }
  }

  lemma BodyOneLine(lines: seq<HunkLine>)
    requires forall i :: 0 <= i < |lines| ==> OneLine(lines[i].text)
    ensures AllOneLine(BodyText(lines))
  {
    ConcatOneLine(LineTexts(lines), 0);
  }

  predicate AllWellFormed(hunks: seq<Hunk>) {
    forall i :: 0 <= i < |hunks| ==> WellFormed(hunks[i])
  }

  lemma HunksOneLine(hunks: seq<Hunk>)
    requires AllWellFormed(hunks)
    ensures AllOneLine(HunksText(hunks))
  {
    forall i | 0 <= i < |hunks|
      ensures AllOneLine(HunkText(hunks[i]))
    {
      HunkHeaderOneLine(hunks[i]);
      BodyOneLine(hunks[i].lines);
      AllOneLineConcat([HunkHeader(hunks[i])], BodyText(hunks[i].lines));
    }
    ConcatOneLine(HunkTexts(hunks), 0);
  }

  lemma FilesOneLine(files: seq<PrintedFile>)
    requires forall i :: 0 <= i < |files| ==>
               OneLineHeaders(files[i]) && AllWellFormed(files[i].hunks)
    ensures AllOneLine(FilesText(files))
  {
    forall i | 0 <= i < |files|
      ensures AllOneLine(FileText(files[i]))
    {
      var headers := ["--- " + files[i].oldHeader, "+++ " + files[i].newHeader];
      assert AllOneLine(headers);
      HunksOneLine(files[i].hunks);
      AllOneLineConcat(headers, HunksText(files[i].hunks));
    }
    ConcatOneLine(FileTexts(files), 0);
  }

  /**
   * Print/parse inverse: the printed patches of any number of files, one after the other, parse
   * back to exactly those files, in order, with the same hunks, ranges and markers.
   */
  lemma ParsePrinted(files: seq<PrintedFile>)
    requires AllFilesPrintable(files)
    ensures Parsed(Lines(FilesText(files))) == Ok(AllReadBackAs(files))
  {
    FilesOneLine(files);
    var text := Lines(FilesText(files));
    SplitLines(FilesText(files), "");
    assert text + "" == text;
    var lines := FilesText(files) + [""];
    assert Split(text) == lines;
    assert At(lines, 0, FilesText(files));
    var at := LayOutAll(lines, 0, FileTexts(files));
    FollowFiles(lines, at, files, 0);
    assert files[..0] == [];
  }

  /** The patch text of several files is their patch texts one after the other. */
  lemma PrintedConcat(files: seq<PrintedFile>, more: seq<PrintedFile>)
    ensures Lines(FilesText(files + more)) == Lines(FilesText(files)) + Lines(FilesText(more))
  {
    assert FileTexts(files + more) == FileTexts(files) + FileTexts(more);
    ConcatAppend(FileTexts(files), FileTexts(more), 0);
    LinesConcat(FilesText(files), FilesText(more));
  }

  // ----- A line that reads as a header stops the parser

  lemma LineStops(lines: seq<string>, i: nat, body: seq<HunkLine>, k: nat)
    requires k < |body| && At(lines, i, LineText(body[k])) && ReadsAsHeader(body[k])
    ensures BodyFrom(lines, i, body, k).Err?
  {
    KeysGrow(body, k);
    AtFirst(lines, i, LineText(body[k]));
    HeaderLikeLineFails(body[k]);
  }

  lemma {:induction false} BodyStops(lines: seq<string>, at: seq<nat>, body: seq<HunkLine>, k: nat, bad: nat)
    requires k <= bad < |body| && Layout(lines, LineTexts(body), at) && ReadsAsHeader(body[bad])
    ensures at[k] <= |lines| && BodyFrom(lines, at[k], body, k).Err?
    decreases |body| - k
  {
    assert At(lines, at[k], LineTexts(body)[k]);
    if ReadsAsHeader(body[k]) {
      LineStops(lines, at[k], body, k);
    } else {
      BodyStops(lines, at, body, k + 1, bad);
      BodyAdvances(lines, at[k], body, k);
    }
  }

  lemma HeaderLikeLineFails(line: HunkLine)
    requires ReadsAsHeader(line)
    ensures var body := Prefix(line.kind) + line.text; body != NO_NL && BodyLine(body) == Err(HunkEndedEarly)
  {
    var body := Prefix(line.kind) + line.text;
    assert body[1..] == line.text && "--- "[1..] == "-- " && body[0] == '-' && NO_NL[0] == '\\';
  }

  lemma HunkStops(lines: seq<string>, i: nat, h: Hunk, acc: seq<Hunk>)
    requires At(lines, i, HunkText(h)) && WellFormed(h) && !PrintableLines(h.lines)
    ensures ParseHunks(lines, i, acc).Err?
  {
    AtSplit(lines, i, [HunkHeader(h)], BodyText(h.lines));
    AtFirst(lines, i, [HunkHeader(h)]);
    HeaderIsHunkLine(h);
    ParsePrintedHeader(h);
    var at := LayOutAll(lines, i + 1, LineTexts(h.lines));
    var bad :| 0 <= bad < |h.lines| && ReadsAsHeader(h.lines[bad]);
    BodyStops(lines, at, h.lines, 0, bad);
    assert h.lines[..0] == [];
  }

  lemma HunkStopsAt(lines: seq<string>, at: seq<nat>, hunks: seq<Hunk>, k: nat)
    requires Layout(lines, HunkTexts(hunks), at) && k < |hunks| && WellFormed(hunks[k]) &&
        !PrintableLines(hunks[k].lines)
    ensures at[k] <= |lines| && ParseHunks(lines, at[k], hunks[..k]).Err?
  {
    assert At(lines, at[k], HunkTexts(hunks)[k]);
    HunkStops(lines, at[k], hunks[k], hunks[..k]);
  }

  lemma PrintedHunkAdvances(lines: seq<string>, at: seq<nat>, hunks: seq<Hunk>, k: nat)
    requires Layout(lines, HunkTexts(hunks), at) && k + 1 < |hunks| && Printable(hunks[k])
    requires at[k + 1] <= |lines|
    ensures at[k] <= |lines| && ParseHunks(lines, at[k], hunks[..k]) == ParseHunks(lines, at[k + 1], hunks[..k + 1])
  {
    PrintedHunkAt(lines, at, hunks, k);
    HunksAdvance(lines, at[k], hunks, k, at[k + 1]);
  }

  lemma {:induction false} HunksStop(lines: seq<string>, at: seq<nat>, hunks: seq<Hunk>, k: nat, bad: nat)
    requires k <= bad < |hunks| && Layout(lines, HunkTexts(hunks), at) && AllWellFormed(hunks) && !Printable(hunks[bad])
    ensures at[k] <= |lines| && ParseHunks(lines, at[k], hunks[..k]).Err?
    decreases |hunks| - k
  {
    if Printable(hunks[k]) {
      HunksStop(lines, at, hunks, k + 1, bad);
      PrintedHunkAdvances(lines, at, hunks, k);
    } else {
      HunkStopsAt(lines, at, hunks, k);
    }
  }

  lemma SingleFile(f: PrintedFile)
    ensures FilesText([f]) == FileText(f)
  {
    assert FileTexts([f])[0] == FileText(f);
    assert Concat(FileTexts([f]), 1) == [];
  }

  lemma PrintedHunksStop(lines: seq<string>, i: nat, hunks: seq<Hunk>)
    requires At(lines, i, HunksText(hunks)) && AllWellFormed(hunks) && !AllPrintable(hunks)
    ensures i <= |lines| && ParseHunks(lines, i, []).Err?
  {
    var at := LayOutAll(lines, i, HunkTexts(hunks));
    var bad :| 0 <= bad < |hunks| && !Printable(hunks[bad]);
    HunksStop(lines, at, hunks, 0, bad);
    assert hunks[..0] == [];
  }

  lemma ParseFilesStops(lines: seq<string>, i: nat, oldHeader: string, newHeader: string, acc: seq<FilePatch>)
    requires i + 2 <= |lines| && After(lines[i], "--- ") == Some(oldHeader) &&
        After(lines[i + 1], "+++ ") == Some(newHeader)
    requires Trim(newHeader) != "" && SkipDecoration(lines, i + 2) == Ok(i + 2) && ParseHunks(lines, i + 2, []).Err?
    ensures ParseFiles(lines, i, acc).Err?
  {
  }

  /** A file that the parser can only fail on, for its blank new header or for a line that reads as a header. */
  predicate UnprintableFile(f: PrintedFile) {
    OneLineHeaders(f) && AllWellFormed(f.hunks) && !PrintableFile(f)
  }

  lemma PlusLineRefused(lines: seq<string>, i: nat)
    requires i < |lines| && lines[i] != "" && lines[i][0] == '+'
    ensures SkipDecoration(lines, i).Err?
  {
  }

  lemma ParseFilesRefuses(lines: seq<string>, i: nat, acc: seq<FilePatch>, header: string)
    requires i < |lines| && After(lines[i], "--- ") == Some(header) && NewHeaderAt(lines, i + 1) == ""
    requires SkipDecoration(lines, i + 1).Err?
    ensures ParseFiles(lines, i, acc).Err?
  {
  }

  /** A blank new header is not taken for one, and its line is no decoration either. */
  lemma BlankHeaderStops(lines: seq<string>, i: nat, f: PrintedFile, acc: seq<FilePatch>)
    requires At(lines, i, FileText(f)) && Trim(f.newHeader) == ""
    ensures i <= |lines| && ParseFiles(lines, i, acc).Err?
  {
    HeaderLinesAt(lines, i, f);
    PlusLineRefused(lines, i + 1);
    ParseFilesRefuses(lines, i, acc, f.oldHeader);
  }

  lemma DashedFileStops(lines: seq<string>, i: nat, f: PrintedFile, acc: seq<FilePatch>)
    requires At(lines, i, FileText(f)) && AllWellFormed(f.hunks) && !AllPrintable(f.hunks) && Trim(f.newHeader) != ""
    ensures i <= |lines| && ParseFiles(lines, i, acc).Err?
  {
    HeaderLinesAt(lines, i, f);
    HunksStart(lines, i + 2, f.hunks);
    PrintedHunksStop(lines, i + 2, f.hunks);
    ParseFilesStops(lines, i, f.oldHeader, f.newHeader, acc);
  }

  lemma PrintedFileStops(lines: seq<string>, i: nat, f: PrintedFile, acc: seq<FilePatch>)
    requires At(lines, i, FileText(f)) && UnprintableFile(f)
    ensures i <= |lines| && ParseFiles(lines, i, acc).Err?
  {
    if Trim(f.newHeader) == "" {
      BlankHeaderStops(lines, i, f, acc);
    } else {
      DashedFileStops(lines, i, f, acc);
    }
  }

  lemma FileStopsAt(lines: seq<string>, at: seq<nat>, files: seq<PrintedFile>, k: nat)
    requires Layout(lines, FileTexts(files), at) && k < |files| && UnprintableFile(files[k])
    ensures at[k] <= |lines| && ParseFiles(lines, at[k], AllReadBackAs(files[..k])).Err?
  {
    assert At(lines, at[k], FileTexts(files)[k]);
    PrintedFileStops(lines, at[k], files[k], AllReadBackAs(files[..k]));
  }

  lemma PrintedFileAdvances(lines: seq<string>, at: seq<nat>, files: seq<PrintedFile>, k: nat)
    requires Layout(lines, FileTexts(files), at) && k < |files| && PrintableFile(files[k])
    requires at[|files|] == |lines| - 1 && lines[|lines| - 1] == ""
    ensures at[k] <= |lines| && at[k + 1] <= |lines|
    ensures ParseFiles(lines, at[k], AllReadBackAs(files[..k]))
         == ParseFiles(lines, at[k + 1], AllReadBackAs(files[..k + 1]))
  {
    var next := PrintedFileAt(lines, at, files, k);
    FilesAdvance(lines, at[k], files, k, next);
  }

  lemma {:induction false} FilesStop(lines: seq<string>, at: seq<nat>, files: seq<PrintedFile>, k: nat, bad: nat)
    requires k <= bad < |files| && Layout(lines, FileTexts(files), at) && UnprintableFile(files[bad])
    requires forall j :: 0 <= j < bad ==> PrintableFile(files[j])
    requires at[|files|] == |lines| - 1 && lines[|lines| - 1] == ""
    ensures at[k] <= |lines| && ParseFiles(lines, at[k], AllReadBackAs(files[..k])).Err?
    decreases bad - k
  {
    if k == bad {
      FileStopsAt(lines, at, files, k);
    } else {
      FilesStop(lines, at, files, k + 1, bad);
      PrintedFileAdvances(lines, at, files, k);
    }
  }

  lemma {:induction false} FirstUnprintable(files: seq<PrintedFile>, n: nat) returns (bad: nat)
    requires n <= |files| && exists i :: 0 <= i < n && !PrintableFile(files[i])
    ensures bad < n && !PrintableFile(files[bad]) && forall j :: 0 <= j < bad ==> PrintableFile(files[j])
  {
    if exists i :: 0 <= i < n - 1 && !PrintableFile(files[i]) {
      bad := FirstUnprintable(files, n - 1);
    } else {
      bad := n - 1;
    }
  }

  lemma PrintedLines(files: seq<PrintedFile>) returns (lines: seq<string>)
    requires forall i :: 0 <= i < |files| ==> OneLineHeaders(files[i]) && AllWellFormed(files[i].hunks)
    ensures lines == FilesText(files) + [""] == Split(Lines(FilesText(files))) && At(lines, 0, FilesText(files))
  {
    FilesOneLine(files);
    SplitLines(FilesText(files), "");
    assert Lines(FilesText(files)) + "" == Lines(FilesText(files));
    lines := FilesText(files) + [""];
  }

  /**
   * The printed patches of any list of files parse, to exactly those files, if and only if none of them
   * has a blank new header or a deleted line that reads as a header.
   */
  lemma PrintedParsesExactly(files: seq<PrintedFile>)
    requires forall i :: 0 <= i < |files| ==> OneLineHeaders(files[i]) && AllWellFormed(files[i].hunks)
    ensures if AllFilesPrintable(files) then Parsed(Lines(FilesText(files))) == Ok(AllReadBackAs(files))
            else Parsed(Lines(FilesText(files))).Err?
  {
    if AllFilesPrintable(files) {
      ParsePrinted(files);
    } else {
      var bad := FirstUnprintable(files, |files|);
      var lines := PrintedLines(files);
      var at := LayOutAll(lines, 0, FileTexts(files));
      FilesStop(lines, at, files, 0, bad);
      assert files[..0] == [];
    }
  }

  /** A patch with a blank new header, or a deleted line that reads as a header, does not parse at all. */
  lemma PrintedStops(f: PrintedFile)
    requires UnprintableFile(f)
    ensures Parsed(Lines(FileText(f))).Err?
  {
    SingleFile(f);
    PrintedParsesExactly([f]);
    assert [f][0] == f;
  }
}
