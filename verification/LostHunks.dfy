/** Where the parser is not strict: a stray line behind a hunk loses the rest of the file's patch. */
module LostHunks {
  import opened EditScript
  import opened Text
  import opened LineModel
  import opened Hunks
  import opened PatchText
  import opened PatchFormat
  import opened PatchParse
  import opened PrintParse
  import opened PatchApply
  import opened RoundTrip

  /** A line that starts neither a hunk nor a file's entry, and is no marker: a blank one, for instance. */
  predicate Stray(line: string) {
    OneLine(line) && !StartsWith(line, "@@ ") && line != NO_NL && StartsNothing(line)
  }

  predicate StartsNothing(line: string) {
    After(line, "--- ").None? && !StartsWith(line, "Binary files ")
  }

  predicate AllStartNothing(lines: seq<string>) {
    forall i :: 0 <= i < |lines| ==> StartsNothing(lines[i])
  }

  lemma AllStartNothingJoin(a: seq<string>, b: seq<string>)
    requires AllStartNothing(a) && AllStartNothing(b)
    ensures AllStartNothing(a + b)
  {
  }

  lemma FirstCharDecides(line: string)
    requires line != "" && line[0] != '-' && line[0] != 'B'
    ensures StartsNothing(line)
  {
    StartsWithPrefix(line, "--- ");
    StartsWithPrefix(line, "Binary files ");
  }

  lemma LineTextStartsNothing(line: HunkLine)
    requires !ReadsAsHeader(line)
    ensures AllStartNothing(LineText(line))
  {
    var body := Prefix(line.kind) + line.text;
    FirstCharDecides(NO_NL);
    if line.kind != Delete {
      FirstCharDecides(body);
    } else {
      assert body[1..] == line.text;
      assert "--- "[1..] == "-- ";
      assert body[0] == '-';
      assert !StartsWith(body, "Binary files ");
      assert !StartsWith(body, "--- ");
    }
  }

  lemma {:induction false} ConcatStartsNothing(pieces: seq<seq<string>>, k: nat)
    requires forall i :: 0 <= i < |pieces| ==> AllStartNothing(pieces[i])
    ensures AllStartNothing(Concat(pieces, k))
    decreases |pieces| - k
  {
    if k < |pieces| {
      ConcatStartsNothing(pieces, k + 1);
      AllStartNothingJoin(pieces[k], Concat(pieces, k + 1));
    }
  }

  lemma HunkTextStartsNothing(h: Hunk)
    requires Printable(h)
    ensures AllStartNothing(HunkText(h))
  {
    forall i | 0 <= i < |h.lines| ensures AllStartNothing(LineText(h.lines[i])) {
      LineTextStartsNothing(h.lines[i]);
    }
    ConcatStartsNothing(LineTexts(h.lines), 0);
    assert HunkHeader(h)[0] == '@';
    FirstCharDecides(HunkHeader(h));
    AllStartNothingJoin([HunkHeader(h)], BodyText(h.lines));
  }

  lemma HunksTextStartsNothing(hunks: seq<Hunk>)
    requires AllPrintable(hunks)
    ensures AllStartNothing(HunksText(hunks))
  {
    forall i | 0 <= i < |hunks| ensures AllStartNothing(HunkText(hunks[i])) {
      HunkTextStartsNothing(hunks[i]);
    }
    ConcatStartsNothing(HunkTexts(hunks), 0);
  }

  lemma RestDropped(head: seq<string>, rest: seq<string>)
    requires rest != [] && AllStartNothing(rest) && !StartsWith(rest[0], "@@ ") && rest[0] != NO_NL
    ensures Dropped(head + rest, |head|, |head + rest|) && EndsHunks(head + rest, |head|)
  {
    forall k | |head| <= k < |head + rest| ensures StartsNothing((head + rest)[k]) {
      assert (head + rest)[k] == rest[k - |head|];
    }
  }

  lemma NothingLeft(lines: seq<string>, acc: seq<FilePatch>)
    ensures ParseFiles(lines, |lines|, acc) == Ok(acc)
  {
  }

  /** A printed file, and then lines that start nothing, the first of them not even a hunk. */
  lemma RestIsLost(f: PrintedFile, rest: seq<string>)
    requires PrintableFile(f) && f.hunks != []
    requires rest != [] && AllStartNothing(rest) && !StartsWith(rest[0], "@@ ") && rest[0] != NO_NL
    ensures ParseFiles(FileText(f) + rest, 0, []) == Ok([ReadBackAs(f)])
  {
    var lines := FileText(f) + rest;
    RestDropped(FileText(f), rest);
    assert At(lines, 0, FileText(f));
    ParsePrintedFileUpTo(lines, 0, f, |FileText(f)|, []);
    assert [] + [ReadBackAs(f)] == [ReadBackAs(f)];
    DroppedIgnored(lines, |FileText(f)|, |lines|, [ReadBackAs(f)]);
    NothingLeft(lines, [ReadBackAs(f)]);
  }

  /** The lines behind the first hunks: the stray one and the text of the others. */
  function Behind(stray: string, more: seq<Hunk>): seq<string> {
    [stray] + HunksText(more)
  }

  /** The printed file with some hunks cut off by a stray line. */
  function Interrupted(f: PrintedFile, stray: string, more: seq<Hunk>): string {
    Lines(FileText(f) + Behind(stray, more))
  }

  lemma BehindStartsNothing(stray: string, more: seq<Hunk>)
    requires Stray(stray) && AllPrintable(more)
    ensures AllStartNothing(Behind(stray, more) + [""])
  {
    HunksTextStartsNothing(more);
    AllStartNothingJoin([stray], HunksText(more));
    AllStartNothingJoin(Behind(stray, more), [""]);
  }

  lemma InterruptedLines(f: PrintedFile, stray: string, more: seq<Hunk>)
    requires PrintableFile(f) && Stray(stray) && AllPrintable(more)
    ensures Split(Interrupted(f, stray, more)) == FileText(f) + (Behind(stray, more) + [""])
  {
    FilesOneLine([f]);
    SingleFile(f);
    HunksOneLine(more);
    AllOneLineConcat([stray], HunksText(more));
    AllOneLineConcat(FileText(f), Behind(stray, more));
    SplitLines(FileText(f) + Behind(stray, more), "");
    assert Interrupted(f, stray, more) + "" == Interrupted(f, stray, more);
    Associate(FileText(f), Behind(stray, more), [""]);
  }

  /**
   * A stray line between two hunks of a file, a blank one for instance, drops all hunks behind it without
   * an error: the text parses to the file with only the hunks before the stray line.
   */
  lemma StrayLineLosesHunks(f: PrintedFile, stray: string, more: seq<Hunk>)
    requires PrintableFile(f) && f.hunks != [] && Stray(stray) && AllPrintable(more)
    ensures Parsed(Interrupted(f, stray, more)) == Ok([ReadBackAs(f)])
  {
    InterruptedLines(f, stray, more);
    BehindStartsNothing(stray, more);
    RestIsLost(f, Behind(stray, more) + [""]);
  }

  // ----- Half a patch is applied

  lemma FitsPart(keyed: seq<string>, hunks: seq<Hunk>, k: nat)
    requires Fits(keyed, hunks) && k <= |hunks|
    ensures Fits(keyed, hunks[..k])
  {
    forall i | 0 <= i < k ensures FitsAt(keyed, hunks[..k], i) {
      assert FitsAt(keyed, hunks, i);
    }
  }

  lemma FirstHunksApply(oldContent: string, newContent: string, context: nat, k: nat)
    requires NoDeletedDashes(ScriptOf(oldContent, newContent)) && k <= |PatchHunks(oldContent, newContent, context)|
    ensures var hunks := PatchHunks(oldContent, newContent, context);
            && AllPrintable(hunks[..k]) && AllPrintable(hunks[k..])
            && ApplyHunks(KeyLines(oldContent), hunks[..k], 0, 0, []) == Ok(Splice(KeyLines(oldContent), hunks[..k]))
  {
    var hunks := PatchHunks(oldContent, newContent, context);
    ScriptOfContents(oldContent, newContent);
    HunksPrintable(ScriptOf(oldContent, newContent), context);
    HunksFit(ScriptOf(oldContent, newContent), context);
    FitsPart(KeyLines(oldContent), hunks, k);
    ApplyExact(KeyLines(oldContent), hunks[..k]);
  }

  /**
   * The printed patch of a change with a stray line behind its k-th hunk applies without an error, and
   * makes only the first k of its changes.
   */
  lemma HalfPatchApplies(path: string, oldContent: string, newContent: string, context: nat, k: nat, stray: string)
    requires OneLine(path) && Applies(path, oldContent, newContent) && Stray(stray)
    requires 0 < k <= |PatchHunks(oldContent, newContent, context)|
    ensures var hunks := PatchHunks(oldContent, newContent, context);
            Patched(oldContent, Interrupted(PrintedAs(path, hunks[..k]), stray, hunks[k..]), path)
            == Ok(Unkey(Splice(KeyLines(oldContent), hunks[..k])))
  {
    var hunks := PatchHunks(oldContent, newContent, context);
    var f := PrintedAs(path, hunks[..k]);
    FirstHunksApply(oldContent, newContent, context, k);
    HeaderNames(path);
    StrayLineLosesHunks(f, stray, hunks[k..]);
    EntryApplies(oldContent, Interrupted(f, stray, hunks[k..]), path, ReadBackAs(f));
  }

  // ----- A patch of two hunks

  function Replacing(line: nat, before: string, after: string): Hunk {
    Hunk(line, 1, line, 1, [HunkLine(Delete, before, false), HunkLine(Insert, after, false)], "")
  }

  lemma ReplacingPrintable(line: nat, before: string, after: string)
    requires OneLine(before) && OneLine(after) && !StartsWith(before, "-- ")
    ensures Printable(Replacing(line, before, after))
  {
    var deleted, inserted := HunkLine(Delete, before, false), HunkLine(Insert, after, false);
    KeysSnoc([], deleted);
    KeysSnoc([deleted], inserted);
    assert [] + [deleted] == [deleted] && [deleted] + [inserted] == [deleted, inserted];
  }

  /** A blank line between two hunks: the text parses, and the second hunk is gone. */
  lemma BlankLineWitness()
    ensures var f := PrintedAs("f", [Replacing(1, "a", "b")]);
            Parsed(Interrupted(f, "", [Replacing(3, "c", "d")])) == Ok([ReadBackAs(f)])
  {
    HeaderNames("f");
    ReplacingPrintable(1, "a", "b");
    ReplacingPrintable(3, "c", "d");
    StrayLineLosesHunks(PrintedAs("f", [Replacing(1, "a", "b")]), "", [Replacing(3, "c", "d")]);
  }
}
