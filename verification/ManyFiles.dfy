/** Patches of several files in one text: which of them is applied for a path. */
module ManyFiles {
  import opened Text
  import opened LineModel
  import opened PatchFormat
  import opened PatchParse
  import opened PrintParse
  import opened PatchApply
  import opened RoundTrip

  datatype Change = Change(path: string, oldContent: string, newContent: string)

  ghost function PatchOf(c: Change, context: Option<nat>): string {
    UnifiedPatch(c.path, c.oldContent, c.newContent, WithContext(context))
  }

  ghost function PatchTexts(cs: seq<Change>, context: Option<nat>): (texts: seq<string>)
    ensures |texts| == |cs|
    ensures forall k {:trigger texts[k]} :: 0 <= k < |cs| ==> texts[k] == PatchOf(cs[k], context)
  {
    seq(|cs|, k requires 0 <= k < |cs| => PatchOf(cs[k], context))
  }

  /** The patches of all changes, one after the other. */
  ghost function Patches(cs: seq<Change>, context: Option<nat>): string {
    Concat(PatchTexts(cs, context))
  }

  ghost predicate AllApply(cs: seq<Change>) {
    forall i :: 0 <= i < |cs| ==> OneLine(cs[i].path) && Applies(cs[i].path, cs[i].oldContent, cs[i].newContent)
  }

  ghost function Printed(c: Change, context: Option<nat>): PrintedFile {
    PrintedAs(c.path, PatchHunks(c.oldContent, c.newContent, Context(WithContext(context))))
  }

  ghost function AllPrinted(cs: seq<Change>, context: Option<nat>): (files: seq<PrintedFile>)
    ensures |files| == |cs|
    ensures forall k {:trigger files[k]} :: 0 <= k < |cs| ==> files[k] == Printed(cs[k], context)
  {
    seq(|cs|, k requires 0 <= k < |cs| => Printed(cs[k], context))
  }

  /** A change whose patch can be applied prints as a file entry, which reads back under its own path. */
  lemma PrintsAsFile(c: Change, context: Option<nat>)
    requires OneLine(c.path) && Applies(c.path, c.oldContent, c.newContent)
    ensures PatchOf(c, context) == Lines(FileText(Printed(c, context))) && PrintableFile(Printed(c, context))
    ensures var e := ReadBackAs(Printed(c, context)); e.filePath == TrimEnd(c.path) && !e.isDelete
  {
    var n := Context(WithContext(context));
    NoHunks(KeyLines(c.oldContent), KeyLines(c.newContent), n);
    ScriptOfContents(c.oldContent, c.newContent);
    HunksPrintable(ScriptOf(c.oldContent, c.newContent), n);
    HeaderNames(c.path);
  }

  lemma {:induction false} ConcatPrinted(texts: seq<string>, files: seq<PrintedFile>, k: nat)
    requires |texts| == |files| && forall i :: 0 <= i < |files| ==> texts[i] == Lines(FileText(files[i]))
    ensures Concat(texts, k) == Lines(Concat(FileTexts(files), k))
    decreases |files| - k
  {
    if k < |files| {
      ConcatPrinted(texts, files, k + 1);
      LinesConcat(FileTexts(files)[k], Concat(FileTexts(files), k + 1));
    }
  }

  lemma {:induction false} EntriesOfAt(files: seq<PrintedFile>, i: nat)
    requires i < |files|
    ensures |AllReadBackAs(files)| == |files| && AllReadBackAs(files)[i] == ReadBackAs(files[i])
    decreases |files|
  {
    var init := files[..|files| - 1];
    if i < |init| {
      EntriesOfAt(init, i);
    } else {
      EntriesOfLength(init);
    }
  }

  lemma {:induction false} EntriesOfLength(files: seq<PrintedFile>)
    ensures |AllReadBackAs(files)| == |files|
    decreases |files|
  {
    if files != [] {
      EntriesOfLength(files[..|files| - 1]);
    }
  }

  /**
   * The first change whose path is the wanted one, ends with it after a slash, or is an end of it; or
   * the number of changes.
   */
  function FirstMatch(cs: seq<Change>, path: string, i: nat): (k: nat)
    requires i <= |cs|
    ensures i <= k <= |cs|
    decreases |cs| - i
  {
    if i == |cs| || path == "" || NamesFile(TrimEnd(cs[i].path), path) then i else FirstMatch(cs, path, i + 1)
  }

  lemma {:induction false} FindsFirstMatch(entries: seq<FilePatch>, cs: seq<Change>, path: string, i: nat)
    requires i <= |cs| == |entries| && forall j :: 0 <= j < |cs| ==> entries[j].filePath == TrimEnd(cs[j].path)
    ensures var k := FirstMatch(cs, path, i);
            FindEntry(entries, path, i) == if k == |cs| then None else Some(entries[k])
    decreases |cs| - i
  {
    if i < |cs| && path != "" && !NamesFile(entries[i].filePath, path) {
      FindsFirstMatch(entries, cs, path, i + 1);
    }
  }

  lemma PatchesParse(texts: seq<string>, files: seq<PrintedFile>)
    requires |texts| == |files| && AllFilesPrintable(files)
    requires forall i :: 0 <= i < |files| ==> texts[i] == Lines(FileText(files[i]))
    ensures Parsed(Concat(texts)) == Ok(AllReadBackAs(files))
  {
    ConcatPrinted(texts, files, 0);
    ParsePrinted(files);
  }

  lemma AllPrint(cs: seq<Change>, context: Option<nat>) returns (files: seq<PrintedFile>)
    requires AllApply(cs)
    ensures |files| == |cs| && AllFilesPrintable(files) && Parsed(Patches(cs, context)) == Ok(AllReadBackAs(files))
    ensures forall i :: 0 <= i < |cs| ==> files[i] == Printed(cs[i], context)
    ensures forall i :: 0 <= i < |cs| ==>
      ReadBackAs(files[i]).filePath == TrimEnd(cs[i].path) && !ReadBackAs(files[i]).isDelete
  {
    files := AllPrinted(cs, context);
    var texts := PatchTexts(cs, context);
    forall i | 0 <= i < |cs|
      ensures texts[i] == Lines(FileText(files[i])) && PrintableFile(files[i])
      ensures ReadBackAs(files[i]).filePath == TrimEnd(cs[i].path) && !ReadBackAs(files[i]).isDelete
    {
      PrintsAsFile(cs[i], context);
    }
    PatchesParse(texts, files);
  }

  /** What the patch of one change does to a content, applied for its own path. */
  lemma OwnPatch(c: Change, context: Option<nat>, content: string)
    requires OneLine(c.path) && Applies(c.path, c.oldContent, c.newContent)
    ensures Patched(content, PatchOf(c, context), c.path) == AppliedEntry(content, ReadBackAs(Printed(c, context)))
  {
    var f := Printed(c, context);
    PrintsAsFile(c, context);
    ParsePrinted([f]);
    SingleFile(f);
    EntriesOfAt([f], 0);
    assert AllReadBackAs([f]) == [ReadBackAs(f)];
    EntryFound(c.path, ReadBackAs(f));
    PatchedByEntry(content, PatchOf(c, context), c.path, ReadBackAs(f));
  }

  /**
   * Applying the patches of several files for a path does what the first of them does that matches the
   * path, applied for its own path; and it fails if none matches.
   */
  lemma FirstMatchApplies(cs: seq<Change>, context: Option<nat>, path: string, content: string)
    requires AllApply(cs)
    ensures var k := FirstMatch(cs, path, 0);
            Patched(content, Patches(cs, context), path)
            == if k == |cs| then Err(NoEntry) else Patched(content, PatchOf(cs[k], context), cs[k].path)
  {
    var k, text := FirstMatch(cs, path, 0), Patches(cs, context);
    var files := AllPrint(cs, context);
    EntriesOfLength(files);
    forall i | 0 <= i < |cs| ensures AllReadBackAs(files)[i] == ReadBackAs(files[i]) {
      EntriesOfAt(files, i);
    }
    FindsFirstMatch(AllReadBackAs(files), cs, path, 0);
    if k < |cs| {
      PatchedByEntry(content, text, path, AllReadBackAs(files)[k]);
      OwnPatch(cs[k], context, content);
    }
  }

  /** The round trip for several files: the k-th gets its new content if no earlier path matches its own. */
  lemma RoundTripOfMany(cs: seq<Change>, context: Option<nat>, k: nat)
    requires AllApply(cs) && k < |cs| && MarkerFree(cs[k].newContent) && FirstMatch(cs, cs[k].path, 0) == k
    ensures Patched(cs[k].oldContent, Patches(cs, context), cs[k].path) == Ok(cs[k].newContent)
  {
    FirstMatchApplies(cs, context, cs[k].path, cs[k].oldContent);
    RoundTripExactly(cs[k].path, cs[k].oldContent, cs[k].newContent, context);
  }

  /** An earlier "b.ts" is taken for "ab.ts": the wanted path only has to end with the entry's. */
  lemma SuffixIsTaken(cs: seq<Change>)
    requires |cs| >= 2 && cs[0].path == "b.ts" && cs[1].path == "ab.ts"
    ensures FirstMatch(cs, cs[1].path, 0) == 0
  {
    assert "ab.ts"[1..] == "b.ts";
    assert TrimEnd("b.ts") == "b.ts";
  }
}
