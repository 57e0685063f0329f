/** The law of the patch engine: applying the patch printed for a change reproduces the new bytes. */
module RoundTrip {
  import opened Text
  import opened LineModel
  import opened EditScript
  import opened LineScript
  import opened Hunks
  import opened PatchFormat
  import opened PatchParse
  import opened PrintParse
  import opened PatchApply

  // ----- The hunks of a script turn its old side into its new side

  lemma TakeOldSide(ops: seq<Op>, i: nat, j: nat)
    requires i <= j <= |ops|
    ensures |OldSide(ops[..i])| <= |OldSide(ops[..j])|
    ensures OldSide(ops[..j])[..|OldSide(ops[..i])|] == OldSide(ops[..i])
    ensures OldSide(ops[..j])[|OldSide(ops[..i])|..] == OldSide(ops[i..j])
  {
    CutScript(ops, i, j);
  }

  /** The last hunk of a group list, and the kept lines behind it. */
  lemma SpliceLast(ops: seq<Op>, context: nat, g: (nat, nat), prior: seq<Hunk>, c: nat)
    requires g.0 <= g.1 < |ops| && HunkTo(g, context, |ops|) <= c <= |ops| && Quiet(ops, HunkTo(g, context, |ops|), c)
    requires Splice(OldSide(ops[..HunkFrom(g, context)]), prior) == NewSide(ops[..HunkFrom(g, context)])
    ensures Splice(OldSide(ops[..c]), prior + [HunkOf(ops, context, g)]) == NewSide(ops[..c])
  {
    var h, start, end := HunkOf(ops, context, g), HunkFrom(g, context), HunkTo(g, context, |ops|);
    HunkPlace(ops, context, g);
    HunkLineSides(ops[start..end]);
    TakeOldSide(ops, start, c);
    TakeOldSide(ops, end, c);
    QuietSides(ops, end, c);
    CutScript(ops, start, end);
    CutScript(ops, end, c);
    assert (prior + [h])[..|prior|] == prior;
  }

  /** Behind the first n groups everything up to c is kept. */
  ghost predicate QuietAfter(ops: seq<Op>, context: nat, g: seq<(nat, nat)>, n: nat, c: nat)
    requires WithinScript(g, |ops|) && n <= |g| && c <= |ops|
  {
    if n == 0 then Quiet(ops, 0, c)
    else HunkTo(g[n - 1], context, |ops|) <= c && Quiet(ops, HunkTo(g[n - 1], context, |ops|), c)
  }

  lemma {:induction false} SpliceScript(ops: seq<Op>, context: nat, g: seq<(nat, nat)>, n: nat, c: nat)
    requires Separated(ops, context, g) && n <= |g| && c <= |ops| && QuietAfter(ops, context, g, n, c)
    ensures Splice(OldSide(ops[..c]), HunksOfGroups(ops, context, g, n)) == NewSide(ops[..c])
    decreases n
  {
    if n == 0 {
      QuietSides(ops, 0, c);
      assert ops[0..c] == ops[..c];
    } else {
      var last := g[n - 1];
      if n > 1 {
        HunkGap(ops, context, g[n - 2], last);
      }
      SpliceScript(ops, context, g, n - 1, HunkFrom(last, context));
      SpliceLast(ops, context, last, HunksOfGroups(ops, context, g, n - 1), c);
    }
  }

  /** Hunks of a script fit its old side. */
  lemma HunksFit(ops: seq<Op>, context: nat)
    ensures Fits(OldSide(ops), HunksOf(ops, context))
  {
    var hunks := HunksOf(ops, context);
    forall k | 0 <= k < |hunks|
      ensures FitsAt(OldSide(ops), hunks, k)
    {
      HunkHeaders(ops, context, k);
      if k > 0 {
        HunkHeaders(ops, context, k - 1);
        HunksApart(ops, context, k);
      }
    }
  }

  /** Applying a script's own hunks to its old side gives its new side, for every amount of context. */
  lemma ApplyOwnHunks(ops: seq<Op>, context: nat)
    ensures ApplyHunks(OldSide(ops), HunksOf(ops, context), 0, 0, []) == Ok(NewSide(ops))
  {
    var g := Groups(Changed(ops), context);
    HunksFit(ops, context);
    ApplyExact(OldSide(ops), HunksOf(ops, context));
    GroupsSeparate(ops, context);
    assert ops[..|ops|] == ops;
    SpliceScript(ops, context, g, |g|, |ops|);
  }

  // ----- Which hunks of a script can be printed and read back

  /** No deleted line of the script starts with "-- ". */
  ghost predicate NoDeletedDashes(ops: seq<Op>) {
    forall i :: 0 <= i < |ops| ==> !ReadsAsHeader(HunkLineOf(ops[i]))
  }

  ghost predicate OneLineOps(ops: seq<Op>) {
    forall i :: 0 <= i < |ops| ==> OneLine(ops[i].line)
  }

  lemma StripOneLine(line: string)
    requires OneLine(line)
    ensures OneLine(Strip(line))
  {
  }

  /** Hunk lines can be printed and read back exactly when their ops delete no dashes. */
  lemma SpanPrintable(span: seq<Op>)
    requires OneLineOps(span)
    ensures forall i :: 0 <= i < |HunkLinesOf(span)| ==> OneLine(HunkLinesOf(span)[i].text)
    ensures PrintableLines(HunkLinesOf(span)) <==> NoDeletedDashes(span)
  {
    var lines := HunkLinesOf(span);
    HunkLinesLength(span);
    forall i | 0 <= i < |span|
      ensures lines[i] == HunkLineOf(span[i]) && OneLine(lines[i].text)
    {
      HunkLineAt(span, i);
      StripOneLine(span[i].line);
    }
    if t :| 0 <= t < |span| && ReadsAsHeader(HunkLineOf(span[t])) {
      assert ReadsAsHeader(lines[t]);
    }
  }

  /** A hunk of a script is well formed, and printable exactly when its span deletes no dashes. */
  lemma HunkPrintable(ops: seq<Op>, context: nat, g: (nat, nat))
    requires g.0 <= g.1 < |ops| && OneLineOps(ops)
    ensures WellFormed(HunkOf(ops, context, g))
    ensures PrintableLines(HunkOf(ops, context, g).lines) <==>
            NoDeletedDashes(ops[HunkFrom(g, context)..HunkTo(g, context, |ops|)])
  {
    var span := ops[HunkFrom(g, context)..HunkTo(g, context, |ops|)];
    HunkLineSides(span);
    SpanPrintable(span);
  }

  /** An op outside every group is a kept line. */
  lemma OutsideGroups(ops: seq<Op>, context: nat, g: seq<(nat, nat)>, t: nat, n: nat)
    requires Separated(ops, context, g) && t < |ops| && n <= |g|
    requires forall i :: 0 <= i < |g| ==> t < g[i].0 || g[i].1 < t
    requires n == |g| || t < g[n].0
    ensures ops[t].kind == Equal
    decreases n
  {
    if n > 0 && t < g[n - 1].0 {
      OutsideGroups(ops, context, g, t, n - 1);
    }
  }

  lemma HunkAtPrintable(ops: seq<Op>, context: nat, i: nat)
    requires OneLineOps(ops) && i < |HunksOf(ops, context)|
    ensures var g, h := Groups(Changed(ops), context)[i], HunksOf(ops, context)[i];
            && g.0 <= g.1 < |ops| && WellFormed(h)
            && (PrintableLines(h.lines) <==> NoDeletedDashes(ops[HunkFrom(g, context)..HunkTo(g, context, |ops|)]))
  {
    var g := Groups(Changed(ops), context);
    GroupsSeparate(ops, context);
    HunkAt(ops, context, g, |g|, i);
    HunkPrintable(ops, context, g[i]);
  }

  lemma HunksWellFormed(ops: seq<Op>, context: nat)
    requires OneLineOps(ops)
    ensures AllWellFormed(HunksOf(ops, context))
    ensures NoDeletedDashes(ops) ==> AllPrintable(HunksOf(ops, context))
  {
    forall i | 0 <= i < |HunksOf(ops, context)|
      ensures WellFormed(HunksOf(ops, context)[i])
      ensures NoDeletedDashes(ops) ==> Printable(HunksOf(ops, context)[i])
    {
      HunkAtPrintable(ops, context, i);
    }
  }

  lemma DashesInSpan(ops: seq<Op>, start: nat, end: nat, t: nat)
    requires start <= t < end <= |ops| && ReadsAsHeader(HunkLineOf(ops[t]))
    ensures !NoDeletedDashes(ops[start..end])
  {
    assert ops[start..end][t - start] == ops[t];
  }

  /** A deletion of dashes shows up in some hunk, whatever the context. */
  lemma DeletedDashesShow(ops: seq<Op>, context: nat, t: nat)
    requires OneLineOps(ops) && t < |ops| && ReadsAsHeader(HunkLineOf(ops[t]))
    ensures !AllPrintable(HunksOf(ops, context))
  {
    var g := Groups(Changed(ops), context);
    GroupsSeparate(ops, context);
    if i :| 0 <= i < |g| && g[i].0 <= t <= g[i].1 {
      HunkAtPrintable(ops, context, i);
      DashesInSpan(ops, HunkFrom(g[i], context), HunkTo(g[i], context, |ops|), t);
      assert !Printable(HunksOf(ops, context)[i]);
    } else {
      OutsideGroups(ops, context, g, t, |g|);
    }
  }

  /** The hunks of a script can all be printed and read back exactly when it deletes no dashes. */
  lemma HunksPrintable(ops: seq<Op>, context: nat)
    requires OneLineOps(ops)
    ensures AllPrintable(HunksOf(ops, context)) <==> NoDeletedDashes(ops)
  {
    HunksWellFormed(ops, context);
    if t :| 0 <= t < |ops| && ReadsAsHeader(HunkLineOf(ops[t])) {
      DeletedDashesShow(ops, context, t);
    }
  }

  // ----- Scripts of keyed lines

  lemma {:induction false} OpLineShown(ops: seq<Op>, i: nat)
    requires i < |ops|
    ensures ops[i].line in OldSide(ops) || ops[i].line in NewSide(ops)
  {
    if i < |ops| - 1 {
      OpLineShown(ops[..|ops| - 1], i);
    }
  }

  lemma ScriptOneLine(a: seq<string>, b: seq<string>)
    requires AllOneLine(a) && AllOneLine(b)
    ensures OneLineOps(Script(a, b))
  {
    ScriptVerdict(a, b);
    forall i | 0 <= i < |Script(a, b)|
      ensures OneLine(Script(a, b)[i].line)
    {
      OpLineShown(Script(a, b), i);
    }
  }

  lemma {:induction false} FreeIsQuiet(ops: seq<Op>)
    requires Cost(ops) == 0
    ensures Quiet(ops, 0, |ops|) && Changed(ops) == []
  {
    if ops != [] {
      FreeIsQuiet(ops[..|ops| - 1]);
    }
  }

  lemma {:induction false} UnchangedIsQuiet(ops: seq<Op>)
    requires Changed(ops) == []
    ensures Quiet(ops, 0, |ops|)
  {
    if ops != [] {
      UnchangedIsQuiet(ops[..|ops| - 1]);
    }
  }

  lemma UnchangedKeeps(ops: seq<Op>)
    requires Changed(ops) == []
    ensures OldSide(ops) == NewSide(ops)
  {
    UnchangedIsQuiet(ops);
    QuietSides(ops, 0, |ops|);
    assert ops[0..|ops|] == ops;
  }

  /** There are no hunks exactly when the keyed files are the same. */
  lemma NoHunks(a: seq<string>, b: seq<string>, context: nat)
    ensures HunksOf(Script(a, b), context) == [] <==> a == b
  {
    var ops := Script(a, b);
    ScriptVerdict(a, b);
    GroupsSeparate(ops, context);
    if a == b {
      RunSides(Equal, a);
      assert Turns(Run(Equal, a), a, b);
      FreeIsQuiet(ops);
    } else if Changed(ops) == [] {
      UnchangedKeeps(ops);
    }
  }

  // ----- The path a printed header reads back as

  lemma TrimHeader(side: char, path: string)
    requires side == 'a' || side == 'b'
    ensures Trim([side] + "/" + path) == [side] + "/" + TrimEnd(path)
  {
    var s := [side] + "/" + path;
    assert s[0] == side && !IsSpace(side);
    assert TrimStart(s) == s;
    TrimEndBehind([side] + "/", path);
  }

  lemma StripHeader(side: char, name: string)
    requires side == 'a' || side == 'b'
    ensures var t := [side] + "/" + name; t != "" && t != "/dev/null" && StripSide(t) == name
  {
    var t := [side] + "/" + name;
    assert t[0] == side && "/dev/null"[0] == '/' && "a/"[0] == 'a' && "b/"[0] == 'b';
    AfterAppended([side] + "/", name);
    if side == 'b' {
      assert After(t, "a/") == None;
    }
  }

  lemma HeaderNames(path: string)
    ensures Trim("b/" + path) != "" && Trim("b/" + path) != "/dev/null"
    ensures StripSide(Trim("b/" + path)) == TrimEnd(path)
  {
    TrimHeader('b', path);
    StripHeader('b', TrimEnd(path));
    assert ['b'] + "/" + path == "b/" + path;
  }

  /** The old header names the path too; that is what counts when the new one is /dev/null. */
  lemma OldHeaderNames(path: string)
    ensures Trim("a/" + path) != "" && Trim("a/" + path) != "/dev/null"
    ensures StripSide(Trim("a/" + path)) == TrimEnd(path)
  {
    TrimHeader('a', path);
    StripHeader('a', TrimEnd(path));
    assert ['a'] + "/" + path == "a/" + path;
  }

  /** The path survives the trimming of its header line, or is nothing but white space. */
  predicate FindsItself(path: string) {
    TrimEnd(path) == path || TrimEnd(path) == ""
  }

  lemma EntryFound(path: string, entry: FilePatch)
    requires entry.filePath == TrimEnd(path)
    ensures FindEntry([entry], path) == if FindsItself(path) then Some(entry) else None
  {
    var found := TrimEnd(path);
    TrimEndStops(path);
    if found == "" {
      assert path[|path|..] == "" && EndsWith(path, found);
    } else if found != path {
      assert path != "" && IsSpace(path[|path| - 1]);
      assert path[|path| - |found|..][|found| - 1] == path[|path| - 1];
    }
    assert FindEntry([entry], path, 1) == None;
  }

  /** A patch with these headers reads back as an entry that is found for the path. */
  predicate HeadersFind(path: string, oldHeader: string, newHeader: string) {
    Trim(newHeader) != "" && (path == "" || NamesFile(FileOf(Trim(oldHeader), Trim(newHeader), []).filePath, path))
  }

  lemma DefaultHeadersFind(path: string)
    ensures HeadersFind(path, "a/" + path, "b/" + path) <==> FindsItself(path)
  {
    var entry := FileOf(Trim("a/" + path), Trim("b/" + path), []);
    HeaderNames(path);
    EntryFound(path, entry);
    assert FindEntry([entry], path, 1) == None;
  }

  // ----- The law, and exactly when it holds

  ghost function ScriptOf(oldContent: string, newContent: string): seq<Op> {
    Script(KeyLines(oldContent), KeyLines(newContent))
  }

  /** The conditions under which the patch printed for a change can be applied to its old file. */
  ghost predicate Applies(path: string, oldContent: string, newContent: string) {
    && !LooksBinary(oldContent) && !LooksBinary(newContent)
    && KeyLines(oldContent) != KeyLines(newContent)
    && NoDeletedDashes(ScriptOf(oldContent, newContent))
    && FindsItself(path)
  }

  /** The conditions under which a change survives being printed as a patch and applied again. */
  ghost predicate Survives(path: string, oldContent: string, newContent: string) {
    Applies(path, oldContent, newContent) && MarkerFree(newContent)
  }

  function WithContext(context: Option<nat>): FormatOptions {
    FormatOptions(context, None, None)
  }

  function PrintedAs(path: string, hunks: seq<Hunk>): PrintedFile {
    PrintedFile("a/" + path, "b/" + path, hunks)
  }

  lemma EmptyPatch(oldContent: string, path: string)
    ensures Patched(oldContent, "", path).Err?
  {
    assert Split("") == [""];
    assert ParseFiles([""], 0, []) == ParseFiles([""], 1, []);
  }

  /** The note for binary files is not taken for a patch. */
  lemma BinaryPatch(oldContent: string, path: string)
    requires OneLine(path)
    ensures Parsed(BinaryNote(path)) == Err(BinaryEntry)
    ensures Patched(oldContent, BinaryNote(path), path) == Err(BinaryEntry)
  {
    var note := BinaryNote(path);
    SplitLastLine(note);
    StartsWithPrefix(note, "Binary files ");
    assert note[..13] == "Binary files ";
    assert note[0] == 'B';
  }

  lemma ScriptOfContents(oldContent: string, newContent: string)
    ensures OneLineOps(ScriptOf(oldContent, newContent))
    ensures Turns(ScriptOf(oldContent, newContent), KeyLines(oldContent), KeyLines(newContent))
  {
    KeyLinesOneLine(oldContent);
    KeyLinesOneLine(newContent);
    ScriptOneLine(KeyLines(oldContent), KeyLines(newContent));
    ScriptVerdict(KeyLines(oldContent), KeyLines(newContent));
  }

  lemma ParsedAlone(f: PrintedFile)
    requires PrintableFile(f)
    ensures Parsed(Lines(FileText(f))) == Ok([ReadBackAs(f)])
  {
    ParsePrinted([f]);
    SingleFile(f);
    assert [f][..0] == [] && AllReadBackAs([]) == [];
    assert AllReadBackAs([f]) == [ReadBackAs(f)];
  }

  lemma OnlyEntryApplies(oldContent: string, patch: string, path: string, entry: FilePatch)
    requires Parsed(patch) == Ok([entry])
    ensures Patched(oldContent, patch, path)
         == if path == "" || NamesFile(entry.filePath, path) then AppliedEntry(oldContent, entry) else Err(NoEntry)
  {
    assert FindEntry([entry], path, 1) == None;
  }

  lemma EntryApplies(oldContent: string, patch: string, path: string, entry: FilePatch)
    requires Parsed(patch) == Ok([entry]) && entry.filePath == TrimEnd(path) && !entry.isDelete
    ensures Patched(oldContent, patch, path) ==
            if !FindsItself(path) then Err(NoEntry)
            else
              match ApplyHunks(KeyLines(oldContent), entry.hunks, 0, 0, [])
              case Ok(keys) => Ok(Unkey(keys))
              case Err(error) => Err(error)
  {
    EntryFound(path, entry);
  }

  /** What applying a patch gives that rewrites the file to the content: nothing, if it deletes the file. */
  function Rewritten(newHeader: string, newContent: string): string {
    if Trim(newHeader) == "/dev/null" then "" else Unkey(KeyLines(newContent))
  }

  ghost function PrintedUnder(path: string, oldContent: string, newContent: string,
          options: FormatOptions): PrintedFile
  {
    PrintedFile(OldHeader(path, options), NewHeader(path, options),
                PatchHunks(oldContent, newContent, Context(options)))
  }

  /** A patch that reads back: what applying it to its own old file gives. */
  lemma PrintedApplies(path: string, oldContent: string, newContent: string, options: FormatOptions)
    requires OneLineHeaders(PrintedUnder(path, oldContent, newContent, options))
    requires NoDeletedDashes(ScriptOf(oldContent, newContent)) && Trim(NewHeader(path, options)) != ""
    ensures Patched(oldContent, Lines(FileText(PrintedUnder(path, oldContent, newContent, options))), path)
         == if HeadersFind(path, OldHeader(path, options), NewHeader(path, options))
            then Ok(Rewritten(NewHeader(path, options), newContent)) else Err(NoEntry)
  {
    var f := PrintedUnder(path, oldContent, newContent, options);
    ScriptOfContents(oldContent, newContent);
    HunksPrintable(ScriptOf(oldContent, newContent), Context(options));
    ParsedAlone(f);
    OnlyEntryApplies(oldContent, Lines(FileText(f)), path, ReadBackAs(f));
    ApplyOwnHunks(ScriptOf(oldContent, newContent), Context(options));
  }

  /** The parser refuses a patch that has a blank new header or deletes a line starting with "-- ". */
  lemma UnreadableRefused(path: string, oldContent: string, newContent: string, options: FormatOptions)
    requires OneLineHeaders(PrintedUnder(path, oldContent, newContent, options))
    requires !NoDeletedDashes(ScriptOf(oldContent, newContent)) || Trim(NewHeader(path, options)) == ""
    ensures Parsed(Lines(FileText(PrintedUnder(path, oldContent, newContent, options)))).Err?
  {
    ScriptOfContents(oldContent, newContent);
    HunksPrintable(ScriptOf(oldContent, newContent), Context(options));
    HunksWellFormed(ScriptOf(oldContent, newContent), Context(options));
    PrintedStops(PrintedUnder(path, oldContent, newContent, options));
  }

  /** The conditions under which a patch printed with these headers can be applied to its old file. */
  ghost predicate AppliesUnder(path: string, oldContent: string, newContent: string, oldHeader: string,
          newHeader: string) {
    && !LooksBinary(oldContent) && !LooksBinary(newContent)
    && KeyLines(oldContent) != KeyLines(newContent)
    && NoDeletedDashes(ScriptOf(oldContent, newContent))
    && HeadersFind(path, oldHeader, newHeader)
  }

  /** With any headers: the printed patch applies to its old file exactly when `AppliesUnder` says so, and how. */
  lemma PrintedOutcomeUnder(path: string, oldContent: string, newContent: string, options: FormatOptions)
    requires OneLine(path) && OneLineHeaders(PrintedUnder(path, oldContent, newContent, options))
    ensures var r := Patched(oldContent, UnifiedPatch(path, oldContent, newContent, options), path);
            if AppliesUnder(path, oldContent, newContent, OldHeader(path, options), NewHeader(path, options))
            then r == Ok(Rewritten(NewHeader(path, options), newContent)) else r.Err?
  {
    var a, b := KeyLines(oldContent), KeyLines(newContent);
    if oldContent == newContent {
      EmptyPatch(oldContent, path);
    } else if LooksBinary(oldContent) || LooksBinary(newContent) {
      BinaryPatch(oldContent, path);
    } else {
      NoHunks(a, b, Context(options));
      if a == b {
        EmptyPatch(oldContent, path);
      } else if NoDeletedDashes(ScriptOf(oldContent, newContent)) && Trim(NewHeader(path, options)) != "" {
        PrintedApplies(path, oldContent, newContent, options);
      } else {
        UnreadableRefused(path, oldContent, newContent, options);
      }
    }
  }

  /**
   * The law of the engine for every pair of headers, such as /dev/null on either side. Applying the printed
   * patch gives the new file byte for byte if and only if it applies, and the new file is marker-free; or
   * empty, if the patch says that the file is deleted.
   */
  lemma RoundTripUnder(path: string, oldContent: string, newContent: string, options: FormatOptions)
    requires OneLine(path) && OneLine(OldHeader(path, options)) && OneLine(NewHeader(path, options))
    ensures var r := Patched(oldContent, UnifiedPatch(path, oldContent, newContent, options), path);
            r == Ok(newContent) <==>
            && AppliesUnder(path, oldContent, newContent, OldHeader(path, options), NewHeader(path, options))
            && (if Trim(NewHeader(path, options)) == "/dev/null" then newContent == "" else MarkerFree(newContent))
  {
    PrintedOutcomeUnder(path, oldContent, newContent, options);
    UnkeyKeyLines(newContent);
  }

  const DEV_NULL: string := "/dev/null"

  lemma DevNullTrimmed()
    ensures Trim(DEV_NULL) == DEV_NULL && OneLine(DEV_NULL)
  {
  }

  /** What is known of a change whose patch has hunks that read back. */
  ghost predicate Readable(oldContent: string, newContent: string) {
    && !LooksBinary(oldContent) && !LooksBinary(newContent) && KeyLines(oldContent) != KeyLines(newContent)
    && NoDeletedDashes(ScriptOf(oldContent, newContent))
  }

  lemma ReadsAlone(path: string, oldContent: string, newContent: string, options: FormatOptions)
    requires Readable(oldContent, newContent) && Trim(NewHeader(path, options)) != ""
    requires OneLineHeaders(PrintedUnder(path, oldContent, newContent, options))
    ensures Parsed(UnifiedPatch(path, oldContent, newContent, options))
         == Ok([ReadBackAs(PrintedUnder(path, oldContent, newContent, options))])
  {
    NoHunks(KeyLines(oldContent), KeyLines(newContent), Context(options));
    ScriptOfContents(oldContent, newContent);
    HunksPrintable(ScriptOf(oldContent, newContent), Context(options));
    ParsedAlone(PrintedUnder(path, oldContent, newContent, options));
  }

  /**
   * A patch to /dev/null reads back as a deletion under the file's own path, and applying it for that path
   * empties whatever is there; white space at the path's end is lost, and then it is not found.
   */
  lemma DeletionPatch(path: string, oldContent: string, newContent: string, context: Option<nat>, other: string)
    requires OneLine(path) && Readable(oldContent, newContent)
    ensures var options := FormatOptions(context, None, Some(DEV_NULL));
            var patch := UnifiedPatch(path, oldContent, newContent, options);
            && Parsed(patch)
            == Ok([FilePatch(TrimEnd(path), false, true, PatchHunks(oldContent, newContent, Context(options)))])
            && Patched(other, patch, path) == if FindsItself(path) then Ok("") else Err(NoEntry)
  {
    var options := FormatOptions(context, None, Some(DEV_NULL));
    var entry := FilePatch(TrimEnd(path), false, true, PatchHunks(oldContent, newContent, Context(options)));
    DevNullTrimmed();
    OldHeaderNames(path);
    ReadsAlone(path, oldContent, newContent, options);
    OnlyEntryApplies(other, UnifiedPatch(path, oldContent, newContent, options), path, entry);
    EntryFound(path, entry);
    assert FindEntry([entry], path, 1) == None;
  }

  /** A patch from /dev/null reads back as a new file under its own path. */
  lemma CreationPatch(path: string, oldContent: string, newContent: string, context: Option<nat>)
    requires OneLine(path) && Readable(oldContent, newContent)
    ensures var options := FormatOptions(context, Some(DEV_NULL), None);
            Parsed(UnifiedPatch(path, oldContent, newContent, options))
            == Ok([FilePatch(TrimEnd(path), true, false, PatchHunks(oldContent, newContent, Context(options)))])
  {
    DevNullTrimmed();
    HeaderNames(path);
    ReadsAlone(path, oldContent, newContent, FormatOptions(context, Some(DEV_NULL), None));
  }

  /** A patch made for a file in a directory is found by the name of the file in it. */
  lemma FoundInDirectory(dir: string, path: string, oldContent: string, newContent: string, context: Option<nat>)
    requires OneLine(dir + "/" + path) && TrimEnd(dir + "/" + path) == dir + "/" + path
    requires Readable(oldContent, newContent) && MarkerFree(newContent)
    ensures Patched(oldContent, UnifiedPatch(dir + "/" + path, oldContent, newContent, WithContext(context)), path)
         == Ok(newContent)
  {
    var whole := dir + "/" + path;
    var options := FormatOptions(context, Some("a/" + whole), Some("b/" + whole));
    assert OneLine(path) by {
      assert whole[|dir| + 1..] == path;
    }
    HeaderNames(whole);
    NamesExactly(whole, path);
    assert whole[|whole| - |path|..] == path && whole[|whole| - |path| - 1] == '/';
    RoundTripUnder(path, oldContent, newContent, options);
    NoHunks(KeyLines(oldContent), KeyLines(newContent), Context(options));
    assert UnifiedPatch(whole, oldContent, newContent, WithContext(context))
        == UnifiedPatch(path, oldContent, newContent, options);
  }

  lemma DefaultHeadersOneLine(path: string, oldContent: string, newContent: string, context: Option<nat>)
    requires OneLine(path)
    ensures OneLineHeaders(PrintedUnder(path, oldContent, newContent, WithContext(context)))
    ensures PrintedUnder(path, oldContent, newContent, WithContext(context))
         == PrintedAs(path, PatchHunks(oldContent, newContent, Context(WithContext(context))))
  {
  }

  /** With the default headers a path is found exactly if its header does not lose white space. */
  lemma PrintedOutcome(path: string, oldContent: string, newContent: string, context: Option<nat>)
    requires OneLine(path)
    ensures var r := Patched(oldContent, UnifiedPatch(path, oldContent, newContent, WithContext(context)), path);
            if Applies(path, oldContent, newContent) then r == Ok(Unkey(KeyLines(newContent))) else r.Err?
  {
    DefaultHeadersOneLine(path, oldContent, newContent, context);
    PrintedOutcomeUnder(path, oldContent, newContent, WithContext(context));
    HeaderNames(path);
    DefaultHeadersFind(path);
  }

  /**
   * The law of the engine with its exact condition: for every newline-free path, every two files
   * and every amount of context, applying the printed patch to the old file gives the new file
   * byte for byte if and only if the change survives.
   */
  lemma RoundTripExactly(path: string, oldContent: string, newContent: string, context: Option<nat>)
    requires OneLine(path)
    ensures var patch := UnifiedPatch(path, oldContent, newContent, WithContext(context));
            Patched(oldContent, patch, path) == Ok(newContent) <==> Survives(path, oldContent, newContent)
  {
    PrintedOutcome(path, oldContent, newContent, context);
    UnkeyKeyLines(newContent);
  }

  /** For text without NUL characters and an ordinary path only two things can go wrong. */
  lemma RoundTripOfText(path: string, oldContent: string, newContent: string, context: Option<nat>)
    requires OneLine(path) && TrimEnd(path) == path
    requires '\0' !in oldContent && '\0' !in newContent
    ensures var patch := UnifiedPatch(path, oldContent, newContent, WithContext(context));
            Patched(oldContent, patch, path) == Ok(newContent)
            <==> oldContent != newContent && NoDeletedDashes(ScriptOf(oldContent, newContent))
  {
    NulFree(oldContent);
    NulFree(newContent);
    UnkeyKeyLines(oldContent);
    UnkeyKeyLines(newContent);
    RoundTripExactly(path, oldContent, newContent, context);
  }

  lemma DashesUnreadable(path: string, oldContent: string, newContent: string, options: FormatOptions)
    requires OneLineHeaders(PrintedUnder(path, oldContent, newContent, options))
    requires !LooksBinary(oldContent) && !LooksBinary(newContent) && KeyLines(oldContent) != KeyLines(newContent)
    requires !NoDeletedDashes(ScriptOf(oldContent, newContent))
    ensures Parsed(UnifiedPatch(path, oldContent, newContent, options)).Err?
  {
    NoHunks(KeyLines(oldContent), KeyLines(newContent), Context(options));
    UnreadableRefused(path, oldContent, newContent, options);
  }

  lemma LostDashesDeleted(oldContent: string, newContent: string, line: string)
    requires multiset(KeyLines(oldContent))[line] > multiset(KeyLines(newContent))[line]
    requires StartsWith(Strip(line), "-- ")
    ensures !NoDeletedDashes(ScriptOf(oldContent, newContent)) && KeyLines(oldContent) != KeyLines(newContent)
  {
    var ops := ScriptOf(oldContent, newContent);
    ScriptOfContents(oldContent, newContent);
    var i := FewerCopiesDeleted(ops, line);
    assert ReadsAsHeader(HunkLineOf(ops[i]));
  }

  /** Removing a copy of a line that starts with "-- " always gives a patch that is refused. */
  lemma RemovingDashesFails(path: string, oldContent: string, newContent: string, context: Option<nat>, line: string)
    requires OneLine(path) && !LooksBinary(oldContent) && !LooksBinary(newContent)
    requires multiset(KeyLines(oldContent))[line] > multiset(KeyLines(newContent))[line] &&
        StartsWith(Strip(line), "-- ")
    ensures Parsed(UnifiedPatch(path, oldContent, newContent, WithContext(context))).Err?
  {
    LostDashesDeleted(oldContent, newContent, line);
    DefaultHeadersOneLine(path, oldContent, newContent, context);
    DashesUnreadable(path, oldContent, newContent, WithContext(context));
  }

  lemma MarkerLineKeys(x: string)
    requires OneLine(x) && x != ""
    ensures KeyLines(x) == [x + NO_NEWLINE] && MarkerFree(x)
    ensures KeyLines(x + NO_NEWLINE + "\n") == [x + NO_NEWLINE]
  {
    var marked := x + NO_NEWLINE;
    SplitLastLine(x);
    SplitAfterLine(marked, "");
    assert marked + "\n" + "" == marked + "\n" && Split("") == [""];
  }

  lemma LongTextNotBinary(x: string, rest: string)
    requires |x| >= 8000 && '\0' !in x
    ensures !LooksBinary(x + rest)
  {
    assert (x + rest)[..8000] == x[..8000];
  }

  /** Two contents with the same keyed lines: the change from the one to the other prints as the empty patch. */
  lemma SameKeysWitness(path: string, x: string, options: FormatOptions)
    requires OneLine(x) && '\0' !in x && |x| >= 8000
    ensures var old_ := x + NO_NEWLINE + "\n";
            old_ != x && !LooksBinary(old_) && !LooksBinary(x) && MarkerFree(x)
            && UnifiedPatch(path, old_, x, options) == ""
  {
    MarkerLineKeys(x);
    LongTextNotBinary(x, "");
    assert x + "" == x;
    LongTextNotBinary(x, NO_NEWLINE + "\n");
    assert x + (NO_NEWLINE + "\n") == x + NO_NEWLINE + "\n";
    NoHunks(KeyLines(x + NO_NEWLINE + "\n"), KeyLines(x), Context(options));
  }

  lemma LosesOneCopy<T>(x: T, y: T)
    ensures multiset([x, y])[x] > multiset([y])[x]
  {
    assert [x, y] == [x] + [y];
  }

  lemma WitnessKeys()
    ensures KeyLines("y\n") == ["y"] && KeyLines("-- x\ny\n") == ["-- x", "y"]
  {
    assert "-- x\ny\n" == "-- x" + "\n" + ("y" + "\n" + "") && "y\n" == "y" + "\n" + "";
    SplitAfterLine("y", "");
    SplitAfterLine("-- x", "y" + "\n" + "");
  }

  lemma WitnessPlain()
    ensures OneLine("q.sql") && !LooksBinary("-- x\ny\n") && !LooksBinary("y\n")
  {
  }

  lemma WitnessDashes()
    ensures StartsWith(Strip("-- x"), "-- ")
  {
    assert "-- x" == "-- " + "x";
    StartsWithPrefix("-- x", "-- ");
  }

  /** The law fails on an ordinary two-line file: deleting an SQL comment. */
  lemma DashWitness()
    ensures Parsed(UnifiedPatch("q.sql", "-- x\ny\n", "y\n", DEFAULTS)).Err?
  {
    WitnessKeys();
    WitnessPlain();
    WitnessDashes();
    LosesOneCopy("-- x", "y");
    RemovingDashesFails("q.sql", "-- x\ny\n", "y\n", None, "-- x");
  }

  lemma PrintedAppliesTo(path: string, oldContent: string, newContent: string, context: nat, other: string)
    requires OneLine(path) && NoDeletedDashes(ScriptOf(oldContent, newContent))
    requires Patched(other, Lines(FileText(PrintedAs(path, PatchHunks(oldContent, newContent, context)))), path).Ok?
    ensures FindsItself(path)
    ensures ApplyHunks(KeyLines(other), PatchHunks(oldContent, newContent, context), 0, 0, []).Ok?
  {
    var f := PrintedAs(path, PatchHunks(oldContent, newContent, context));
    ScriptOfContents(oldContent, newContent);
    HunksPrintable(ScriptOf(oldContent, newContent), context);
    HeaderNames(path);
    ParsedAlone(f);
    EntryApplies(other, Lines(FileText(f)), path, ReadBackAs(f));
  }

  lemma AppliesSomewhere(path: string, oldContent: string, newContent: string, context: Option<nat>, other: string)
    requires OneLine(path)
    requires Patched(other, UnifiedPatch(path, oldContent, newContent, WithContext(context)), path).Ok?
    ensures Applies(path, oldContent, newContent)
    ensures ApplyHunks(KeyLines(other), PatchHunks(oldContent, newContent, Context(WithContext(context))), 0, 0, []).Ok?
  {
    var n := Context(WithContext(context));
    if oldContent == newContent {
      EmptyPatch(other, path);
    } else if LooksBinary(oldContent) || LooksBinary(newContent) {
      BinaryPatch(other, path);
    } else {
      NoHunks(KeyLines(oldContent), KeyLines(newContent), n);
      if PatchHunks(oldContent, newContent, n) == [] {
        EmptyPatch(other, path);
      } else if !NoDeletedDashes(ScriptOf(oldContent, newContent)) {
        DefaultHeadersOneLine(path, oldContent, newContent, context);
        UnreadableRefused(path, oldContent, newContent, WithContext(context));
      } else {
        PrintedAppliesTo(path, oldContent, newContent, n, other);
      }
    }
  }

  /**
   * A patch made for one file applies to another only if that file has the same lines in every
   * range the patch touches.
   */
  lemma ForeignFile(path: string, oldContent: string, newContent: string, context: Option<nat>, other: string, k: nat)
    requires OneLine(path)
    requires Patched(other, UnifiedPatch(path, oldContent, newContent, WithContext(context)), path).Ok?
    requires k < |PatchHunks(oldContent, newContent, Context(WithContext(context)))|
    ensures var h := PatchHunks(oldContent, newContent, Context(WithContext(context)))[k];
            && 0 <= Anchor(h) && HunkEnd(h) <= |KeyLines(other)| && HunkEnd(h) <= |KeyLines(oldContent)|
            && KeyLines(other)[Anchor(h)..HunkEnd(h)] == KeyLines(oldContent)[Anchor(h)..HunkEnd(h)]
  {
    var n := Context(WithContext(context));
    var hunks := PatchHunks(oldContent, newContent, n);
    AppliesSomewhere(path, oldContent, newContent, context, other);
    ScriptOfContents(oldContent, newContent);
    ApplyExact(KeyLines(other), hunks);
    assert FitsAt(KeyLines(other), hunks, k);
    HunksFit(ScriptOf(oldContent, newContent), n);
    assert FitsAt(KeyLines(oldContent), hunks, k);
  }
}
