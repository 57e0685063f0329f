/** The unified diff of two contents. */
module PatchFormat {
  import opened Text
  import opened EditScript
  import opened LineModel
  import opened LineScript
  import opened LineDiff
  import opened Hunks
  import opened HunkContext
  import opened PatchText

  const DEFAULT_CONTEXT: nat := 3

  datatype FormatOptions = FormatOptions(contextLines: Option<nat>, oldHeader: Option<string>,
          newHeader: Option<string>)

  const DEFAULTS: FormatOptions := FormatOptions(None, None, None)

  function OldHeader(path: string, options: FormatOptions): string {
    if options.oldHeader.Some? then options.oldHeader.value else "a/" + path
  }

  function NewHeader(path: string, options: FormatOptions): string {
    if options.newHeader.Some? then options.newHeader.value else "b/" + path
  }

  function Context(options: FormatOptions): nat {
    if options.contextLines.Some? then options.contextLines.value else DEFAULT_CONTEXT
  }

  function BinaryNote(path: string): string {
    "Binary files a/" + path + " and b/" + path + " differ"
  }

  ghost function PatchHunks(oldContent: string, newContent: string, context: nat): seq<Hunk> {
    HunksOf(Script(KeyLines(oldContent), KeyLines(newContent)), context)
  }

  /** What formatUnifiedPatch prints. */
  ghost function UnifiedPatch(path: string, oldContent: string, newContent: string, options: FormatOptions): string {
    if oldContent == newContent then ""
    else if LooksBinary(oldContent) || LooksBinary(newContent) then BinaryNote(path)
    else
      var hunks := PatchHunks(oldContent, newContent, Context(options));
      if hunks == [] then ""
      else Lines(PatchLines(OldHeader(path, options), NewHeader(path, options), hunks))
  }

  /** Each hunk of a patch carries the context asked for, or three lines. */
  lemma PatchCarriesContext(oldContent: string, newContent: string, options: FormatOptions, i: nat)
    requires i < |PatchHunks(oldContent, newContent, Context(options))|
    ensures var context := match options.contextLines case None => 3 case Some(n) => n;
            CarriesContext(Script(KeyLines(oldContent), KeyLines(newContent)), context,
                           PatchHunks(oldContent, newContent, Context(options))[i])
  {
    HunksCarryContext(Script(KeyLines(oldContent), KeyLines(newContent)), Context(options), i);
  }

  lemma TwoLines(first: string, second: string, rest: seq<string>)
    ensures first + "\n" + (second + "\n") <= Lines([first, second] + rest)
  {
    var lines := [first, second] + rest;
    assert lines[1..][1..] == rest && lines[1..][0] == second;
    Associate(first + "\n", second + "\n", Lines(rest));
  }

  lemma {:induction false} LinesEnd(lines: seq<string>)
    requires lines != []
    ensures Lines(lines) != "" && Lines(lines)[|Lines(lines)| - 1] == '\n'
    decreases |lines|
  {
    if |lines| > 1 {
      LinesEnd(lines[1..]);
    }
  }

  /**
   * A patch with hunks begins with its two header lines: the old file's, which is the path behind "a/" unless
   * another one is given, and then the new file's, behind "b/"; and it ends with a newline.
   */
  lemma PatchBegins(path: string, oldContent: string, newContent: string, options: FormatOptions)
    requires !LooksBinary(oldContent) && !LooksBinary(newContent)
    requires PatchHunks(oldContent, newContent, Context(options)) != [] && oldContent != newContent
    ensures var patch := UnifiedPatch(path, oldContent, newContent, options);
            var oldName := match options.oldHeader case None => "a/" + path case Some(header) => header;
            var newName := match options.newHeader case None => "b/" + path case Some(header) => header;
            && "--- " + oldName + "\n" + ("+++ " + newName + "\n") <= patch && patch[|patch| - 1] == '\n'
  {
    var hunks := PatchHunks(oldContent, newContent, Context(options));
    var first, second := "--- " + OldHeader(path, options), "+++ " + NewHeader(path, options);
    TwoLines(first, second, HunksText(hunks));
    LinesEnd([first, second] + HunksText(hunks));
  }

  /** Two different contents of which one has a NUL among its first 8000 characters give the note, and no patch. */
  lemma NulGivesNote(path: string, oldContent: string, newContent: string, options: FormatOptions, i: nat)
    requires oldContent != newContent && i < 8000
    requires (i < |oldContent| && oldContent[i] == '\0') || (i < |newContent| && newContent[i] == '\0')
    ensures UnifiedPatch(path, oldContent, newContent, options)
         == "Binary files a/" + path + " and b/" + path + " differ"
  {
    BinaryExactly(oldContent);
    BinaryExactly(newContent);
  }

  method FormatUnifiedPatch(path: string, oldContent: string, newContent: string, options: FormatOptions)
    returns (patch: string)
    ensures patch == UnifiedPatch(path, oldContent, newContent, options)
  {
    if oldContent == newContent {
      return "";
    }
    if LooksBinary(oldContent) || LooksBinary(newContent) {
      return BinaryNote(path);
    }
    var a := ComputeKeyLines(oldContent);
    var b := ComputeKeyLines(newContent);
    var ops := DiffLines(a, b);
    var hunks := BuildHunks(ops, Context(options));
    if |hunks| == 0 {
      return "";
    }
    var out := ["--- " + OldHeader(path, options), "+++ " + NewHeader(path, options)];
    out := PrintHunks(hunks, out);
    JoinLines(out);
    patch := Join(out) + "\n";
  }
}
