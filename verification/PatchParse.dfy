/** Reading a unified diff back: lenient about decoration, strict about content. */
module PatchParse {
  import opened Text
  import opened EditScript
  import opened Hunks
  import opened PatchText

  datatype PatchError =
    | UnexpectedLine | MalformedHeader | MarkerWithoutLine | HunkEndedEarly | MalformedBodyLine | CountMismatch
    | BinaryEntry | NoEntry | HunkOutOfPlace | PastEndOfFile | ContextMismatch

  datatype FilePatch = FilePatch(filePath: string, isNewFile: bool, isDelete: bool, hunks: seq<Hunk>)

  // ----- Hunk headers

  predicate IsLineTerminator(c: char) {
    c == '\n' || c == '\r' || c == '\U{2028}' || c == '\U{2029}'
  }

  /** (\d+)(?:,(\d+))? at the start of s; a missing count means 1. */
  function TakeRange(s: string): Option<((nat, nat), string)> {
    var (start, rest) :- TakeNumber(s);
    if rest != "" && rest[0] == ',' then
      var (count, rest') :- TakeNumber(rest[1..]);
      Some(((start, count), rest'))
    else Some(((start, 1), rest))
  }

  /** (?: (.*))?$ */
  function TakeSection(s: string): Option<string> {
    if s == "" then Some("")
    else if s[0] == ' ' && forall i :: 1 <= i < |s| ==> !IsLineTerminator(s[i]) then Some(s[1..])
    else None
  }

  /** A hunk with the ranges and section of its header line, and no lines yet. */
  function ParseHeader(line: string): Option<Hunk> {
    var rest :- After(line, "@@ -");
    var (old_, rest) :- TakeRange(rest);
    var rest :- After(rest, " +");
    var (new_, rest) :- TakeRange(rest);
    var rest :- After(rest, " @@");
    var section :- TakeSection(rest);
    Some(Hunk(old_.0, old_.1, new_.0, new_.1, [], section))
  }

  // ----- Hunk bodies

  function BodyLine(body: string): Result<HunkLine, PatchError> {
    if StartsWith(body, "@@ ") || StartsWith(body, "--- ") || StartsWith(body, "diff --git") then Err(HunkEndedEarly)
    else if body == "" then Err(HunkEndedEarly)
    else if body[0] == ' ' then Ok(HunkLine(Equal, body[1..], false))
    else if body[0] == '-' then Ok(HunkLine(Delete, body[1..], false))
    else if body[0] == '+' then Ok(HunkLine(Insert, body[1..], false))
    else Err(MalformedBodyLine)
  }

  /** The lines of a hunk from line i on, and where they end; seenOld and seenNew count what acc holds. */
  function ParseBody(lines: seq<string>, i: nat, oldCount: nat, newCount: nat, seenOld: nat, seenNew: nat,
          acc: seq<HunkLine>)
    : (r: Result<(seq<HunkLine>, nat), PatchError>)
    requires i <= |lines|
    ensures r.Ok? ==> i <= r.value.1 <= |lines|
    decreases |lines| - i
  {
    if i < |lines| && (seenOld < oldCount || seenNew < newCount || lines[i] == NO_NL) then
      if lines[i] == NO_NL then
        if acc == [] then Err(MarkerWithoutLine)
        else
          var last := acc[|acc| - 1];
          ParseBody(lines, i + 1, oldCount, newCount, seenOld, seenNew, acc[..|acc| - 1] + [last.(noNewline := true)])
      else
        var line :- BodyLine(lines[i]);
        ParseBody(lines, i + 1, oldCount, newCount, seenOld + Weight(line, Insert), seenNew + Weight(line, Delete),
            acc + [line])
    else if seenOld != oldCount || seenNew != newCount then Err(CountMismatch)
    else Ok((acc, i))
  }

  /** Whether a line counts on the side that lines of the given kind do not appear on. */
  function Weight(line: HunkLine, absent: Kind): nat {
    if line.kind == absent then 0 else 1
  }

  function ParseHunks(lines: seq<string>, i: nat, acc: seq<Hunk>): (r: Result<(seq<Hunk>, nat), PatchError>)
    requires i <= |lines|
    ensures r.Ok? ==> i <= r.value.1 <= |lines|
    decreases |lines| - i
  {
    if i < |lines| && StartsWith(lines[i], "@@ ") then
      match ParseHeader(lines[i])
      case None => Err(MalformedHeader)
      case Some(h) =>
        var (body, next) :- ParseBody(lines, i + 1, h.oldCount, h.newCount, 0, 0, []);
        ParseHunks(lines, next, acc + [h.(lines := body)])
    else Ok((acc, i))
  }

  // ----- File entries

  predicate IsDecoration(line: string) {
    || StartsWith(line, "diff --git") || StartsWith(line, "index ")
    || StartsWith(line, "new file mode") || StartsWith(line, "deleted file mode")
    || StartsWith(line, "similarity index") || StartsWith(line, "rename ")
    || StartsWith(line, "mode ") || line == ""
  }

  function SkipDecoration(lines: seq<string>, i: nat): (r: Result<nat, PatchError>)
    requires i <= |lines|
    ensures r.Ok? ==> i <= r.value <= |lines|
    decreases |lines| - i
  {
    if i < |lines| && !StartsWith(lines[i], "@@ ") && !StartsWith(lines[i], "--- ") then
      if IsDecoration(lines[i]) then SkipDecoration(lines, i + 1) else Err(UnexpectedLine)
    else Ok(i)
  }

  function StripSide(header: string): string {
    match After(header, "a/")
    case Some(rest) => rest
    case None =>
      match After(header, "b/")
      case Some(rest) => rest
      case None => header
  }

  function NewHeaderAt(lines: seq<string>, i: nat): string
    requires i <= |lines|
  {
    if i == |lines| then ""
    else
      match After(lines[i], "+++ ")
      case Some(header) => Trim(header)
      case None => ""
  }

  function FileOf(oldHeader: string, newHeader: string, hunks: seq<Hunk>): FilePatch {
    FilePatch(StripSide(if newHeader != "" && newHeader != "/dev/null" then newHeader else oldHeader),
              oldHeader == "/dev/null", newHeader == "/dev/null", hunks)
  }

  /** The entry whose old header is in line i, and where it ends. */
  function ParseFile(lines: seq<string>, i: nat, header: string): (r: Result<(FilePatch, nat), PatchError>)
    requires i < |lines|
    ensures r.Ok? ==> i < r.value.1 <= |lines|
  {
    var newHeader := NewHeaderAt(lines, i + 1);
    var start :- SkipDecoration(lines, if newHeader != "" then i + 2 else i + 1);
    var (hunks, next) :- ParseHunks(lines, start, []);
    Ok((FileOf(Trim(header), newHeader, hunks), next))
  }

  function ParseFiles(lines: seq<string>, i: nat, acc: seq<FilePatch>): Result<seq<FilePatch>, PatchError>
    requires i <= |lines|
    decreases |lines| - i
  {
    if i == |lines| then Ok(acc)
    else
      match After(lines[i], "--- ")
      case Some(header) =>
        var (file, next) :- ParseFile(lines, i, header);
        ParseFiles(lines, next, acc + [file])
      case None =>
        if StartsWith(lines[i], "Binary files ") then Err(BinaryEntry)
        else ParseFiles(lines, i + 1, acc)
  }

  /** What parseUnifiedPatch reads. */
  function Parsed(patch: string): Result<seq<FilePatch>, PatchError> {
    ParseFiles(Split(patch), 0, [])
  }

  // ----- Patches that git prints

  /** The lines git puts between a file's headers and its hunks; x stands for the rest of one. */
  predicate GitLine(line: string, x: string) {
    || line == "diff --git" + x || line == "index " + x || line == "new file mode" + x
    || line == "deleted file mode" + x || line == "similarity index" + x || line == "rename " + x
    || line == "mode " + x || line == ""
  }

  lemma FrontSkipped(lines: seq<string>, i: nat, front: string, x: string)
    requires i < |lines| && lines[i] == front + x && front != "" && front[0] != '@' && front[0] != '-'
    requires StartsWith(front + x, front) ==> IsDecoration(front + x)
    ensures SkipDecoration(lines, i) == SkipDecoration(lines, i + 1)
  {
    StartsWithPrefix(front + x, front);
    assert (front + x)[0] == front[0];
  }

  /** They make no difference. */
  lemma GitLineSkipped(lines: seq<string>, i: nat, x: string)
    requires i < |lines| && GitLine(lines[i], x)
    ensures SkipDecoration(lines, i) == SkipDecoration(lines, i + 1)
  {
    if lines[i] == "diff --git" + x {
      FrontSkipped(lines, i, "diff --git", x);
    } else if lines[i] == "index " + x {
      FrontSkipped(lines, i, "index ", x);
    } else if lines[i] == "new file mode" + x {
      FrontSkipped(lines, i, "new file mode", x);
    } else if lines[i] == "deleted file mode" + x {
      FrontSkipped(lines, i, "deleted file mode", x);
    } else if lines[i] == "similarity index" + x {
      FrontSkipped(lines, i, "similarity index", x);
    } else if lines[i] == "rename " + x {
      FrontSkipped(lines, i, "rename ", x);
    } else if lines[i] == "mode " + x {
      FrontSkipped(lines, i, "mode ", x);
    }
  }

  lemma SideStripped(x: string)
    ensures StripSide("a/" + x) == x && StripSide("b/" + x) == x
    ensures !StartsWith(x, "a/") && !StartsWith(x, "b/") ==> StripSide(x) == x
  {
    AfterAppended("a/", x);
    AfterAppended("b/", x);
    StartsWithPrefix("b/" + x, "a/");
    assert ("b/" + x)[0] == 'b' && "a/"[0] == 'a';
  }

  /** A file's path is in its new header, or in the old one if there is no new header or it is /dev/null. */
  lemma PathOfHeaders(oldHeader: string, newHeader: string, hunks: seq<Hunk>)
    ensures var file := FileOf(oldHeader, newHeader, hunks);
            && (newHeader == "" || newHeader == "/dev/null" ==> file.filePath == StripSide(oldHeader))
            && (newHeader != "" && newHeader != "/dev/null" ==> file.filePath == StripSide(newHeader))
            && (file.isNewFile <==> oldHeader == "/dev/null") && (file.isDelete <==> newHeader == "/dev/null")
            && file.hunks == hunks
  {
  }

  // ----- Strictness: what an accepted text is made of

  /** The lines but for a no-newline marker that repeats the one before it. */
  function Squeezed(lines: seq<string>): seq<string> {
    if lines == [] then []
    else
      var rest := Squeezed(lines[..|lines| - 1]);
      if |lines| > 1 && lines[|lines| - 1] == NO_NL == lines[|lines| - 2] then rest else rest + [lines[|lines| - 1]]
  }

  lemma SqueezedSnoc(lines: seq<string>, line: string)
    ensures Squeezed(lines + [line])
         == if lines != [] && line == NO_NL == lines[|lines| - 1] then Squeezed(lines) else Squeezed(lines) + [line]
  {
    assert (lines + [line])[..|lines|] == lines;
  }

  lemma {:induction false} SqueezedLast(lines: seq<string>)
    requires lines != []
    ensures Squeezed(lines) != [] && Squeezed(lines)[|Squeezed(lines)| - 1] == lines[|lines| - 1]
    decreases |lines|
  {
    if |lines| > 1 {
      SqueezedLast(lines[..|lines| - 1]);
    }
  }

  lemma BodyTextSnoc(lines: seq<HunkLine>, line: HunkLine)
    ensures BodyText(lines + [line]) == BodyText(lines) + LineText(line)
  {
    assert LineTexts(lines + [line]) == LineTexts(lines) + [LineText(line)];
    ConcatAppend(LineTexts(lines), [LineText(line)], 0);
    assert Concat([LineText(line)], 1) == [];
    assert LineText(line) + [] == LineText(line);
  }

  lemma BodyLineText(body: string)
    requires BodyLine(body).Ok?
    ensures LineText(BodyLine(body).value) == [body] && body != NO_NL && !BodyLine(body).value.noNewline
  {
    assert body == [body[0]] + body[1..];
  }

  lemma KeysSnoc(lines: seq<HunkLine>, line: HunkLine)
    ensures |OldKeys(lines + [line])| == |OldKeys(lines)| + Weight(line, Insert)
    ensures |NewKeys(lines + [line])| == |NewKeys(lines)| + Weight(line, Delete)
  {
    assert (lines + [line])[..|lines|] == lines;
  }

  /** The lines acc holds account for the given lines of the text, and the counters for acc. */
  predicate Accounts(text: seq<string>, acc: seq<HunkLine>, seenOld: nat, seenNew: nat) {
    Squeezed(text) == BodyText(acc) && seenOld == |OldKeys(acc)| && seenNew == |NewKeys(acc)|
  }

  lemma AccountsLine(text: seq<string>, acc: seq<HunkLine>, seenOld: nat, seenNew: nat, body: string)
    requires Accounts(text, acc, seenOld, seenNew) && BodyLine(body).Ok?
    ensures var line := BodyLine(body).value;
            Accounts(text + [body], acc + [line], seenOld + Weight(line, Insert), seenNew + Weight(line, Delete))
  {
    var line := BodyLine(body).value;
    BodyLineText(body);
    SqueezedSnoc(text, body);
    BodyTextSnoc(acc, line);
    KeysSnoc(acc, line);
  }

  lemma AccountsMarker(text: seq<string>, init: seq<HunkLine>, last: HunkLine, seenOld: nat, seenNew: nat)
    requires Accounts(text, init + [last], seenOld, seenNew)
    ensures Accounts(text + [NO_NL], init + [last.(noNewline := true)], seenOld, seenNew)
  {
    var marked := last.(noNewline := true);
    BodyTextSnoc(init, last);
    BodyTextSnoc(init, marked);
    KeysSnoc(init, last);
    KeysSnoc(init, marked);
    SqueezedSnoc(text, NO_NL);
    assert text != [];
    SqueezedLast(text);
    if last.noNewline {
      assert Squeezed(text)[|Squeezed(text)| - 1] == NO_NL;
    } else {
      assert Squeezed(text)[|Squeezed(text)| - 1] == Prefix(last.kind) + last.text;
      assert (Prefix(last.kind) + last.text)[0] != NO_NL[0];
      assert LineText(marked) == LineText(last) + [NO_NL];
      Associate(BodyText(init), LineText(last), [NO_NL]);
    }
  }

  lemma ParseBodyOnMarker(lines: seq<string>, i: nat, h: Hunk, seenOld: nat, seenNew: nat, init: seq<HunkLine>,
          last: HunkLine)
    requires i < |lines| && lines[i] == NO_NL
    ensures ParseBody(lines, i, h.oldCount, h.newCount, seenOld, seenNew, init + [last])
         == ParseBody(lines, i + 1, h.oldCount, h.newCount, seenOld, seenNew, init + [last.(noNewline := true)])
  {
    assert (init + [last])[..|init|] == init;
  }

  lemma ParseBodyOnLine(lines: seq<string>, i: nat, h: Hunk, seenOld: nat, seenNew: nat, acc: seq<HunkLine>)
    returns (line: HunkLine)
    requires i < |lines| && lines[i] != NO_NL && (seenOld < h.oldCount || seenNew < h.newCount)
    requires ParseBody(lines, i, h.oldCount, h.newCount, seenOld, seenNew, acc).Ok?
    ensures BodyLine(lines[i]) == Ok(line)
    ensures ParseBody(lines, i, h.oldCount, h.newCount, seenOld, seenNew, acc)
         == ParseBody(lines, i + 1, h.oldCount, h.newCount,
                      seenOld + Weight(line, Insert), seenNew + Weight(line, Delete), acc + [line])
  {
    line := BodyLine(lines[i]).value;
  }

  lemma ParseBodyAtEnd(lines: seq<string>, i: nat, h: Hunk, seenOld: nat, seenNew: nat, acc: seq<HunkLine>)
    requires i <= |lines| && (i < |lines| ==> lines[i] != NO_NL && seenOld >= h.oldCount && seenNew >= h.newCount)
    requires ParseBody(lines, i, h.oldCount, h.newCount, seenOld, seenNew, acc).Ok?
    ensures seenOld == h.oldCount && seenNew == h.newCount
    ensures ParseBody(lines, i, h.oldCount, h.newCount, seenOld, seenNew, acc) == Ok((acc, i))
  {
  }

  lemma MarkerNeedsLine(lines: seq<string>, i: nat, h: Hunk, seenOld: nat, seenNew: nat, acc: seq<HunkLine>)
    requires i < |lines| && lines[i] == NO_NL && ParseBody(lines, i, h.oldCount, h.newCount, seenOld, seenNew, acc).Ok?
    ensures acc != []
  {
  }

  predicate BodyGoesOn(lines: seq<string>, i: nat, h: Hunk, seenOld: nat, seenNew: nat) {
    i < |lines| && (seenOld < h.oldCount || seenNew < h.newCount || lines[i] == NO_NL)
  }

  lemma MarkerAccounts(lines: seq<string>, start: nat, i: nat, h: Hunk, seenOld: nat, seenNew: nat, acc: seq<HunkLine>)
    returns (acc1: seq<HunkLine>)
    requires start <= i < |lines| && lines[i] == NO_NL && Accounts(lines[start..i], acc, seenOld, seenNew)
    requires ParseBody(lines, i, h.oldCount, h.newCount, seenOld, seenNew, acc).Ok?
    ensures Accounts(lines[start..i + 1], acc1, seenOld, seenNew)
    ensures ParseBody(lines, i, h.oldCount, h.newCount, seenOld, seenNew, acc)
         == ParseBody(lines, i + 1, h.oldCount, h.newCount, seenOld, seenNew, acc1)
  {
    MarkerNeedsLine(lines, i, h, seenOld, seenNew, acc);
    var init, last := acc[..|acc| - 1], acc[|acc| - 1];
    LastSplit(acc);
    SliceSnoc(lines, start, i);
    AccountsMarker(lines[start..i], init, last, seenOld, seenNew);
    ParseBodyOnMarker(lines, i, h, seenOld, seenNew, init, last);
    acc1 := init + [last.(noNewline := true)];
  }

  lemma LineAccounts(lines: seq<string>, start: nat, i: nat, h: Hunk, seenOld: nat, seenNew: nat, acc: seq<HunkLine>)
    returns (seenOld1: nat, seenNew1: nat, acc1: seq<HunkLine>)
    requires start <= i < |lines| && lines[i] != NO_NL && Accounts(lines[start..i], acc, seenOld, seenNew)
    requires BodyGoesOn(lines, i, h, seenOld, seenNew)
    requires ParseBody(lines, i, h.oldCount, h.newCount, seenOld, seenNew, acc).Ok?
    ensures Accounts(lines[start..i + 1], acc1, seenOld1, seenNew1)
    ensures ParseBody(lines, i, h.oldCount, h.newCount, seenOld, seenNew, acc)
         == ParseBody(lines, i + 1, h.oldCount, h.newCount, seenOld1, seenNew1, acc1)
  {
    var line := ParseBodyOnLine(lines, i, h, seenOld, seenNew, acc);
    SliceSnoc(lines, start, i);
    AccountsLine(lines[start..i], acc, seenOld, seenNew, lines[i]);
    seenOld1, seenNew1, acc1 := seenOld + Weight(line, Insert), seenNew + Weight(line, Delete), acc + [line];
  }

  lemma {:induction false} BodyAccounts(
    lines: seq<string>, start: nat, i: nat, h: Hunk, seenOld: nat, seenNew: nat, acc: seq<HunkLine>)
    returns (body: seq<HunkLine>, next: nat)
    requires start <= i <= |lines| && Accounts(lines[start..i], acc, seenOld, seenNew)
    requires ParseBody(lines, i, h.oldCount, h.newCount, seenOld, seenNew, acc).Ok?
    ensures ParseBody(lines, i, h.oldCount, h.newCount, seenOld, seenNew, acc) == Ok((body, next))
    ensures start <= next <= |lines| && Accounts(lines[start..next], body, h.oldCount, h.newCount)
    decreases |lines| - i
  {
    if !BodyGoesOn(lines, i, h, seenOld, seenNew) {
      ParseBodyAtEnd(lines, i, h, seenOld, seenNew, acc);
      body, next := acc, i;
    } else {
      var seenOld1, seenNew1, acc1 := seenOld, seenNew, acc;
      if lines[i] == NO_NL {
        acc1 := MarkerAccounts(lines, start, i, h, seenOld, seenNew, acc);
      } else {
        seenOld1, seenNew1, acc1 := LineAccounts(lines, start, i, h, seenOld, seenNew, acc);
      }
      body, next := BodyAccounts(lines, start, i + 1, h, seenOld1, seenNew1, acc1);
    }
  }

  /** None of these lines reads as a file header, and the line behind them is not one more marker. */
  predicate BodySpan(lines: seq<string>, from: nat, to: nat) {
    && from <= to <= |lines| && (to < |lines| ==> lines[to] != NO_NL)
    && forall k :: from <= k < to ==> !StartsWith(lines[k], "--- ")
  }

  lemma {:induction false} BodySpans(lines: seq<string>, i: nat, h: Hunk, seenOld: nat, seenNew: nat,
          acc: seq<HunkLine>)
    requires i <= |lines| && ParseBody(lines, i, h.oldCount, h.newCount, seenOld, seenNew, acc).Ok?
    ensures BodySpan(lines, i, ParseBody(lines, i, h.oldCount, h.newCount, seenOld, seenNew, acc).value.1)
    decreases |lines| - i
  {
    if BodyGoesOn(lines, i, h, seenOld, seenNew) {
      if lines[i] == NO_NL {
        var last := acc[|acc| - 1];
        BodySpans(lines, i + 1, h, seenOld, seenNew, acc[..|acc| - 1] + [last.(noNewline := true)]);
      } else {
        var line := ParseBodyOnLine(lines, i, h, seenOld, seenNew, acc);
        BodySpans(lines, i + 1, h, seenOld + Weight(line, Insert), seenNew + Weight(line, Delete), acc + [line]);
      }
    }
  }

  /** The lines from i to next read as the hunk: its header, and line for line its body, with the counts it names. */
  predicate Reads(lines: seq<string>, i: nat, h: Hunk, next: nat) {
    && i < next <= |lines| && StartsWith(lines[i], "@@ ") && ParseHeader(lines[i]) == Some(h.(lines := []))
    && BodySpan(lines, i + 1, next) && Squeezed(lines[i + 1..next]) == BodyText(h.lines)
    && h.oldCount == |OldKeys(h.lines)| && h.newCount == |NewKeys(h.lines)|
  }

  /**
   * An accepted body has exactly the counts its header names, and no line of it is dropped: written out
   * again it is the lines consumed, but for repeated markers.
   */
  lemma AcceptedBody(lines: seq<string>, i: nat, header: Hunk)
    requires i <= |lines| && ParseBody(lines, i, header.oldCount, header.newCount, 0, 0, []).Ok?
    ensures var (body, next) := ParseBody(lines, i, header.oldCount, header.newCount, 0, 0, []).value;
            && BodySpan(lines, i, next) && Squeezed(lines[i..next]) == BodyText(body)
            && header.oldCount == |OldKeys(body)| && header.newCount == |NewKeys(body)|
  {
    assert lines[i..i] == [];
    var body, next := BodyAccounts(lines, i, i, header, 0, 0, []);
    BodySpans(lines, i, header, 0, 0, []);
  }

  /** The hunks lie one right after the other, the k-th from at[k] to at[k + 1]. */
  ghost predicate HunksRead(lines: seq<string>, at: seq<nat>, hunks: seq<Hunk>) {
    |at| == |hunks| + 1 && forall k :: 0 <= k < |hunks| ==> Reads(lines, at[k], hunks[k], at[k + 1])
  }

  lemma HunksReadSnoc(lines: seq<string>, at: seq<nat>, hunks: seq<Hunk>, h: Hunk, next: nat)
    requires HunksRead(lines, at, hunks) && Reads(lines, at[|hunks|], h, next)
    ensures HunksRead(lines, at + [next], hunks + [h])
  {
    var at1, hunks1 := at + [next], hunks + [h];
    forall k | 0 <= k < |hunks1| ensures Reads(lines, at1[k], hunks1[k], at1[k + 1]) {
      HunkReadAt(lines, at, hunks, h, next, k);
    }
  }

  lemma HunkReadAt(lines: seq<string>, at: seq<nat>, hunks: seq<Hunk>, h: Hunk, next: nat, k: nat)
    requires HunksRead(lines, at, hunks) && Reads(lines, at[|hunks|], h, next) && k <= |hunks|
    ensures Reads(lines, (at + [next])[k], (hunks + [h])[k], (at + [next])[k + 1])
  {
    if k < |hunks| {
      assert (at + [next])[k] == at[k] && (at + [next])[k + 1] == at[k + 1] && (hunks + [h])[k] == hunks[k];
      assert Reads(lines, at[k], hunks[k], at[k + 1]);
    }
  }

  lemma {:induction false} AcceptedHunks(lines: seq<string>, i: nat, acc: seq<Hunk>, at0: seq<nat>)
    returns (at: seq<nat>)
    requires i <= |lines| && HunksRead(lines, at0, acc) && at0[|acc|] == i && ParseHunks(lines, i, acc).Ok?
    ensures var (hunks, next) := ParseHunks(lines, i, acc).value;
            && HunksRead(lines, at, hunks) && at[0] == at0[0] && at[|hunks|] == next
            && (next < |lines| ==> !StartsWith(lines[next], "@@ "))
    decreases |lines| - i
  {
    if i < |lines| && StartsWith(lines[i], "@@ ") {
      var header := ParseHeader(lines[i]).value;
      var (body, next) := ParseBody(lines, i + 1, header.oldCount, header.newCount, 0, 0, []).value;
      var h := header.(lines := body);
      AcceptedBody(lines, i + 1, header);
      HeaderHasNoLines(lines[i]);
      HunksReadSnoc(lines, at0, acc, h, next);
      at := AcceptedHunks(lines, next, acc + [h], at0 + [next]);
    } else {
      at := at0;
    }
  }

  lemma HeaderHasNoLines(line: string)
    ensures ParseHeader(line).Some? ==> ParseHeader(line).value.lines == []
  {
  }

  /** A line that is skipped between a file's headers and its first hunk. */
  predicate Decorates(line: string) {
    IsDecoration(line) && !StartsWith(line, "@@ ") && !StartsWith(line, "--- ")
  }

  /** Exactly the decoration is skipped, up to the first hunk or file header; any other line is an error. */
  lemma {:induction false} SkipsDecoration(lines: seq<string>, i: nat, j: nat)
    requires i <= |lines|
    ensures SkipDecoration(lines, i) == Ok(j) <==>
            && i <= j <= |lines| && (forall k :: i <= k < j ==> Decorates(lines[k]))
            && (j < |lines| ==> StartsWith(lines[j], "@@ ") || StartsWith(lines[j], "--- "))
    decreases |lines| - i
  {
    if i < |lines| && !StartsWith(lines[i], "@@ ") && !StartsWith(lines[i], "--- ") {
      if IsDecoration(lines[i]) {
        SkipsDecoration(lines, i + 1, j);
      }
    }
  }

  /** Where a file's part of the text starts, where its hunks start, and where each of them does. */
  datatype Span = Span(start: nat, body: nat, at: seq<nat>)

  function SpanEnd(span: Span): nat {
    if span.at == [] then span.body else span.at[|span.at| - 1]
  }

  /** The lines from start to body are the file's headers and then all the decoration there is. */
  ghost predicate HeadReads(lines: seq<string>, start: nat, body: nat, file: FilePatch) {
    && start < |lines| && After(lines[start], "--- ").Some?
    && var newHeader := NewHeaderAt(lines, start + 1);
       var first := if newHeader != "" then start + 2 else start + 1;
       && first <= body <= |lines| && (forall k :: first <= k < body ==> Decorates(lines[k]))
       && (body < |lines| ==> StartsWith(lines[body], "@@ ") || StartsWith(lines[body], "--- "))
       && file == FileOf(Trim(After(lines[start], "--- ").value), newHeader, file.hunks)
  }

  /** From line i on there are the hunks, one right after the other, and then a line that is no hunk. */
  ghost predicate BodyReads(lines: seq<string>, i: nat, at: seq<nat>, hunks: seq<Hunk>) {
    && HunksRead(lines, at, hunks) && at[0] == i
    && at[|hunks|] <= |lines| && (at[|hunks|] < |lines| ==> !StartsWith(lines[at[|hunks|]], "@@ "))
  }

  /** The span is the file: its headers, decoration, and its hunks. */
  ghost predicate SpanReads(lines: seq<string>, span: Span, file: FilePatch) {
    HeadReads(lines, span.start, span.body, file) && BodyReads(lines, span.body, span.at, file.hunks)
  }

  /** Neither a file header nor a binary note. */
  predicate IsDropped(line: string) {
    After(line, "--- ").None? && !StartsWith(line, "Binary files ")
  }

  /** Lines that the parser drops where it looks for a file header. */
  ghost predicate Dropped(lines: seq<string>, from: nat, to: nat) {
    from <= to <= |lines| && forall k :: from <= k < to ==> IsDropped(lines[k])
  }

  /** Up to line i the text is the files' spans, in order, and between and behind them only lines that are dropped. */
  ghost predicate TextReads(lines: seq<string>, i: nat, spans: seq<Span>, files: seq<FilePatch>)
    decreases |files|
  {
    && |spans| == |files|
    && (if files == [] then Dropped(lines, 0, i)
        else
          var span, file := spans[|spans| - 1], files[|files| - 1];
          && TextReads(lines, span.start, spans[..|spans| - 1], files[..|files| - 1])
          && SpanReads(lines, span, file) && Dropped(lines, SpanEnd(span), i))
  }

  lemma TextReadsLine(lines: seq<string>, i: nat, spans: seq<Span>, files: seq<FilePatch>)
    requires i < |lines| && TextReads(lines, i, spans, files) && IsDropped(lines[i])
    ensures TextReads(lines, i + 1, spans, files)
  {
  }

  lemma TextReadsFile(lines: seq<string>, spans: seq<Span>, files: seq<FilePatch>, span: Span, file: FilePatch)
    requires TextReads(lines, span.start, spans, files) && SpanReads(lines, span, file)
    ensures TextReads(lines, SpanEnd(span), spans + [span], files + [file])
  {
    assert (spans + [span])[..|spans|] == spans && (files + [file])[..|files|] == files;
  }

  lemma ParseFileParts(lines: seq<string>, i: nat, header: string)
    returns (newHeader: string, first: nat, body: nat, hunks: seq<Hunk>, next: nat)
    requires i < |lines| && ParseFile(lines, i, header).Ok?
    ensures newHeader == NewHeaderAt(lines, i + 1) && first == if newHeader != "" then i + 2 else i + 1
    ensures first <= |lines| && SkipDecoration(lines, first) == Ok(body)
    ensures body <= |lines| && ParseHunks(lines, body, []) == Ok((hunks, next))
    ensures ParseFile(lines, i, header) == Ok((FileOf(Trim(header), newHeader, hunks), next))
  {
    newHeader := NewHeaderAt(lines, i + 1);
    first := if newHeader != "" then i + 2 else i + 1;
    body := SkipDecoration(lines, first).value;
    var r := ParseHunks(lines, body, []).value;
    hunks, next := r.0, r.1;
  }

  lemma AcceptedHead(lines: seq<string>, i: nat, header: string) returns (body: nat, file: FilePatch, next: nat)
    requires i < |lines| && After(lines[i], "--- ") == Some(header) && ParseFile(lines, i, header).Ok?
    ensures ParseFile(lines, i, header) == Ok((file, next)) && HeadReads(lines, i, body, file)
    ensures body <= |lines| && ParseHunks(lines, body, []) == Ok((file.hunks, next))
  {
    var newHeader, first, hunks;
    newHeader, first, body, hunks, next := ParseFileParts(lines, i, header);
    file := FileOf(Trim(header), newHeader, hunks);
    SkipsDecoration(lines, first, body);
  }

  lemma AcceptedHunksOnly(lines: seq<string>, body: nat, hunks: seq<Hunk>, next: nat) returns (at: seq<nat>)
    requires body <= |lines| && ParseHunks(lines, body, []) == Ok((hunks, next))
    ensures BodyReads(lines, body, at, hunks) && at[|hunks|] == next
  {
    at := AcceptedHunks(lines, body, [], [body]);
  }

  /** A file's entry, read from a header line on. */
  lemma AcceptedFile(lines: seq<string>, i: nat, header: string) returns (span: Span, file: FilePatch, next: nat)
    requires i < |lines| && After(lines[i], "--- ") == Some(header) && ParseFile(lines, i, header).Ok?
    ensures ParseFile(lines, i, header) == Ok((file, next))
    ensures SpanReads(lines, span, file) && span.start == i && SpanEnd(span) == next
  {
    var body;
    body, file, next := AcceptedHead(lines, i, header);
    var at := AcceptedHunksOnly(lines, body, file.hunks, next);
    span := Span(i, body, at);
  }

  lemma ParseFilesOnFile(lines: seq<string>, i: nat, acc: seq<FilePatch>, header: string, file: FilePatch, next: nat)
    requires i < |lines| && After(lines[i], "--- ") == Some(header) && ParseFile(lines, i, header) == Ok((file, next))
    ensures ParseFiles(lines, i, acc) == ParseFiles(lines, next, acc + [file])
  {
  }

  lemma ParseFilesNeedsFile(lines: seq<string>, i: nat, acc: seq<FilePatch>, header: string)
    requires i < |lines| && After(lines[i], "--- ") == Some(header) && ParseFiles(lines, i, acc).Ok?
    ensures ParseFile(lines, i, header).Ok?
  {
  }

  lemma ParseFilesOnDropped(lines: seq<string>, i: nat, acc: seq<FilePatch>)
    requires i < |lines| && IsDropped(lines[i])
    ensures ParseFiles(lines, i, acc) == ParseFiles(lines, i + 1, acc)
  {
  }

  lemma ParseFilesNoBinary(lines: seq<string>, i: nat, acc: seq<FilePatch>)
    requires i < |lines| && After(lines[i], "--- ").None? && ParseFiles(lines, i, acc).Ok?
    ensures IsDropped(lines[i])
  {
  }

  /**
   * What an accepted text is made of: file entries whose every line is header, decoration, hunk header or
   * hunk body, and between them lines that are dropped without notice. So exactly those lines are dropped
   * that follow the last of a file's consecutive hunks, up to the next file header.
   */
  lemma {:induction false} AcceptedText(lines: seq<string>, i: nat, acc: seq<FilePatch>, spans0: seq<Span>)
    returns (spans: seq<Span>, files: seq<FilePatch>)
    requires i <= |lines| && TextReads(lines, i, spans0, acc) && ParseFiles(lines, i, acc).Ok?
    ensures ParseFiles(lines, i, acc) == Ok(files) && TextReads(lines, |lines|, spans, files)
    decreases |lines| - i
  {
    if i == |lines| {
      spans, files := spans0, acc;
    } else if After(lines[i], "--- ").Some? {
      var header := After(lines[i], "--- ").value;
      ParseFilesNeedsFile(lines, i, acc, header);
      var span, file, next := AcceptedFile(lines, i, header);
      ParseFilesOnFile(lines, i, acc, header, file, next);
      TextReadsFile(lines, spans0, acc, span, file);
      spans, files := AcceptedText(lines, next, acc + [file], spans0 + [span]);
    } else {
      ParseFilesNoBinary(lines, i, acc);
      ParseFilesOnDropped(lines, i, acc);
      TextReadsLine(lines, i, spans0, acc);
      spans, files := AcceptedText(lines, i + 1, acc, spans0);
    }
  }

  /** Dropped lines make no difference, whatever they are: hunks among them are lost. */
  lemma {:induction false} DroppedIgnored(lines: seq<string>, i: nat, m: nat, acc: seq<FilePatch>)
    requires Dropped(lines, i, m)
    ensures ParseFiles(lines, i, acc) == ParseFiles(lines, m, acc)
    decreases m - i
  {
    if i < m {
      DroppedIgnored(lines, i, m - 1, acc);
      ParseFilesOnDropped(lines, m - 1, acc);
    }
  }

  // ----- The parser as loops over a line cursor

  /** Reads a hunk's body; an accepted one is all of the lines it takes, with exactly the counts of the header. */
  method ReadBody(lines: seq<string>, start: nat, h: Hunk) returns (r: Result<(seq<HunkLine>, nat), PatchError>)
    requires start <= |lines|
    ensures r == ParseBody(lines, start, h.oldCount, h.newCount, 0, 0, [])
    ensures r.Ok? ==>
      var (body, next) := r.value;
      && BodySpan(lines, start, next) && Squeezed(lines[start..next]) == BodyText(body)
      && h.oldCount == |OldKeys(body)| && h.newCount == |NewKeys(body)|
  {
    if ParseBody(lines, start, h.oldCount, h.newCount, 0, 0, []).Ok? {
      AcceptedBody(lines, start, h);
    }
    r := ReadBodyLines(lines, start, h);
  }

  method ReadBodyLines(lines: seq<string>, start: nat, h: Hunk) returns (r: Result<(seq<HunkLine>, nat), PatchError>)
    requires start <= |lines|
    ensures r == ParseBody(lines, start, h.oldCount, h.newCount, 0, 0, [])
  {
    var i := start;
    var hunkLines: seq<HunkLine> := [];
    var seenOld, seenNew := 0, 0;
    ghost var all := ParseBody(lines, start, h.oldCount, h.newCount, 0, 0, []);
    while i < |lines| && (seenOld < h.oldCount || seenNew < h.newCount || lines[i] == NO_NL)
      invariant i <= |lines|
      invariant all == ParseBody(lines, i, h.oldCount, h.newCount, seenOld, seenNew, hunkLines)
      decreases |lines| - i
    {
      var body := lines[i];
      if body == NO_NL {
        if |hunkLines| == 0 {
          return Err(MarkerWithoutLine);
        }
        hunkLines := MarkLast(hunkLines);
        i := i + 1;
        continue;
      }
      var line := ReadBodyLine(body);
      if line.Err? {
        return Err(line.error);
      }
      hunkLines := hunkLines + [line.value];
      seenOld := seenOld + if line.value.kind == Insert then 0 else 1;
      seenNew := seenNew + if line.value.kind == Delete then 0 else 1;
      i := i + 1;
    }
    if seenOld != h.oldCount || seenNew != h.newCount {
      return Err(CountMismatch);
    }
    return Ok((hunkLines, i));
  }

  method MarkLast(lines: seq<HunkLine>) returns (marked: seq<HunkLine>)
    requires lines != []
    ensures marked == lines[..|lines| - 1] + [lines[|lines| - 1].(noNewline := true)]
  {
    var last := |lines| - 1;
    marked := lines[last := lines[last].(noNewline := true)];
  }

  method ReadBodyLine(body: string) returns (line: Result<HunkLine, PatchError>)
    ensures line == BodyLine(body)
  {
    if StartsWith(body, "@@ ") || StartsWith(body, "--- ") || StartsWith(body, "diff --git") {
      return Err(HunkEndedEarly);
    }
    if body == "" {
      return Err(HunkEndedEarly);
    }
    var marker := body[0];
    if marker == ' ' {
      return Ok(HunkLine(Equal, body[1..], false));
    }
    if marker == '-' {
      return Ok(HunkLine(Delete, body[1..], false));
    }
    if marker == '+' {
      return Ok(HunkLine(Insert, body[1..], false));
    }
    return Err(MalformedBodyLine);
  }

  method ReadHunks(lines: seq<string>, start: nat) returns (r: Result<(seq<Hunk>, nat), PatchError>)
    requires start <= |lines|
    ensures r == ParseHunks(lines, start, [])
    ensures r.Ok? ==>
      var (hunks, next) := r.value;
      && (exists at :: HunksRead(lines, at, hunks) && at[0] == start && at[|hunks|] == next)
      && (next < |lines| ==> !StartsWith(lines[next], "@@ "))
  {
    if ParseHunks(lines, start, []).Ok? {
      ghost var at := AcceptedHunks(lines, start, [], [start]);
    }
    r := ReadHunksLoop(lines, start);
  }

  method ReadHunksLoop(lines: seq<string>, start: nat) returns (r: Result<(seq<Hunk>, nat), PatchError>)
    requires start <= |lines|
    ensures r == ParseHunks(lines, start, [])
  {
    var i := start;
    var hunks: seq<Hunk> := [];
    while i < |lines| && StartsWith(lines[i], "@@ ")
      invariant i <= |lines|
      invariant ParseHunks(lines, start, []) == ParseHunks(lines, i, hunks)
      decreases |lines| - i
    {
      var header := ParseHeader(lines[i]);
      if header == None {
        return Err(MalformedHeader);
      }
      var body := ReadBody(lines, i + 1, header.value);
      if body.Err? {
        return Err(body.error);
      }
      hunks := hunks + [header.value.(lines := body.value.0)];
      i := body.value.1;
    }
    return Ok((hunks, i));
  }

  method SkipToHunks(lines: seq<string>, start: nat) returns (r: Result<nat, PatchError>)
    requires start <= |lines|
    ensures r == SkipDecoration(lines, start)
    ensures r.Ok? ==>
      && start <= r.value <= |lines| && (forall k :: start <= k < r.value ==> Decorates(lines[k]))
      && (r.value < |lines| ==> StartsWith(lines[r.value], "@@ ") || StartsWith(lines[r.value], "--- "))
    ensures r.Err? ==>
      exists k :: start <= k < |lines| && !Decorates(lines[k]) && forall l :: start <= l < k ==> Decorates(lines[l])
  {
    var i := start;
    while i < |lines| && !StartsWith(lines[i], "@@ ") && !StartsWith(lines[i], "--- ")
      invariant start <= i <= |lines|
      invariant forall k :: start <= k < i ==> Decorates(lines[k])
      invariant SkipDecoration(lines, start) == SkipDecoration(lines, i)
      decreases |lines| - i
    {
      if !IsDecoration(lines[i]) {
        return Err(UnexpectedLine);
      }
      i := i + 1;
    }
    return Ok(i);
  }

  method ReadFile(lines: seq<string>, i: nat) returns (r: Result<(FilePatch, nat), PatchError>)
    requires i < |lines| && StartsWith(lines[i], "--- ")
    ensures After(lines[i], "--- ").Some? && r == ParseFile(lines, i, After(lines[i], "--- ").value)
  {
    StartsWithPrefix(lines[i], "--- ");
    var oldHeader, newHeader := Trim(lines[i][4..]), NewHeaderAt(lines, i + 1);
    var skipped := SkipToHunks(lines, if newHeader != "" then i + 2 else i + 1);
    if skipped.Err? {
      return Err(skipped.error);
    }
    var hunks := ReadHunks(lines, skipped.value);
    if hunks.Err? {
      return Err(hunks.error);
    }
    return Ok((FileOf(oldHeader, newHeader, hunks.value.0), hunks.value.1));
  }

  /** Reads a patch text; what it accepts is made of the files it returns and of lines that are dropped. */
  method ParseUnifiedPatch(patch: string) returns (r: Result<seq<FilePatch>, PatchError>)
    ensures r == Parsed(patch)
    ensures r.Ok? ==> exists spans :: TextReads(Split(patch), |Split(patch)|, spans, r.value)
  {
    var lines := Split(patch);
    if Parsed(patch).Ok? {
      ghost var spans, files := AcceptedText(lines, 0, [], []);
    }
    r := ReadFiles(lines);
  }

  lemma ParseFilesFails(lines: seq<string>, i: nat, acc: seq<FilePatch>, header: string, error: PatchError)
    requires i < |lines| && After(lines[i], "--- ") == Some(header) && ParseFile(lines, i, header) == Err(error)
    ensures ParseFiles(lines, i, acc) == Err(error)
  {
  }

  lemma ParseFilesOnBinary(lines: seq<string>, i: nat, acc: seq<FilePatch>)
    requires i < |lines| && !StartsWith(lines[i], "--- ") && StartsWith(lines[i], "Binary files ")
    ensures ParseFiles(lines, i, acc) == Err(BinaryEntry)
  {
  }

  lemma ParseFilesAtEnd(lines: seq<string>, acc: seq<FilePatch>)
    ensures ParseFiles(lines, |lines|, acc) == Ok(acc)
  {
  }

  /** Reads the file whose header is in line i, and appends its entry. */
  method ReadEntry(lines: seq<string>, i: nat, files: seq<FilePatch>)
    returns (r: Result<(seq<FilePatch>, nat), PatchError>)
    requires i < |lines| && StartsWith(lines[i], "--- ")
    ensures r.Err? ==> ParseFiles(lines, i, files) == Err(r.error)
    ensures r.Ok? ==>
      i < r.value.1 <= |lines| && ParseFiles(lines, i, files) == ParseFiles(lines, r.value.1, r.value.0)
  {
    var file := ReadFile(lines, i);
    ghost var header := After(lines[i], "--- ").value;
    if file.Err? {
      ParseFilesFails(lines, i, files, header, file.error);
      return Err(file.error);
    }
    ParseFilesOnFile(lines, i, files, header, file.value.0, file.value.1);
    return Ok((files + [file.value.0], file.value.1));
  }

  method ReadFiles(lines: seq<string>) returns (r: Result<seq<FilePatch>, PatchError>)
    ensures r == ParseFiles(lines, 0, [])
  {
    var files: seq<FilePatch> := [];
    var i := 0;
    ghost var all := ParseFiles(lines, 0, []);
    while i < |lines|
      invariant i <= |lines|
      invariant all == ParseFiles(lines, i, files)
      decreases |lines| - i
    {
      if StartsWith(lines[i], "--- ") {
        var read := ReadEntry(lines, i, files);
        if read.Err? {
          return Err(read.error);
        }
        files, i := read.value.0, read.value.1;
        continue;
      }
      if StartsWith(lines[i], "Binary files ") {
        ParseFilesOnBinary(lines, i, files);
        return Err(BinaryEntry);
      }
      ParseFilesOnDropped(lines, i, files);
      i := i + 1;
    }
    ParseFilesAtEnd(lines, files);
    return Ok(files);
  }
}
