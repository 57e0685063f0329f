/** Applying one file's patch exactly: no fuzz, no offset search. */
module PatchApply {
  import opened Text
  import opened LineModel
  import opened EditScript
  import opened Hunks
  import opened PatchParse

  // ----- Choosing the entry

  predicate NamesFile(entry: string, path: string) {
    entry == path || EndsWith(entry, "/" + path) || EndsWith(path, entry)
  }

  /** An entry is the path's if it is the path, the path inside some directory, or an end of the path. */
  lemma NamesExactly(entry: string, path: string)
    ensures NamesFile(entry, path) <==>
            || entry == path
            || (|entry| > |path| && entry[|entry| - |path|..] == path && entry[|entry| - |path| - 1] == '/')
            || (|entry| <= |path| && path[|path| - |entry|..] == entry)
  {
    if |entry| > |path| {
      var tail := entry[|entry| - |path| - 1..];
      assert tail == [tail[0]] + entry[|entry| - |path|..];
      assert ("/" + path)[0] == '/' && ("/" + path)[1..] == path;
    }
  }

  /** The first entry for the path; an empty path asks for the first entry. */
  function FindEntry(files: seq<FilePatch>, path: string, i: nat := 0): Option<FilePatch>
    decreases |files| - i
  {
    if i >= |files| then None
    else if path == "" || NamesFile(files[i].filePath, path) then Some(files[i])
    else FindEntry(files, path, i + 1)
  }

  // ----- Applying hunks

  /** The first reason why want does not lie at position at of the file, from its j-th line on. */
  function Mismatch(keyed: seq<string>, at: nat, want: seq<string>, j: nat := 0): Option<PatchError>
    requires j <= |want|
    decreases |want| - j
  {
    if j == |want| then None
    else if at + j >= |keyed| then Some(PastEndOfFile)
    else if keyed[at + j] != want[j] then Some(ContextMismatch)
    else Mismatch(keyed, at, want, j + 1)
  }

  function ApplyHunks(keyed: seq<string>, hunks: seq<Hunk>, k: nat, cursor: nat,
          result: seq<string>): Result<seq<string>, PatchError>
    requires k <= |hunks| && cursor <= |keyed|
    decreases |hunks| - k
  {
    if k == |hunks| then Ok(result + keyed[cursor..])
    else
      var h := hunks[k];
      var at := Anchor(h);
      if at < cursor || at > |keyed| then Err(HunkOutOfPlace)
      else
        match Mismatch(keyed, at, OldKeys(h.lines))
        case Some(error) => Err(error)
        case None =>
          MismatchExact(keyed, at, OldKeys(h.lines), 0);
          ApplyHunks(keyed, hunks, k + 1, at + |OldKeys(h.lines)|, result + keyed[cursor..at] + NewKeys(h.lines))
  }

  /** What one entry of a parsed patch makes of a content. */
  function AppliedEntry(oldContent: string, entry: FilePatch): Result<string, PatchError> {
    if entry.isDelete then Ok("")
    else
      var keys :- ApplyHunks(KeyLines(oldContent), entry.hunks, 0, 0, []);
      Ok(Unkey(keys))
  }

  /** What applyParsedPatch returns, or the error it throws. */
  function Patched(oldContent: string, patch: string, path: string): Result<string, PatchError> {
    var files :- Parsed(patch);
    match FindEntry(files, path)
    case None => Err(NoEntry)
    case Some(target) => AppliedEntry(oldContent, target)
  }

  // ----- No fuzz: exactly when a patch applies, and what it does then

  lemma {:induction false} MismatchExact(keyed: seq<string>, at: nat, want: seq<string>, j: nat)
    requires j <= |want| && at + j <= |keyed|
    ensures Mismatch(keyed, at, want, j) == None <==> at + |want| <= |keyed| && keyed[at + j..at + |want|] == want[j..]
    decreases |want| - j
  {
    if j < |want| && at + j < |keyed| {
      MismatchExact(keyed, at, want, j + 1);
      if at + |want| <= |keyed| {
        assert keyed[at + j..at + |want|] == [keyed[at + j]] + keyed[at + j + 1..at + |want|];
        assert want[j..] == [want[j]] + want[j + 1..];
      }
    }
  }

  /** One past the last old line of the hunk. */
  function HunkEnd(h: Hunk): int {
    Anchor(h) + |OldKeys(h.lines)|
  }

  function EndBefore(hunks: seq<Hunk>, k: nat): int
    requires k <= |hunks|
  {
    if k == 0 then 0 else HunkEnd(hunks[k - 1])
  }

  /** Hunk k lies behind hunk k - 1, and its old side is line for line what the file has there. */
  predicate FitsAt(keyed: seq<string>, hunks: seq<Hunk>, k: nat)
    requires k < |hunks|
  {
    var h := hunks[k];
    && 0 <= EndBefore(hunks, k) <= Anchor(h) && HunkEnd(h) <= |keyed|
    && keyed[Anchor(h)..HunkEnd(h)] == OldKeys(h.lines)
  }

  predicate Fits(keyed: seq<string>, hunks: seq<Hunk>) {
    forall k :: 0 <= k < |hunks| ==> FitsAt(keyed, hunks, k)
  }

  /** The file with every hunk's range replaced by its new side, the last hunk first. */
  ghost function Splice(keyed: seq<string>, hunks: seq<Hunk>): seq<string>
    decreases |hunks|
  {
    if hunks == [] then keyed
    else
      var h := hunks[|hunks| - 1];
      if 0 <= Anchor(h) && HunkEnd(h) <= |keyed|
      then Splice(keyed[..Anchor(h)], hunks[..|hunks| - 1]) + NewKeys(h.lines) + keyed[HunkEnd(h)..]
      else keyed
  }

  lemma {:induction false} SpliceShort(keyed: seq<string>, hunks: seq<Hunk>, size: nat)
    requires Fits(keyed, hunks) && EndBefore(hunks, |hunks|) <= size <= |keyed|
    ensures Fits(keyed[..size], hunks)
    ensures Splice(keyed, hunks) == Splice(keyed[..size], hunks) + keyed[size..]
  {
    FitsShort(keyed, hunks, size);
    if hunks == [] {
      assert keyed == keyed[..size] + keyed[size..];
    } else {
      var h := hunks[|hunks| - 1];
      assert FitsAt(keyed, hunks, |hunks| - 1);
      assert keyed[..size][..Anchor(h)] == keyed[..Anchor(h)];
      assert keyed[HunkEnd(h)..] == keyed[..size][HunkEnd(h)..] + keyed[size..];
    }
  }

  lemma {:induction false} EndsIncrease(keyed: seq<string>, hunks: seq<Hunk>, k: nat, l: nat)
    requires Fits(keyed, hunks) && k <= l <= |hunks|
    ensures EndBefore(hunks, k) <= EndBefore(hunks, l)
    decreases l - k
  {
    if k < l {
      assert FitsAt(keyed, hunks, k);
      EndsIncrease(keyed, hunks, k + 1, l);
    }
  }

  lemma FitsShort(keyed: seq<string>, hunks: seq<Hunk>, size: nat)
    requires Fits(keyed, hunks) && EndBefore(hunks, |hunks|) <= size <= |keyed|
    ensures Fits(keyed[..size], hunks)
  {
    forall k | 0 <= k < |hunks|
      ensures FitsAt(keyed[..size], hunks, k)
    {
      assert FitsAt(keyed, hunks, k);
      EndsIncrease(keyed, hunks, k + 1, |hunks|);
      assert keyed[..size][Anchor(hunks[k])..HunkEnd(hunks[k])] == keyed[Anchor(hunks[k])..HunkEnd(hunks[k])];
    }
  }

  /** The k-th hunk's own part of the splice. */
  lemma SpliceOne(keyed: seq<string>, hunks: seq<Hunk>, k: nat)
    requires k < |hunks| && Fits(keyed, hunks[..k]) && FitsAt(keyed, hunks, k)
    ensures var h, cursor := hunks[k], EndBefore(hunks, k);
            Splice(keyed[..cursor], hunks[..k]) + keyed[cursor..Anchor(h)] + NewKeys(h.lines)
            == Splice(keyed[..HunkEnd(h)], hunks[..k + 1])
  {
    var h, cursor, prior := hunks[k], EndBefore(hunks, k), hunks[..k];
    var upTo := keyed[..HunkEnd(h)];
    assert EndBefore(prior, k) == cursor;
    FitsShort(keyed, prior, Anchor(h));
    SpliceShort(keyed[..Anchor(h)], prior, cursor);
    assert keyed[..Anchor(h)][..cursor] == keyed[..cursor];
    assert keyed[..Anchor(h)][cursor..] == keyed[cursor..Anchor(h)];
    assert hunks[..k + 1][..k] == prior;
    assert upTo[..Anchor(h)] == keyed[..Anchor(h)] && upTo[HunkEnd(h)..] == [];
  }

  /** One hunk: it goes through exactly when it fits. */
  lemma ApplyStep(keyed: seq<string>, hunks: seq<Hunk>, k: nat, cursor: nat, result: seq<string>)
    requires k < |hunks| && cursor == EndBefore(hunks, k) && cursor <= |keyed|
    ensures var h := hunks[k];
            if FitsAt(keyed, hunks, k)
            then ApplyHunks(keyed, hunks, k, cursor, result)
                 == ApplyHunks(keyed, hunks, k + 1, HunkEnd(h), result + keyed[cursor..Anchor(h)] + NewKeys(h.lines))
            else ApplyHunks(keyed, hunks, k, cursor, result).Err?
  {
    var h := hunks[k];
    var want := OldKeys(h.lines);
    if cursor <= Anchor(h) <= |keyed| {
      MismatchExact(keyed, Anchor(h), want, 0);
      assert want[0..] == want;
    }
  }

  /** From hunk k on: success is fitting, and the result is the splice. */
  lemma {:induction false} ApplyFrom(keyed: seq<string>, hunks: seq<Hunk>, k: nat, cursor: nat, result: seq<string>)
    requires k <= |hunks| && cursor == EndBefore(hunks, k) && cursor <= |keyed|
    requires Fits(keyed, hunks[..k]) && result == Splice(keyed[..cursor], hunks[..k])
    ensures if Fits(keyed, hunks) then ApplyHunks(keyed, hunks, k, cursor, result) == Ok(Splice(keyed, hunks))
            else ApplyHunks(keyed, hunks, k, cursor, result).Err?
    decreases |hunks| - k
  {
    if k == |hunks| {
      assert hunks[..k] == hunks;
      SpliceShort(keyed, hunks, cursor);
    } else {
      ApplyStep(keyed, hunks, k, cursor, result);
      if FitsAt(keyed, hunks, k) {
        var h := hunks[k];
        SpliceOne(keyed, hunks, k);
        FitsSnoc(keyed, hunks, k);
        ApplyFrom(keyed, hunks, k + 1, HunkEnd(h), result + keyed[cursor..Anchor(h)] + NewKeys(h.lines));
      }
    }
  }

  lemma FitsSnoc(keyed: seq<string>, hunks: seq<Hunk>, k: nat)
    requires k < |hunks| && Fits(keyed, hunks[..k]) && FitsAt(keyed, hunks, k)
    ensures Fits(keyed, hunks[..k + 1])
  {
    var prefix := hunks[..k + 1];
    forall i | 0 <= i <= k
      ensures FitsAt(keyed, prefix, i)
    {
      if i < k {
        assert FitsAt(keyed, hunks[..k], i);
      }
    }
  }

  /**
   * No fuzz: a hunk list applies exactly when its hunks are in order, do not overlap, and each old
   * side is what the file has at the stated place; and then exactly those ranges are replaced.
   */
  lemma ApplyExact(keyed: seq<string>, hunks: seq<Hunk>)
    ensures if Fits(keyed, hunks) then ApplyHunks(keyed, hunks, 0, 0, []) == Ok(Splice(keyed, hunks))
            else ApplyHunks(keyed, hunks, 0, 0, []).Err?
  {
    assert hunks[..0] == [] && keyed[..0] == [];
    ApplyFrom(keyed, hunks, 0, 0, []);
  }

  lemma PatchedByEntry(oldContent: string, patch: string, path: string, entry: FilePatch)
    requires Parsed(patch).Ok? && FindEntry(Parsed(patch).value, path) == Some(entry)
    ensures Patched(oldContent, patch, path) == AppliedEntry(oldContent, entry)
  {
  }

  /**
   * The same for a whole patch text. An entry that deletes its file is the exception: it applies to
   * any content whatever its hunks say.
   */
  lemma PatchedExact(oldContent: string, patch: string, path: string)
    requires Parsed(patch).Ok? && FindEntry(Parsed(patch).value, path).Some?
    ensures var entry := FindEntry(Parsed(patch).value, path).value;
            && (Patched(oldContent, patch, path).Ok? <==> entry.isDelete || Fits(KeyLines(oldContent), entry.hunks))
            && (entry.isDelete ==> Patched(oldContent, patch, path) == Ok(""))
            && (!entry.isDelete && Fits(KeyLines(oldContent), entry.hunks) ==>
                Patched(oldContent, patch, path) == Ok(Unkey(Splice(KeyLines(oldContent), entry.hunks))))
  {
    var entry := FindEntry(Parsed(patch).value, path).value;
    PatchedByEntry(oldContent, patch, path, entry);
    if !entry.isDelete {
      ApplyExact(KeyLines(oldContent), entry.hunks);
    }
  }

  // ----- The applier as loops

  /** lines.filter(kind != insert), keyed. */
  method OldSideOf(lines: seq<HunkLine>) returns (oldSide: seq<string>)
    ensures oldSide == OldKeys(lines)
  {
    oldSide := [];
    for i := 0 to |lines|
      invariant oldSide == OldKeys(lines[..i])
    {
      assert lines[..i + 1][..i] == lines[..i];
      if lines[i].kind != Insert {
        oldSide := oldSide + [lines[i].text + (if lines[i].noNewline then NO_NEWLINE else "")];
      }
    }
    assert lines[..|lines|] == lines;
  }

  method CheckOldSide(keyed: seq<string>, at: nat, oldSide: seq<string>) returns (error: Option<PatchError>)
    ensures error == Mismatch(keyed, at, oldSide)
  {
    var k := 0;
    while k < |oldSide|
      invariant k <= |oldSide|
      invariant Mismatch(keyed, at, oldSide) == Mismatch(keyed, at, oldSide, k)
    {
      if at + k >= |keyed| {
        return Some(PastEndOfFile);
      }
      if keyed[at + k] != oldSide[k] {
        return Some(ContextMismatch);
      }
      k := k + 1;
    }
    return None;
  }

  method CopyLines(keyed: seq<string>, from: nat, to: nat, result0: seq<string>) returns (result: seq<string>)
    requires from <= to <= |keyed|
    ensures result == result0 + keyed[from..to]
  {
    result := result0;
    for k := from to to
      invariant result == result0 + keyed[from..k]
    {
      result := result + [keyed[k]];
    }
  }

  method EmitNewSide(lines: seq<HunkLine>, result0: seq<string>) returns (result: seq<string>)
    ensures result == result0 + NewKeys(lines)
  {
    result := result0;
    for i := 0 to |lines|
      invariant result == result0 + NewKeys(lines[..i])
    {
      assert lines[..i + 1][..i] == lines[..i];
      if lines[i].kind != Delete {
        result := result + [lines[i].text + (if lines[i].noNewline then NO_NEWLINE else "")];
      }
    }
    assert lines[..|lines|] == lines;
  }

  method ApplyAll(keyed: seq<string>, hunks: seq<Hunk>) returns (r: Result<seq<string>, PatchError>)
    ensures r == ApplyHunks(keyed, hunks, 0, 0, [])
  {
    var result: seq<string> := [];
    var cursor := 0;
    var k := 0;
    while k < |hunks|
      invariant k <= |hunks| && 0 <= cursor <= |keyed|
      invariant ApplyHunks(keyed, hunks, 0, 0, []) == ApplyHunks(keyed, hunks, k, cursor, result)
    {
      var hunk := hunks[k];
      var oldSide := OldSideOf(hunk.lines);
      var at := if hunk.oldCount == 0 then hunk.oldStart else hunk.oldStart - 1;
      if at < cursor || at > |keyed| {
        return Err(HunkOutOfPlace);
      }
      var mismatch := CheckOldSide(keyed, at, oldSide);
      if mismatch.Some? {
        return Err(mismatch.value);
      }
      MismatchExact(keyed, at, oldSide, 0);
      result := CopyLines(keyed, cursor, at, result);
      result := EmitNewSide(hunk.lines, result);
      cursor := at + |oldSide|;
      k := k + 1;
    }
    assert keyed[cursor..|keyed|] == keyed[cursor..];
    result := CopyLines(keyed, cursor, |keyed|, result);
    return Ok(result);
  }

  method FindTarget(files: seq<FilePatch>, path: string) returns (target: Option<FilePatch>)
    ensures target == FindEntry(files, path)
  {
    var i := 0;
    while i < |files|
      invariant i <= |files|
      invariant FindEntry(files, path) == FindEntry(files, path, i)
    {
      if path == "" || NamesFile(files[i].filePath, path) {
        return Some(files[i]);
      }
      i := i + 1;
    }
    return None;
  }

  method ApplyParsedPatch(oldContent: string, patch: string, path: string) returns (r: Result<string, PatchError>)
    ensures r == Patched(oldContent, patch, path)
  {
    var parsed := ParseUnifiedPatch(patch);
    if parsed.Err? {
      return Err(parsed.error);
    }
    var target := FindTarget(parsed.value, path);
    if target.None? {
      return Err(NoEntry);
    }
    if target.value.isDelete {
      return Ok("");
    }
    var keyed := ComputeKeyLines(oldContent);
    var result := ApplyAll(keyed, target.value.hunks);
    if result.Err? {
      return Err(result.error);
    }
    var lines := result.value;
    var endsWithNewline := if |lines| == 0 then false else !EndsWith(lines[|lines| - 1], NO_NEWLINE);
    return Ok(JoinContent(ContentLines(StripAll(lines), endsWithNewline)));
  }
}
