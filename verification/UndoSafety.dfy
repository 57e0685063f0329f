/** What undo may do to files that somebody else has changed in the meantime. */
module UndoSafety {
  import opened Text
  import opened PatchApply
  import opened PatchParse
  import opened Checkpoints

  /** The entry takes its file's text away: it was the turn's own result, at the entry's own path. */
  predicate OwnWork(e: Entry, path: string, text: string) {
    e.movedTo == "" && path == e.path && Sha256(text) == e.afterHash
  }

  /** The file is renamed back: from where the turn moved it to its old, now free, path. */
  predicate MovedBack(before: Files, after: Files, e: Entry, path: string)
    requires path in before
  {
    && e.movedTo != "" && path == e.movedTo
    && e.path !in before && e.path in after && after[e.path] == before[path]
  }

  predicate Kept(before: Files, after: Files, path: string)
    requires path in before
  {
    path in after && after[path] == before[path]
  }

  /** Every existing file survives as it is, was the turn's own work, or is moved back whole. */
  ghost predicate NothingForeignLost(before: Files, after: Files, e: Entry) {
    forall path :: path in before ==>
      Kept(before, after, path) || OwnWork(e, path, before[path]) || MovedBack(before, after, e, path)
  }

  /** Only the entry's own path appears or gets a new text. */
  ghost predicate NothingElseWritten(before: Files, after: Files, e: Entry) {
    forall path :: path in after && path != e.path ==> path in before && after[path] == before[path]
  }

  /** Undoing the entry comes down to applying its reverse patch: to the turn's own text, or to nothing. */
  predicate Rebuilds(now: Files, e: Entry) {
    && e.movedTo == "" && !e.createdByEdit
    && (if e.path in now then Sha256(now[e.path]) == e.afterHash else e.removedByEdit || !e.existedBefore)
  }

  function Rebuilt(now: Files, e: Entry): Result<string, PatchError> {
    Patched(if e.path in now then now[e.path] else "", e.reversePatch, e.path)
  }

  /** What the reverse patch gives here is not the original. */
  predicate Misrebuilds(now: Files, e: Entry) {
    Rebuilds(now, e) && Rebuilt(now, e).Ok? && Sha256(Rebuilt(now, e).value) != e.beforeHash
  }

  /** A refusal touches nothing, except that a text which is not the original is written and reported. */
  ghost predicate RefusalHarmless(s: Undoing, r: Undoing, e: Entry) {
    |r.conflicts| > |s.conflicts| ==>
      if Misrebuilds(s.files, e) then
        r == s.(files := s.files[e.path := Rebuilt(s.files, e).value],
                    conflicts := s.conflicts + [Conflict(e.path, NotReproduced)])
      else r.files == s.files && exists reason :: r.conflicts == s.conflicts + [Conflict(e.path, reason)]
  }

  /** Undo throws exactly when the text has to be rebuilt and the reverse patch does not apply. */
  predicate ThrowsExactly(s: Undoing, r: Undoing, e: Entry) {
    r.thrown.Some? <==> Rebuilds(s.files, e) && Rebuilt(s.files, e).Err?
  }

  /** A path reported as restored holds the pre-turn text, is gone again, or has been moved back. */
  predicate RestoredRight(s: Undoing, r: Undoing, e: Entry) {
    |r.restored| > |s.restored| ==>
      && r.restored == s.restored + [e.path]
      && (if e.movedTo != "" then e.path in r.files && e.movedTo in s.files && r.files[e.path] == s.files[e.movedTo]
          else if e.createdByEdit then e.path !in r.files
          else e.path in r.files && Sha256(r.files[e.path]) == e.beforeHash)
  }

  /** An error leaves the files of that step alone, and each step that does not fail reports its path once. */
  predicate Accounted(s: Undoing, r: Undoing) {
    if r.thrown.Some? then r.files == s.files && r.restored == s.restored && r.conflicts == s.conflicts
    else |r.restored| + |r.conflicts| == |s.restored| + |s.conflicts| + 1
  }

  lemma RestoringIsSafe(s: Undoing, e: Entry, content: string)
    requires s.thrown == None && e.movedTo == "" && !e.createdByEdit
    requires e.path in s.files ==> OwnWork(e, e.path, s.files[e.path])
    ensures var r := RestoreByPatch(s, e, content);
            && NothingForeignLost(s.files, r.files, e) && NothingElseWritten(s.files, r.files, e)
            && RestoredRight(s, r, e) && Accounted(s, r)
  {
  }

  lemma RestoringReports(s: Undoing, e: Entry)
    requires s.thrown == None && Rebuilds(s.files, e)
    ensures var r := RestoreByPatch(s, e, if e.path in s.files then s.files[e.path] else "");
            RefusalHarmless(s, r, e) && ThrowsExactly(s, r, e)
  {
    match Rebuilt(s.files, e) {
      case Err(_) =>
      case Ok(text) =>
        assert Misrebuilds(s.files, e) <==> Sha256(text) != e.beforeHash;
    }
  }

  /** Whatever the files have become, undoing one entry destroys nothing but the turn's own work. */
  lemma UndoEntryIsSafe(s: Undoing, e: Entry)
    requires s.thrown == None
    ensures var r := UndoEntry(s, e);
            && NothingForeignLost(s.files, r.files, e) && NothingElseWritten(s.files, r.files, e)
            && RefusalHarmless(s, r, e) && RestoredRight(s, r, e) && Accounted(s, r) && ThrowsExactly(s, r, e)
  {
    if e.movedTo == "" && !e.createdByEdit {
      if e.path !in s.files {
        RestoringIsSafe(s, e, "");
        if Rebuilds(s.files, e) {
          RestoringReports(s, e);
        }
      } else if OwnWork(e, e.path, s.files[e.path]) {
        RestoringIsSafe(s, e, s.files[e.path]);
        RestoringReports(s, e);
      }
    }
  }

  // ----- Reasons

  /** The reason given for a refusal is what the files say. */
  predicate Justified(now: Files, e: Entry, reason: Reason) {
    match reason
    case NothingToMoveBack => e.movedTo != "" && e.movedTo !in now
    case PathOccupied => e.movedTo != "" && e.movedTo in now && e.path in now
    case ChangedSinceCreated => e.createdByEdit && e.path in now && Sha256(now[e.path]) != e.afterHash
    case FileGone => !e.createdByEdit && !e.removedByEdit && e.existedBefore && e.path !in now
    case EditedSince => !e.createdByEdit && e.path in now && Sha256(now[e.path]) != e.afterHash
    case NotReproduced => Misrebuilds(now, e)
  }

  lemma RestoringJustified(s: Undoing, e: Entry)
    requires s.thrown == None && Rebuilds(s.files, e)
    requires var r := RestoreByPatch(s, e, if e.path in s.files then s.files[e.path] else "");
             |r.conflicts| > |s.conflicts|
    ensures var r := RestoreByPatch(s, e, if e.path in s.files then s.files[e.path] else "");
            r.conflicts == s.conflicts + [Conflict(e.path, NotReproduced)] && Misrebuilds(s.files, e)
  {
    RestoringReports(s, e);
  }

  /** Why an entry is refused on these files. */
  function Excuse(now: Files, e: Entry): Reason {
    if e.movedTo != "" then (if e.movedTo in now then PathOccupied else NothingToMoveBack)
    else if e.createdByEdit then ChangedSinceCreated
    else if Rebuilds(now, e) then NotReproduced
    else if e.path in now then EditedSince
    else FileGone
  }

  /** A refusal names the entry's path and a reason that is true of the files found. */
  lemma RefusalsJustified(s: Undoing, e: Entry)
    requires s.thrown == None && |UndoEntry(s, e).conflicts| > |s.conflicts|
    ensures exists reason ::
              UndoEntry(s, e).conflicts == s.conflicts + [Conflict(e.path, reason)] && Justified(s.files, e, reason)
  {
    if e.movedTo == "" && !e.createdByEdit && Rebuilds(s.files, e) {
      RestoringJustified(s, e);
    }
    var reason := Excuse(s.files, e);
    assert UndoEntry(s, e).conflicts == s.conflicts + [Conflict(e.path, reason)] && Justified(s.files, e, reason);
  }

  // ----- Over a whole undo

  ghost function Holders(files: Files, text: string): set<string> {
    set path | path in files && files[path] == text
  }

  /** The text is not what one of the entries left behind. */
  predicate Foreign(entries: seq<Entry>, text: string) {
    forall i :: 0 <= i < |entries| ==> entries[i].afterHash != Sha256(text)
  }

  lemma {:induction false} Smaller<T>(a: set<T>, b: set<T>)
    requires a <= b
    ensures |a| <= |b|
    decreases |a|
  {
    if x :| x in a {
      Smaller(a - {x}, b - {x});
    }
  }

  ghost predicate NoFewerHolders(a: Undoing, b: Undoing, text: string) {
    |Holders(a.files, text)| <= |Holders(b.files, text)|
  }

  lemma CopiesKeptByEntry(s: Undoing, e: Entry, text: string)
    requires e.afterHash != Sha256(text) && s.thrown == None
    ensures NoFewerHolders(s, UndoEntry(s, e), text)
  {
    var before, after := s.files, UndoEntry(s, e).files;
    var held, holding := Holders(before, text), Holders(after, text);
    UndoEntryIsSafe(s, e);
    if e.movedTo in held && e.movedTo !in holding {
      assert MovedBack(before, after, e, e.movedTo);
      Smaller(held - {e.movedTo} + {e.path}, holding);
    } else {
      Smaller(held, holding);
    }
  }

  /** No copy of a text that the turn did not leave behind is lost, whatever the files have become. */
  lemma ForeignWorkSurvives(files: Files, entries: seq<Entry>, text: string)
    requires Foreign(entries, text)
    ensures |Holders(UndoTurn(files, entries).files, text)| >= |Holders(files, text)|
  {
    var kept := (a: Undoing, b: Undoing) => NoFewerHolders(a, b, text);
    forall a: Undoing, i | 0 <= i < |entries| && !Threw(a) ensures kept(a, UndoEntry(a, entries[i])) {
      CopiesKeptByEntry(a, entries[i], text);
    }
    FoldKeeps(UndoEntry, Threw, kept, Start(files), entries, |entries|, 0);
  }

  /** A file that no entry names stays exactly as it is. */
  lemma UnnamedFilesUntouched(files: Files, entries: seq<Entry>, path: string)
    requires forall i :: 0 <= i < |entries| ==> path != entries[i].path && path != entries[i].movedTo
    ensures var r := UndoTurn(files, entries).files;
            (path in r <==> path in files) && (path in files ==> r[path] == files[path])
  {
    var kept := (a: Undoing, b: Undoing) =>
      (path in b.files <==> path in a.files) && (path in a.files ==> b.files[path] == a.files[path]);
    forall a: Undoing, i | 0 <= i < |entries| && !Threw(a) ensures kept(a, UndoEntry(a, entries[i])) {
      UndoEntryIsSafe(a, entries[i]);
    }
    FoldKeeps(UndoEntry, Threw, kept, Start(files), entries, |entries|, 0);
  }

  /** Every entry is reported exactly once, as restored or as refused, exactly when undo does not end with an error. */
  lemma EveryEntryReported(files: Files, entries: seq<Entry>)
    ensures var r := UndoTurn(files, entries);
            if r.thrown == None then |r.restored| + |r.conflicts| == |entries|
            else |r.restored| + |r.conflicts| < |entries|
  {
    var count := (a: Undoing) => |a.restored| + |a.conflicts|;
    forall a: Undoing, i | 0 <= i < |entries| && !Threw(a)
      ensures var b := UndoEntry(a, entries[i]); count(b) == count(a) + if Threw(b) then 0 else 1
    {
      UndoEntryIsSafe(a, entries[i]);
    }
    FoldCounts(UndoEntry, Threw, count, Start(files), entries, |entries|, 0);
  }
}
