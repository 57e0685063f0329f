/** The checkpoint store as an object: the open turn, the checkpoint files and the workspace. */
module CheckpointStore {
  import opened EditScript
  import opened Text
  import opened PatchFormat
  import opened PatchParse
  import opened PatchApply
  import opened Checkpoints
  import opened CheckpointFiles
  import opened UndoStack

  const DEFAULT_RETAINED_TURNS: int := 20

  /** `refused` says that nothing at all could be restored. */
  datatype UndoOutcome = UndoOutcome(turnId: string, restored: seq<string>, conflicts: seq<Conflict>, refused: bool)

  function Outcome(c: Checkpoint, r: Undoing): Result<UndoOutcome, PatchError> {
    match r.thrown
    case Some(error) => Err(error)
    case None => Ok(UndoOutcome(c.turnId, r.restored, r.conflicts, r.restored == []))
  }

  method RecordsPath(entries: seq<Entry>, path: string) returns (found: bool)
    ensures found == HasEntry(entries, path)
  {
    for i := 0 to |entries|
      invariant forall j :: 0 <= j < i ==> entries[j].path != path
    {
      if entries[i].path == path {
        return true;
      }
    }
    return false;
  }

  ghost function WithEntry(turn: Option<Checkpoint>, e: Entry): Option<Checkpoint> {
    match turn
    case None => None
    case Some(c) => Some(c.(entries := Recorded(c.entries, e)))
  }

  // ----- Removing stale files session by session

  ghost function StaleOf(dir: Dir, keep: nat, sessions: seq<string>): set<(string, string)> {
    if sessions == [] then {}
    else StaleOf(dir, keep, sessions[..|sessions| - 1]) + StaleIn(dir, keep, sessions[|sessions| - 1])
  }

  ghost function StaleIn(dir: Dir, keep: nat, sessionId: string): set<(string, string)> {
    var list := Listed(dir, sessionId);
    Names(list[Min(keep, |list|)..])
  }

  lemma StaleOfSnoc(dir: Dir, keep: nat, sessions: seq<string>, sessionId: string)
    ensures StaleOf(dir, keep, sessions + [sessionId]) == StaleOf(dir, keep, sessions) + StaleIn(dir, keep, sessionId)
  {
    assert (sessions + [sessionId])[..|sessions|] == sessions;
  }

  lemma NamesSnoc(list: Dir, k: nat, j: nat)
    requires k <= j < |list|
    ensures Names(list[k..j + 1]) == Names(list[k..j]) + {Name(list[j])}
  {
    SliceSnoc(list, k, j);
  }

  lemma {:induction false} WithoutTwice(dir: Dir, a: set<(string, string)>, b: set<(string, string)>)
    ensures Without(Without(dir, a), b) == Without(dir, a + b)
    decreases |dir|
  {
    if dir != [] {
      var front := dir[..|dir| - 1];
      WithoutTwice(front, a, b);
      WithoutSnoc(Without(front, a), Last(dir), b);
    }
  }

  lemma {:induction false} StaleOfMember(dir: Dir, keep: nat, sessions: seq<string>, name: (string, string))
    ensures name in StaleOf(dir, keep, sessions) <==> name.0 in sessions && name in StaleIn(dir, keep, name.0)
    decreases |sessions|
  {
    if sessions != [] {
      var last := sessions[|sessions| - 1];
      StaleOfMember(dir, keep, sessions[..|sessions| - 1], name);
      assert sessions[..|sessions| - 1] + [last] == sessions;
      if name in StaleIn(dir, keep, last) {
        StaleInMember(dir, keep, last, name);
      }
    }
  }

  lemma StaleInMember(dir: Dir, keep: nat, sessionId: string, name: (string, string))
    requires name in StaleIn(dir, keep, sessionId)
    ensures name.0 == sessionId && exists c :: c in dir && Name(c) == name
  {
    var list := Listed(dir, sessionId);
    var c :| c in list[Min(keep, |list|)..] && Name(c) == name;
    ListedMember(dir, c, sessionId);
  }

  lemma AllStale(dir: Dir, keep: nat, sessions: seq<string>)
    requires forall i :: 0 <= i < |dir| ==> dir[i].sessionId in sessions
    ensures StaleOf(dir, keep, sessions) == StaleNames(dir, keep)
  {
    forall name ensures name in StaleOf(dir, keep, sessions) <==> name in StaleNames(dir, keep) {
      StaleOfMember(dir, keep, sessions, name);
      if name in StaleIn(dir, keep, name.0) {
        StaleInMember(dir, keep, name.0, name);
      }
    }
  }

  lemma {:induction false} WithoutNone(dir: Dir)
    ensures Without(dir, {}) == dir
    decreases |dir|
  {
    if dir != [] {
      WithoutNone(dir[..|dir| - 1]);
    }
  }

  ghost predicate Grouped(dir: Dir, sessions: seq<string>, bySession: map<string, Dir>) {
    && (forall i :: 0 <= i < |dir| ==> dir[i].sessionId in sessions)
    && (forall s :: s in sessions <==> s in bySession)
    && (forall s :: s in bySession ==> bySession[s] == OfSession(dir, s))
  }

  lemma {:induction false} NoneOfSession(dir: Dir, sessionId: string)
    requires forall i :: 0 <= i < |dir| ==> dir[i].sessionId != sessionId
    ensures OfSession(dir, sessionId) == []
    decreases |dir|
  {
    if dir != [] {
      NoneOfSession(dir[..|dir| - 1], sessionId);
    }
  }

  lemma GroupOneMore(dir: Dir, sessions: seq<string>, bySession: map<string, Dir>, c: Checkpoint)
    requires Grouped(dir, sessions, bySession)
    ensures var name := c.sessionId;
            var sessions1 := if name in bySession then sessions else sessions + [name];
            var list := if name in bySession then bySession[name] else [];
            Grouped(dir + [c], sessions1, bySession[name := list + [c]])
  {
    var name := c.sessionId;
    var sessions1 := if name in bySession then sessions else sessions + [name];
    var list := if name in bySession then bySession[name] else [];
    var grown := bySession[name := list + [c]];
    if name !in bySession {
      NoneOfSession(dir, name);
    }
    forall s | s in grown ensures grown[s] == OfSession(dir + [c], s) {
      OfSessionSnoc(dir, c, s);
    }
  }

  /** The sessions that have files, in order of appearance, and the files of each. */
  method GroupBySession(dir: Dir) returns (sessions: seq<string>, bySession: map<string, Dir>)
    ensures Grouped(dir, sessions, bySession)
  {
    sessions, bySession := [], map[];
    for i := 0 to |dir|
      invariant Grouped(dir[..i], sessions, bySession)
    {
      GroupOneMore(dir[..i], sessions, bySession, dir[i]);
      TakeSnoc(dir, i);
      var name := dir[i].sessionId;
      if name !in bySession {
        sessions := sessions + [name];
        bySession := bySession[name := []];
      }
      bySession := bySession[name := bySession[name] + [dir[i]]];
    }
    assert dir[..|dir|] == dir;
  }

  // ----- Undoing entry by entry

  /** What a step of the undo loop reports and leaves is what undoing the entry means. */
  ghost predicate Reported(s: Undoing, r: Undoing, e: Entry, files: Files, refused: Option<Reason>,
          thrown: Option<PatchError>)
  {
    && r.files == files
    && (if thrown.Some? then r.thrown == thrown
        else if refused.Some? then r == Refused(s.(files := files), e, refused.value)
        else r == Restored(s, e, files))
  }

  class TurnCheckpointStore {
    const keep: nat
    var files: Files
    var dir: Dir
    var current: Option<Checkpoint>

    constructor (files: Files, dir: Dir, retainTurns: Option<int>)
      ensures this.files == files && this.dir == dir && current == None
      ensures keep >= 1 && (var wanted := if retainTurns.Some? then retainTurns.value else DEFAULT_RETAINED_TURNS;
                            keep == if wanted < 1 then 1 else wanted)
    {
      var wanted := if retainTurns.Some? then retainTurns.value else DEFAULT_RETAINED_TURNS;
      this.keep := if wanted < 1 then 1 else wanted;
      this.files := files;
      this.dir := dir;
      this.current := None;
    }

    method BeginTurn(sessionId: string, turnId: string, title: string, now: nat)
      modifies this`current
      ensures current == Some(Checkpoint(sessionId, turnId, now, title, [], 0))
    {
      current := Some(Checkpoint(sessionId, turnId, now, title, [], 0));
    }

    method RecordEdit(path: string, before: EditRecord, after: EditRecord)
      modifies this`current
      ensures current == WithEntry(old(current), EditEntry(path, before, after))
    {
      if current.None? {
        return;
      }
      var known := RecordsPath(current.value.entries, path);
      if known {
        return;
      }
      var reversePatch := FormatUnifiedPatch(path, after.content, before.content, DEFAULTS);
      var e := Entry(path, reversePatch, Sha256(after.content), Sha256(before.content), before.exists_,
                     before.exists_ && !after.exists_, !before.exists_ && after.exists_, "");
      current := Some(current.value.(entries := current.value.entries + [e]));
    }

    method RecordMove(from: string, to: string)
      modifies this`current
      ensures current == WithEntry(old(current), MoveEntry(from, to))
    {
      if current.None? {
        return;
      }
      var known := RecordsPath(current.value.entries, from);
      if known {
        return;
      }
      current := Some(current.value.(entries := current.value.entries + [MoveEntry(from, to)]));
    }

    method CancelTurn()
      modifies this`current
      ensures current == None
    {
      current := None;
    }

    /** Persists the open turn, if it recorded anything, and lets go of what retention does not keep. */
    method CommitTurn() returns (committed: Option<Checkpoint>)
      modifies this`current, this`dir
      ensures current == None
      ensures dir == if old(current).None? then old(dir) else Committed(old(dir), old(current).value, keep)
      ensures committed == if old(current).None? || old(current).value.entries == [] then None else old(current)
    {
      var turn := current;
      current := None;
      if turn.None? || turn.value.entries == [] {
        return None;
      }
      dir := Saved(dir, turn.value);
      Prune();
      return turn;
    }

    method List(sessionId: string) returns (list: Dir)
      ensures list == Listed(dir, sessionId)
    {
      var found: Dir := [];
      for i := 0 to |dir|
        invariant found == OfSession(dir[..i], sessionId)
      {
        TakeSnoc(dir, i);
        OfSessionSnoc(dir[..i], dir[i], sessionId);
        if dir[i].sessionId == sessionId {
          found := found + [dir[i]];
        }
      }
      assert dir[..|dir|] == dir;
      return Sorted(found);
    }

    method Latest(sessionId: string) returns (c: Option<Checkpoint>)
      ensures var list := Listed(dir, sessionId);
              c == if FirstLive(list) == |list| then None else Some(list[FirstLive(list)])
      ensures c.Some? <==> exists i :: 0 <= i < |Listed(dir, sessionId)| && Listed(dir, sessionId)[i].undoneAt == 0
      ensures c.Some? ==> c.value.undoneAt == 0
    {
      var list := List(sessionId);
      for i := 0 to |list|
        invariant FirstLive(list) == i + FirstLive(list[i..])
      {
        if Live(list[i]) {
          return Some(list[i]);
        }
        assert list[i..][1..] == list[i + 1..];
      }
      return None;
    }

    /** Removes, session by session, what is beyond the newest `keep`. */
    method Prune()
      modifies this`dir
      ensures dir == Pruned(old(dir), keep)
    {
      var sessions, bySession := GroupBySession(dir);
      ghost var gone: set<(string, string)> := {};
      WithoutNone(dir);
      for i := 0 to |sessions|
        invariant dir == Without(old(dir), gone)
        invariant gone == StaleOf(old(dir), keep, sessions[..i])
      {
        var list := Sorted(bySession[sessions[i]]);
        RemoveStale(list, old(dir), gone);
        gone := gone + Names(list[Min(keep, |list|)..]);
        TakeSnoc(sessions, i);
        StaleOfSnoc(old(dir), keep, sessions[..i], sessions[i]);
      }
      assert sessions[..|sessions|] == sessions;
      AllStale(old(dir), keep, sessions);
    }

    /** Unlinks the files of a session's listing beyond the newest `keep`. */
    method RemoveStale(list: Dir, ghost all: Dir, ghost gone: set<(string, string)>)
      requires dir == Without(all, gone)
      modifies this`dir
      ensures dir == Without(all, gone + Names(list[Min(keep, |list|)..]))
    {
      var k := Min(keep, |list|);
      assert gone + Names(list[k..k]) == gone;
      for j := k to |list|
        invariant dir == Without(all, gone + Names(list[k..j]))
      {
        WithoutTwice(all, gone + Names(list[k..j]), {Name(list[j])});
        NamesSnoc(list, k, j);
        dir := Without(dir, {Name(list[j])});
        assert gone + Names(list[k..j]) + {Name(list[j])} == gone + Names(list[k..j + 1]);
      }
      assert list[k..|list|] == list[k..];
    }

    /** Writes what the reverse patch makes of the content, and reports whether that is the original. */
    method RestoreFile(e: Entry, content: string, ghost s: Undoing)
      returns (refused: Option<Reason>, thrown: Option<PatchError>)
      requires s.files == files && s.thrown == None
      modifies this`files
      ensures Reported(s, RestoreByPatch(s, e, content), e, files, refused, thrown)
    {
      var restored := ApplyParsedPatch(content, e.reversePatch, e.path);
      if restored.Err? {
        return None, Some(restored.error);
      }
      files := files[e.path := restored.value];
      if Sha256(files[e.path]) != e.beforeHash {
        return Some(NotReproduced), None;
      }
      return None, None;
    }

    /** One turn of the undo loop: the entry is restored, refused for a reason, or fails. */
    method UndoOne(e: Entry, ghost s: Undoing) returns (refused: Option<Reason>, thrown: Option<PatchError>)
      requires s.files == files && s.thrown == None
      modifies this`files
      ensures Reported(s, UndoEntry(s, e), e, files, refused, thrown)
    {
      if e.movedTo != "" {
        if e.movedTo !in files {
          return Some(NothingToMoveBack), None;
        }
        if e.path in files {
          return Some(PathOccupied), None;
        }
        files := (files - {e.movedTo})[e.path := files[e.movedTo]];
        return None, None;
      }
      if e.createdByEdit {
        if e.path in files {
          if Sha256(files[e.path]) != e.afterHash {
            return Some(ChangedSinceCreated), None;
          }
          files := files - {e.path};
        }
        assert s.files - {e.path} == files;
        return None, None;
      }
      if e.path !in files {
        if e.removedByEdit || !e.existedBefore {
          refused, thrown := RestoreFile(e, "", s);
          return;
        }
        return Some(FileGone), None;
      }
      if Sha256(files[e.path]) != e.afterHash {
        return Some(EditedSince), None;
      }
      refused, thrown := RestoreFile(e, files[e.path], s);
    }

    /** Undoes a turn, newest change first, and marks its checkpoint if anything was restored. */
    method Undo(turn: Checkpoint, now: nat) returns (outcome: Result<UndoOutcome, PatchError>)
      modifies this`files, this`dir
      ensures State(files, dir) == Undone(State(old(files), old(dir)), turn, now)
      ensures outcome == Outcome(turn, UndoTurn(old(files), turn.entries))
      ensures outcome.Err? || outcome.value.refused ==> dir == old(dir)
      ensures outcome.Ok? && !outcome.value.refused ==>
                |dir| == |old(dir)| && forall i :: 0 <= i < |dir| ==>
                  dir[i] == if Name(old(dir)[i]) == Name(turn) then turn.(undoneAt := now) else old(dir)[i]
    {
      UndoMarks(State(files, dir), turn, now);
      var restored: seq<string> := [];
      var conflicts: seq<Conflict> := [];
      var i := |turn.entries|;
      while i > 0
        invariant 0 <= i <= |turn.entries| && dir == old(dir)
        invariant UndoTurn(old(files), turn.entries)
            == UndoEntries(Undoing(files, restored, conflicts, None), turn.entries, i)
      {
        i := i - 1;
        ghost var s := Undoing(files, restored, conflicts, None);
        var refused, thrown := UndoOne(turn.entries[i], s);
        UndoOneMore(s, turn.entries, i);
        if thrown.Some? {
          UndoOver(UndoEntry(s, turn.entries[i]), turn.entries, i);
          return Err(thrown.value);
        }
        if refused.Some? {
          conflicts := conflicts + [Conflict(turn.entries[i].path, refused.value)];
        } else {
          restored := restored + [turn.entries[i].path];
        }
      }
      if restored != [] && HasFile(dir, turn) {
        dir := Overwritten(dir, turn.(undoneAt := now));
      }
      return Ok(UndoOutcome(turn.turnId, restored, conflicts, restored == []));
    }
  }
}
