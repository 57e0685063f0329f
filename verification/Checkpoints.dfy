/** One turn's checkpoint: what is recorded per mutation, and what undo does with it. */
module Checkpoints {
  import opened EditScript
  import opened Text
  import opened LineModel
  import opened PatchFormat
  import opened PatchParse
  import opened PatchApply
  import opened RoundTrip

  /** The workspace: every existing file with its content. */
  type Files = map<string, string>

  /** SHA-256, taken to be injective: the digest stands for the text it was computed from. */
  datatype Digest = NoDigest | Sha256(text: string)

  datatype EditRecord = EditRecord(content: string, exists_: bool)

  datatype Entry = Entry(
    path: string,
    reversePatch: string,
    afterHash: Digest,
    beforeHash: Digest,
    existedBefore: bool,
    removedByEdit: bool,
    createdByEdit: bool,
    movedTo: string)

  // ----- Recording

  ghost function EditEntry(path: string, before: EditRecord, after: EditRecord): Entry {
    Entry(path, UnifiedPatch(path, after.content, before.content, DEFAULTS),
          Sha256(after.content), Sha256(before.content),
          before.exists_, before.exists_ && !after.exists_, !before.exists_ && after.exists_, "")
  }

  function MoveEntry(from: string, to: string): Entry {
    Entry(from, "", NoDigest, NoDigest, true, false, false, to)
  }

  predicate HasEntry(entries: seq<Entry>, path: string) {
    exists i :: 0 <= i < |entries| && entries[i].path == path
  }

  /** The first record of a path wins. */
  function Recorded(entries: seq<Entry>, e: Entry): seq<Entry> {
    if HasEntry(entries, e.path) then entries else entries + [e]
  }

  // ----- Undoing

  datatype Reason = NothingToMoveBack | PathOccupied | ChangedSinceCreated | FileGone | EditedSince | NotReproduced

  datatype Conflict = Conflict(path: string, reason: Reason)

  /** The files so far, what has been restored and refused, and the error undo threw, if any. */
  datatype Undoing = Undoing(files: Files, restored: seq<string>, conflicts: seq<Conflict>, thrown: Option<PatchError>)

  function Refused(s: Undoing, e: Entry, reason: Reason): Undoing {
    s.(conflicts := s.conflicts + [Conflict(e.path, reason)])
  }

  function Restored(s: Undoing, e: Entry, files: Files): Undoing {
    s.(files := files, restored := s.restored + [e.path])
  }

  /** Writes what the reverse patch makes of `content`, and checks that it is the pre-turn text. */
  function RestoreByPatch(s: Undoing, e: Entry, content: string): Undoing {
    match Patched(content, e.reversePatch, e.path)
    case Err(error) => s.(thrown := Some(error))
    case Ok(text) =>
      var files := s.files[e.path := text];
      if Sha256(text) == e.beforeHash then Restored(s, e, files)
      else Refused(s.(files := files), e, NotReproduced)
  }

  function UndoEntry(s: Undoing, e: Entry): Undoing {
    if e.movedTo != "" then
      if e.movedTo !in s.files then Refused(s, e, NothingToMoveBack)
      else if e.path in s.files then Refused(s, e, PathOccupied)
      else Restored(s, e, (s.files - {e.movedTo})[e.path := s.files[e.movedTo]])
    else if e.createdByEdit then
      if e.path in s.files && Sha256(s.files[e.path]) != e.afterHash then Refused(s, e, ChangedSinceCreated)
      else Restored(s, e, s.files - {e.path})
    else if e.path !in s.files then
      if e.removedByEdit || !e.existedBefore then RestoreByPatch(s, e, "")
      else Refused(s, e, FileGone)
    else if Sha256(s.files[e.path]) != e.afterHash then Refused(s, e, EditedSince)
    else RestoreByPatch(s, e, s.files[e.path])
  }

  /** Takes the steps of entries[stop..n], the last one first, until it is over. */
  function FoldBack<S, E>(step: (S, E) -> S, over: S -> bool, s: S, entries: seq<E>, n: nat, stop: nat): S
    requires stop <= n <= |entries|
    decreases n
  {
    if n == stop || over(s) then s else FoldBack(step, over, step(s, entries[n - 1]), entries, n - 1, stop)
  }

  lemma {:induction false} FoldSplit<S, E>(step: (S, E) -> S, over: S -> bool, s: S, entries: seq<E>, n: nat,
          mid: nat, stop: nat)
    requires stop <= mid <= n <= |entries|
    ensures FoldBack(step, over, s, entries, n, stop)
         == FoldBack(step, over, FoldBack(step, over, s, entries, n, mid), entries, mid, stop)
    decreases n
  {
    if mid < n && !over(s) {
      FoldSplit(step, over, step(s, entries[n - 1]), entries, n - 1, mid, stop);
    }
  }

  lemma FoldOne<S, E>(step: (S, E) -> S, over: S -> bool, s: S, entries: seq<E>, k: nat)
    requires k < |entries|
    ensures FoldBack(step, over, s, entries, k + 1, k) == if over(s) then s else step(s, entries[k])
  {
  }

  lemma FoldOneDown<S, E>(step: (S, E) -> S, over: S -> bool, s: S, entries: seq<E>, n: nat, k: nat)
    requires k < n <= |entries|
    ensures var s1 := FoldBack(step, over, s, entries, n, k + 1);
            FoldBack(step, over, s, entries, n, k) == if over(s1) then s1 else step(s1, entries[k])
  {
    FoldSplit(step, over, s, entries, n, k + 1, k);
    FoldOne(step, over, FoldBack(step, over, s, entries, n, k + 1), entries, k);
  }

  /** What every step keeps, and what adds up over steps, is kept from beginning to end. */
  lemma {:induction false} FoldKeeps<S(!new), E>(
    step: (S, E) -> S, over: S -> bool, kept: (S, S) -> bool, s: S, entries: seq<E>, n: nat, stop: nat)
    requires stop <= n <= |entries|
    requires forall a :: kept(a, a)
    requires forall a, b, c :: kept(a, b) && kept(b, c) ==> kept(a, c)
    requires forall a, i :: stop <= i < n && !over(a) ==> kept(a, step(a, entries[i]))
    ensures kept(s, FoldBack(step, over, s, entries, n, stop))
    decreases n
  {
    if stop < n && !over(s) {
      var s1 := step(s, entries[n - 1]);
      assert kept(s, s1);
      FoldKeeps(step, over, kept, s1, entries, n - 1, stop);
    }
  }

  /** A run that counts every step but one that ends it counts its whole length exactly when it is not ended. */
  lemma {:induction false} FoldCounts<S(!new), E>(
    step: (S, E) -> S, over: S -> bool, count: S -> int, s: S, entries: seq<E>, n: nat, stop: nat)
    requires stop <= n <= |entries|
    requires !over(s)
    requires forall a, i :: stop <= i < n && !over(a) ==>
      var b := step(a, entries[i]); count(b) == count(a) + if over(b) then 0 else 1
    ensures var r := FoldBack(step, over, s, entries, n, stop);
            if over(r) then count(r) < count(s) + n - stop else count(r) == count(s) + n - stop
    decreases n
  {
    if stop < n {
      var s1 := step(s, entries[n - 1]);
      assert count(s1) == count(s) + if over(s1) then 0 else 1;
      if !over(s1) {
        FoldCounts(step, over, count, s1, entries, n - 1, stop);
      }
    }
  }

  predicate Threw(s: Undoing) {
    s.thrown.Some?
  }

  /** Undoes the first n entries but the first `stop`, the last one first; an error ends it. */
  function UndoEntries(s: Undoing, entries: seq<Entry>, n: nat, stop: nat := 0): Undoing
    requires stop <= n <= |entries|
  {
    FoldBack(UndoEntry, Threw, s, entries, n, stop)
  }

  lemma UndoOneMore(s: Undoing, entries: seq<Entry>, i: nat)
    requires i < |entries| && s.thrown == None
    ensures UndoEntries(s, entries, i + 1) == UndoEntries(UndoEntry(s, entries[i]), entries, i)
  {
  }

  lemma UndoOver(s: Undoing, entries: seq<Entry>, i: nat)
    requires i <= |entries| && s.thrown.Some?
    ensures UndoEntries(s, entries, i) == s
  {
  }

  function Start(files: Files): Undoing {
    Undoing(files, [], [], None)
  }

  function UndoTurn(files: Files, entries: seq<Entry>): Undoing {
    UndoEntries(Start(files), entries, |entries|)
  }

  predicate Clean(s: Undoing) {
    s.conflicts == [] && s.thrown == None
  }

  // ----- What a turn does to the files

  datatype Mutation = Write(path: string, content: string) | Remove(path: string) | Move(from: string, to: string)

  /** A file is removed or moved only when it exists, and moved only to a free path. */
  predicate Enabled(files: Files, m: Mutation) {
    match m
    case Write(_, _) => true
    case Remove(path) => path in files
    case Move(from, to) => from in files && to !in files && to != ""
  }

  function Mutated(files: Files, m: Mutation): Files
    requires Enabled(files, m)
  {
    match m
    case Write(path, content) => files[path := content]
    case Remove(path) => files - {path}
    case Move(from, to) => (files - {from})[to := files[from]]
  }

  /** The path the mutation is recorded under. */
  function RecordedPath(m: Mutation): string {
    match m
    case Write(path, _) => path
    case Remove(path) => path
    case Move(from, _) => from
  }

  function Snapshot(files: Files, path: string): EditRecord {
    if path in files then EditRecord(files[path], true) else EditRecord("", false)
  }

  ghost function EntryOf(files: Files, m: Mutation): Entry
    requires Enabled(files, m)
  {
    match m
    case Move(from, to) => MoveEntry(from, to)
    case _ => EditEntry(m.path, Snapshot(files, m.path), Snapshot(Mutated(files, m), m.path))
  }

  ghost predicate AllEnabled(files: Files, ms: seq<Mutation>)
    decreases |ms|
  {
    ms == [] || (Enabled(files, ms[0]) && AllEnabled(Mutated(files, ms[0]), ms[1..]))
  }

  ghost function AfterTurn(files: Files, ms: seq<Mutation>): Files
    requires AllEnabled(files, ms)
    decreases |ms|
  {
    if ms == [] then files else AfterTurn(Mutated(files, ms[0]), ms[1..])
  }

  /** The entries of a turn that records every mutation right after it happened. */
  ghost function EntriesOfTurn(files: Files, ms: seq<Mutation>, entries: seq<Entry>): seq<Entry>
    requires AllEnabled(files, ms)
    decreases |ms|
  {
    if ms == [] then entries
    else EntriesOfTurn(Mutated(files, ms[0]), ms[1..], Recorded(entries, EntryOf(files, ms[0])))
  }

  /** The mutation takes a text away that undo has to rebuild. */
  predicate Replaces(files: Files, m: Mutation) {
    m.Remove? || (m.Write? && m.path in files)
  }

  /** The text the mutation leaves at its path, the empty one for a removed file. */
  function LeftText(m: Mutation): string
    requires !m.Move?
  {
    if m.Write? then m.content else ""
  }

  /** Undo can reproduce the text the mutation replaced or removed. */
  ghost predicate Reversible(files: Files, m: Mutation)
    requires Enabled(files, m)
  {
    Replaces(files, m) ==> Survives(m.path, LeftText(m), files[m.path])
  }

  ghost predicate AllReversible(files: Files, ms: seq<Mutation>)
    requires AllEnabled(files, ms)
    decreases |ms|
  {
    ms == [] || (Reversible(files, ms[0]) && AllReversible(Mutated(files, ms[0]), ms[1..]))
  }

  /** Every path is recorded at most once, and no path whose text is recorded spans lines. */
  predicate RecordedOnce(ms: seq<Mutation>) {
    && (forall i, j :: 0 <= i < j < |ms| ==> RecordedPath(ms[i]) != RecordedPath(ms[j]))
    && (forall i :: 0 <= i < |ms| ==> ms[i].Move? || OneLine(RecordedPath(ms[i])))
  }

  // ----- Undoing one entry, whatever the files have become

  /** The files still are as the mutation left them where undoing it looks. */
  predicate Intact(files: Files, m: Mutation, now: Files) {
    match m
    case Write(path, content) => if path in now then now[path] == content else path !in files
    case Remove(path) => path in now ==> now[path] == ""
    case Move(from, to) => to in now && from !in now
  }

  /** The reverse patch cannot be applied, so undo throws. */
  ghost predicate Throws(files: Files, m: Mutation, now: Files)
    requires Enabled(files, m)
  {
    Replaces(files, m) && Intact(files, m, now) && !Applies(m.path, LeftText(m), files[m.path])
  }

  /** The reverse patch applies but gives another text, because the original reads as if it carried the marker. */
  ghost predicate Misrestores(files: Files, m: Mutation, now: Files)
    requires Enabled(files, m)
  {
    && Replaces(files, m) && Intact(files, m, now)
    && Applies(m.path, LeftText(m), files[m.path]) && !MarkerFree(files[m.path])
  }

  ghost predicate TakesBack(files: Files, m: Mutation, now: Files)
    requires Enabled(files, m)
  {
    Intact(files, m, now) && Reversible(files, m)
  }

  /** The files with the mutation taken back. */
  function FilesBack(files: Files, m: Mutation, now: Files): Files
    requires Enabled(files, m) && Intact(files, m, now)
  {
    if m.Move? then (now - {m.to})[m.from := now[m.to]]
    else if Replaces(files, m) then now[m.path := files[m.path]]
    else now - {m.path}
  }

  /** Only a text that has to be rebuilt goes through a patch, and needs a path of one line. */
  predicate PathFits(files: Files, m: Mutation) {
    Replaces(files, m) ==> OneLine(m.path)
  }

  /** What the reverse patch of a change makes of the text the change left, in all three cases. */
  lemma RestoreExactly(s: Undoing, e: Entry, before: string, after: string)
    requires OneLine(e.path) && e.reversePatch == UnifiedPatch(e.path, after, before, DEFAULTS) &&
        e.beforeHash == Sha256(before)
    ensures var r := RestoreByPatch(s, e, after);
            if !Applies(e.path, after, before) then r.thrown.Some? && r == s.(thrown := r.thrown)
            else if MarkerFree(before) then r == Restored(s, e, s.files[e.path := before])
            else r == Refused(s.(files := s.files[e.path := Unkey(KeyLines(before))]), e, NotReproduced)
  {
    PrintedOutcome(e.path, after, before, None);
    UnkeyKeyLines(before);
    assert DEFAULTS == WithContext(None);
  }

  /** The reason given when undoing does not take the mutation back. */
  function Objection(files: Files, m: Mutation, now: Files): Reason {
    if m.Move? then (if m.to in now then PathOccupied else NothingToMoveBack)
    else if Intact(files, m, now) then NotReproduced
    else if !Replaces(files, m) then ChangedSinceCreated
    else if m.path in now then EditedSince
    else FileGone
  }

  /** How undoing the entry of a mutation ends, in terms of the mutation and the files found. */
  ghost predicate UndoneExactly(files: Files, m: Mutation, s: Undoing, r: Undoing)
    requires Enabled(files, m)
  {
    var e := EntryOf(files, m);
    if Throws(files, m, s.files) then r.thrown.Some? && r == s.(thrown := r.thrown)
    else if Misrestores(files, m, s.files) then
      r == Refused(s.(files := s.files[e.path := Unkey(KeyLines(files[m.path]))]), e, Objection(files, m, s.files))
    else if TakesBack(files, m, s.files) then r == Restored(s, e, FilesBack(files, m, s.files))
    else r == Refused(s, e, Objection(files, m, s.files))
  }

  lemma UndoWrite(files: Files, path: string, content: string, s: Undoing)
    requires PathFits(files, Write(path, content))
    ensures UndoneExactly(files, Write(path, content), s, UndoEntry(s, EntryOf(files, Write(path, content))))
  {
    var e := EntryOf(files, Write(path, content));
    if path !in files {
      if path in s.files && s.files[path] != content {
        assert UndoEntry(s, e) == Refused(s, e, ChangedSinceCreated);
      }
    } else if path !in s.files {
      assert UndoEntry(s, e) == Refused(s, e, FileGone);
    } else if s.files[path] != content {
      assert UndoEntry(s, e) == Refused(s, e, EditedSince);
    } else {
      RestoreExactly(s, e, files[path], content);
    }
  }

  lemma UndoRemove(files: Files, path: string, s: Undoing)
    requires OneLine(path) && path in files
    ensures UndoneExactly(files, Remove(path), s, UndoEntry(s, EntryOf(files, Remove(path))))
  {
    var e := EntryOf(files, Remove(path));
    if path in s.files && s.files[path] != "" {
      assert UndoEntry(s, e) == Refused(s, e, EditedSince);
    } else {
      RestoreExactly(s, e, files[path], "");
    }
  }

  lemma UndoMove(files: Files, from: string, to: string, s: Undoing)
    requires Enabled(files, Move(from, to))
    ensures UndoneExactly(files, Move(from, to), s, UndoEntry(s, EntryOf(files, Move(from, to))))
  {
    var e := EntryOf(files, Move(from, to));
    if to !in s.files {
      assert UndoEntry(s, e) == Refused(s, e, NothingToMoveBack);
    } else if from in s.files {
      assert UndoEntry(s, e) == Refused(s, e, PathOccupied);
    }
  }

  /**
   * Whatever the files have become: undo throws exactly when the reverse patch does not apply to what
   * the mutation left and that is still there; it writes a wrong text exactly when the patch applies
   * but the original is not marker-free; it takes the mutation back exactly when it is intact and
   * reversible; and else it refuses and touches nothing.
   */
  lemma UndoEntryExactly(files: Files, m: Mutation, s: Undoing)
    requires Enabled(files, m) && PathFits(files, m)
    ensures UndoneExactly(files, m, s, UndoEntry(s, EntryOf(files, m)))
  {
    match m {
      case Write(path, content) => UndoWrite(files, path, content, s);
      case Remove(path) => UndoRemove(files, path, s);
      case Move(from, to) => UndoMove(files, from, to, s);
    }
  }

  // ----- Undo is the inverse of a turn

  lemma PutBack<K, V>(m: map<K, V>, k: K, v: V)
    requires k in m
    ensures m[k := v][k := m[k]] == m
    ensures (m - {k})[k := m[k]] == m
  {
  }

  lemma DropBack<K, V>(m: map<K, V>, k: K, v: V)
    requires k !in m
    ensures m[k := v] - {k} == m
  {
  }

  lemma MoveBack<K, V>(m: map<K, V>, from: K, to: K)
    requires from in m && to !in m
    ensures var moved := (m - {from})[to := m[from]]; from !in moved && (moved - {to})[from := moved[to]] == m
  {
  }

  lemma MutatedBack(files: Files, m: Mutation)
    requires Enabled(files, m)
    ensures Intact(files, m, Mutated(files, m)) && FilesBack(files, m, Mutated(files, m)) == files
  {
    match m {
      case Write(path, content) =>
        if path in files {
          PutBack(files, path, content);
        } else {
          DropBack(files, path, content);
        }
      case Remove(path) => PutBack(files, path, "");
      case Move(from, to) => MoveBack(files, from, to);
    }
  }

  ghost predicate Failed(s: Undoing, r: Undoing) {
    r.thrown.Some? || |r.conflicts| > |s.conflicts|
  }

  /** Undoing the entry of a mutation takes exactly that mutation back if and only if it is reversible. */
  lemma UndoOneMutation(files: Files, m: Mutation, s: Undoing)
    requires Enabled(files, m) && PathFits(files, m) && s.files == Mutated(files, m)
    ensures var r := UndoEntry(s, EntryOf(files, m));
            if Reversible(files, m) then r == Restored(s, EntryOf(files, m), files) else Failed(s, r)
  {
    MutatedBack(files, m);
    UndoEntryExactly(files, m, s);
  }

  ghost function EntriesOf(files: Files, ms: seq<Mutation>): (entries: seq<Entry>)
    requires AllEnabled(files, ms)
    ensures |entries| == |ms|
    decreases |ms|
  {
    if ms == [] then [] else [EntryOf(files, ms[0])] + EntriesOf(Mutated(files, ms[0]), ms[1..])
  }

  predicate Unrecorded(entries: seq<Entry>, ms: seq<Mutation>) {
    forall i, j :: 0 <= i < |entries| && 0 <= j < |ms| ==> entries[i].path != RecordedPath(ms[j])
  }

  lemma StillUnrecorded(entries: seq<Entry>, e: Entry, ms: seq<Mutation>)
    requires ms != [] && RecordedOnce(ms) && Unrecorded(entries, ms) && e.path == RecordedPath(ms[0])
    ensures Recorded(entries, e) == entries + [e]
    ensures RecordedOnce(ms[1..]) && Unrecorded(entries + [e], ms[1..])
  {
    assert !HasEntry(entries, e.path);
  }

  /** A turn that records no path twice keeps an entry per mutation. */
  lemma {:induction false} EveryMutationRecorded(files: Files, ms: seq<Mutation>, entries: seq<Entry>)
    requires AllEnabled(files, ms) && RecordedOnce(ms) && Unrecorded(entries, ms)
    ensures EntriesOfTurn(files, ms, entries) == entries + EntriesOf(files, ms)
    decreases |ms|
  {
    if ms == [] {
      assert entries + [] == entries;
    } else {
      var e := EntryOf(files, ms[0]);
      var files1, rest := Mutated(files, ms[0]), ms[1..];
      StillUnrecorded(entries, e, ms);
      EveryMutationRecorded(files1, rest, entries + [e]);
      Associate(entries, [e], EntriesOf(files1, rest));
    }
  }

  /** Undoing forgets no refusal, no restored path and no error. */
  predicate Remembers(s: Undoing, r: Undoing) {
    s.conflicts <= r.conflicts && s.restored <= r.restored
  }

  lemma UndoRemembers(s: Undoing, entries: seq<Entry>, n: nat, stop: nat)
    requires stop <= n <= |entries|
    ensures Remembers(s, UndoEntries(s, entries, n, stop))
  {
    FoldKeeps(UndoEntry, Threw, Remembers, s, entries, n, stop);
  }

  /** The recorded paths, last mutation first. */
  function PathsBack(ms: seq<Mutation>): seq<string> {
    if ms == [] then [] else PathsBack(ms[1..]) + [RecordedPath(ms[0])]
  }

  ghost predicate TakenBack(files: Files, ms: seq<Mutation>, s: Undoing, r: Undoing) {
    r == Undoing(files, s.restored + PathsBack(ms), s.conflicts, None)
  }

  /** The first of some mutations is undone last. */
  lemma UndoFirstLast(files: Files, m: Mutation, entries: seq<Entry>, k: nat, r: Undoing)
    requires Enabled(files, m) && PathFits(files, m) && k < |entries| && entries[k] == EntryOf(files, m)
    requires r.files == Mutated(files, m) && r.thrown == None
    ensures var r1 := UndoEntries(r, entries, k + 1, k);
            if Reversible(files, m) then r1 == Restored(r, EntryOf(files, m), files) else Failed(r, r1)
  {
    FoldOne(UndoEntry, Threw, r, entries, k);
    UndoOneMutation(files, m, r);
  }

  lemma UndoSplit(s: Undoing, entries: seq<Entry>, n: nat, mid: nat, stop: nat)
    requires stop <= mid <= n <= |entries|
    ensures UndoEntries(s, entries, n, stop) == UndoEntries(UndoEntries(s, entries, n, mid), entries, mid, stop)
  {
    FoldSplit(UndoEntry, Threw, s, entries, n, mid, stop);
  }

  /** A failure is still one after undoing more, unless it threw and undoing ended. */
  lemma StillFailed(s: Undoing, r: Undoing, entries: seq<Entry>, n: nat, stop: nat)
    requires stop <= n <= |entries| && Failed(s, r)
    ensures Failed(s, UndoEntries(r, entries, n, stop))
  {
    if r.thrown.None? {
      UndoRemembers(r, entries, n, stop);
    }
  }

  lemma EntriesTail(files: Files, ms: seq<Mutation>, entries: seq<Entry>, k: nat)
    requires ms != [] && AllEnabled(files, ms) && k <= |entries| && entries[k..] == EntriesOf(files, ms)
    ensures k < |entries| && entries[k] == EntryOf(files, ms[0])
    ensures entries[k + 1..] == EntriesOf(Mutated(files, ms[0]), ms[1..])
  {
    assert entries[k] == entries[k..][0] && entries[k + 1..] == entries[k..][1..];
  }

  lemma TakenOneMore(files: Files, ms: seq<Mutation>, s: Undoing, r: Undoing, r1: Undoing, e: Entry)
    requires ms != [] && r1 == Restored(r, e, files) && e.path == RecordedPath(ms[0])
    requires r.restored == s.restored + PathsBack(ms[1..]) && r.conflicts == s.conflicts && r.thrown == None
    ensures TakenBack(files, ms, s, r1)
  {
    Associate(s.restored, PathsBack(ms[1..]), [RecordedPath(ms[0])]);
  }

  /** r is what undoing some mutations, the last ones of the entries, comes to. */
  ghost predicate UndoneTo(files: Files, ms: seq<Mutation>, s: Undoing, r: Undoing)
    requires AllEnabled(files, ms)
  {
    if AllReversible(files, ms) then TakenBack(files, ms, s, r) else Failed(s, r)
  }

  lemma UndoneOneMore(files: Files, ms: seq<Mutation>, s: Undoing, entries: seq<Entry>, k: nat, r: Undoing)
    requires ms != [] && AllEnabled(files, ms) && PathFits(files, ms[0])
    requires k < |entries| && entries[k] == EntryOf(files, ms[0]) && UndoneTo(Mutated(files, ms[0]), ms[1..], s, r)
    ensures UndoneTo(files, ms, s, UndoEntries(r, entries, k + 1, k))
  {
    var m, r1 := ms[0], UndoEntries(r, entries, k + 1, k);
    if AllReversible(Mutated(files, m), ms[1..]) {
      UndoFirstLast(files, m, entries, k, r);
      if Reversible(files, m) {
        TakenOneMore(files, ms, s, r, r1, EntryOf(files, m));
      }
    } else {
      StillFailed(s, r, entries, k + 1, k);
    }
  }

  /** Undoing the entries of some mutations takes them all back if and only if each is reversible. */
  lemma {:induction false} UndoMutations(files: Files, ms: seq<Mutation>, entries: seq<Entry>, k: nat, s: Undoing)
    requires AllEnabled(files, ms) && RecordedOnce(ms) && s.files == AfterTurn(files, ms) && s.thrown == None
    requires k <= |entries| && entries[k..] == EntriesOf(files, ms)
    ensures UndoneTo(files, ms, s, UndoEntries(s, entries, |entries|, k))
    decreases |ms|
  {
    if ms == [] {
      assert s.restored + [] == s.restored;
    } else {
      EntriesTail(files, ms, entries, k);
      UndoMutations(Mutated(files, ms[0]), ms[1..], entries, k + 1, s);
      UndoSplit(s, entries, |entries|, k + 1, k);
      UndoneOneMore(files, ms, s, entries, k, UndoEntries(s, entries, |entries|, k + 1));
    }
  }

  /**
   * Undo is the inverse of a turn, and exactly when: if no path is recorded twice, undoing the
   * turn's entries gives back the files as they were, with nothing refused, if and only if every
   * mutation of the turn is reversible; and then every recorded path is restored, last first.
   */
  lemma UndoInvertsTurn(files: Files, ms: seq<Mutation>)
    requires AllEnabled(files, ms) && RecordedOnce(ms)
    ensures var r := UndoTurn(AfterTurn(files, ms), EntriesOfTurn(files, ms, []));
            && (Clean(r) && r.files == files <==> AllReversible(files, ms))
            && (AllReversible(files, ms) ==> r == Undoing(files, PathsBack(ms), [], None))
  {
    EveryMutationRecorded(files, ms, []);
    var entries := EntriesOf(files, ms);
    assert [] + entries == entries && entries[0..] == entries;
    UndoMutations(files, ms, entries, 0, Start(AfterTurn(files, ms)));
    assert [] + PathsBack(ms) == PathsBack(ms);
  }

  // ----- Several edits of one file in a turn

  ghost function Edits(path: string, contents: seq<string>): seq<Mutation> {
    if contents == [] then [] else [Write(path, contents[0])] + Edits(path, contents[1..])
  }

  lemma TurnUnfold(files: Files, m: Mutation, rest: seq<Mutation>, entries: seq<Entry>)
    requires Enabled(files, m) && AllEnabled(Mutated(files, m), rest)
    ensures AllEnabled(files, [m] + rest)
    ensures AfterTurn(files, [m] + rest) == AfterTurn(Mutated(files, m), rest)
    ensures EntriesOfTurn(files, [m] + rest, entries)
         == EntriesOfTurn(Mutated(files, m), rest, Recorded(entries, EntryOf(files, m)))
  {
    assert ([m] + rest)[1..] == rest;
  }

  lemma Overwrite<K, V>(m: map<K, V>, k: K, v: V, w: V)
    ensures m[k := v][k := w] == m[k := w]
  {
  }

  /** Later mutations of recorded paths change the files but not the checkpoint. */
  lemma {:induction false} LaterEditsUnrecorded(files: Files, ms: seq<Mutation>, entries: seq<Entry>)
    requires AllEnabled(files, ms) && forall i :: 0 <= i < |ms| ==> HasEntry(entries, RecordedPath(ms[i]))
    ensures EntriesOfTurn(files, ms, entries) == entries
    decreases |ms|
  {
    if ms != [] {
      LaterEditsUnrecorded(Mutated(files, ms[0]), ms[1..], entries);
    }
  }

  lemma {:induction false} EditsOfPath(path: string, contents: seq<string>, i: nat)
    requires i < |Edits(path, contents)|
    ensures RecordedPath(Edits(path, contents)[i]) == path
    decreases |contents|
  {
    if i > 0 {
      EditsOfPath(path, contents[1..], i - 1);
    }
  }

  lemma {:induction false} EditsLeaveLast(files: Files, path: string, contents: seq<string>)
    ensures AllEnabled(files, Edits(path, contents))
    ensures AfterTurn(files, Edits(path, contents))
         == if contents == [] then files else files[path := contents[|contents| - 1]]
    decreases |contents|
  {
    if contents != [] {
      var m, rest := Write(path, contents[0]), contents[1..];
      EditsLeaveLast(Mutated(files, m), path, rest);
      TurnUnfold(files, m, Edits(path, rest), []);
      Overwrite(files, path, contents[0], contents[|contents| - 1]);
    }
  }

  /** Undoing the record of an edit that left `first` in a file that now holds `last`. */
  lemma UndoFirstEdit(files: Files, path: string, first: string, last: string)
    requires path in files ==> OneLine(path)
    ensures var r := UndoEntry(Start(files[path := last]), EntryOf(files, Write(path, first)));
            Clean(r) && r.files == files <==> last == first && (path in files ==> Survives(path, first, files[path]))
  {
    var m, s := Write(path, first), Start(files[path := last]);
    UndoEntryExactly(files, m, s);
    if last == first {
      MutatedBack(files, m);
    }
  }

  lemma UndoOnlyEntry(files: Files, e: Entry)
    ensures UndoTurn(files, [e]) == UndoEntry(Start(files), e)
  {
    assert FoldBack(UndoEntry, Threw, UndoEntry(Start(files), e), [e], 0, 0) == UndoEntry(Start(files), e);
  }

  lemma TurnOfEdits(files: Files, path: string, contents: seq<string>)
    requires contents != []
    ensures AllEnabled(files, Edits(path, contents))
    ensures AfterTurn(files, Edits(path, contents)) == files[path := contents[|contents| - 1]]
    ensures EntriesOfTurn(files, Edits(path, contents), []) == [EntryOf(files, Write(path, contents[0]))]
  {
    var m, rest := Write(path, contents[0]), contents[1..];
    var e := EntryOf(files, m);
    assert [e][0].path == path;
    assert Recorded([], e) == [e];
    EditsLeaveLast(files, path, contents);
    EditsLeaveLast(Mutated(files, m), path, rest);
    forall i | 0 <= i < |Edits(path, rest)| ensures RecordedPath(Edits(path, rest)[i]) == path {
      EditsOfPath(path, rest, i);
    }
    LaterEditsUnrecorded(Mutated(files, m), Edits(path, rest), [e]);
    TurnUnfold(files, m, Edits(path, rest), []);
  }

  /**
   * A turn that writes one file any number of times, new or not, is taken back exactly when the last
   * edit left the same text as the first, and that one is reversible; otherwise undo refuses or fails.
   */
  lemma RepeatedEdits(files: Files, path: string, contents: seq<string>)
    requires contents != [] && (path in files ==> OneLine(path))
    ensures AllEnabled(files, Edits(path, contents))
    ensures var r := UndoTurn(AfterTurn(files, Edits(path, contents)), EntriesOfTurn(files, Edits(path, contents), []));
            Clean(r) && r.files == files <==>
            contents[|contents| - 1] == contents[0] && (path in files ==> Survives(path, contents[0], files[path]))
  {
    var first, last := contents[0], contents[|contents| - 1];
    TurnOfEdits(files, path, contents);
    UndoOnlyEntry(files[path := last], EntryOf(files, Write(path, first)));
    UndoFirstEdit(files, path, first, last);
  }
}
