/** Exactly when undo inverts a whole turn that may record a path many times, and how it ends otherwise. */
module UndoExact {
  import opened Checkpoints
  import opened UndoRecords

  // ----- What a turn records

  predicate Noted(rs: seq<Record>, path: string) {
    exists i :: 0 <= i < |rs| && RecordedPath(rs[i].m) == path
  }

  function Kept(rs: seq<Record>, r: Record): seq<Record> {
    if Noted(rs, RecordedPath(r.m)) then rs else rs + [r]
  }

  /** The first record of each path, with the files it found. */
  ghost function RecordsOf(files: Files, ms: seq<Mutation>, rs: seq<Record>): seq<Record>
    requires AllEnabled(files, ms)
    decreases |ms|
  {
    if ms == [] then rs else RecordsOf(Mutated(files, ms[0]), ms[1..], Kept(rs, Found(files, ms[0])))
  }

  ghost function TurnRecords(files: Files, ms: seq<Mutation>): seq<Record>
    requires AllEnabled(files, ms)
  {
    RecordsOf(files, ms, [])
  }

  lemma NotedHasEntry(rs: seq<Record>, path: string)
    ensures HasEntry(Entries(rs), path) <==> Noted(rs, path)
  {
    forall i | 0 <= i < |rs| ensures Entries(rs)[i].path == RecordedPath(rs[i].m) {
      EntriesAt(rs, i);
    }
  }

  lemma KeptEntries(rs: seq<Record>, r: Record)
    ensures Entries(Kept(rs, r)) == Recorded(Entries(rs), EntryFor(r))
  {
    NotedHasEntry(rs, RecordedPath(r.m));
    EntriesSnoc(rs, r);
  }

  lemma {:induction false} RecordsMakeEntries(files: Files, ms: seq<Mutation>, rs: seq<Record>)
    requires AllEnabled(files, ms)
    ensures EntriesOfTurn(files, ms, Entries(rs)) == Entries(RecordsOf(files, ms, rs))
    decreases |ms|
  {
    if ms != [] {
      KeptEntries(rs, Found(files, ms[0]));
      RecordsMakeEntries(Mutated(files, ms[0]), ms[1..], Kept(rs, Found(files, ms[0])));
    }
  }

  lemma EntriesOfRecords(files: Files, ms: seq<Mutation>)
    requires AllEnabled(files, ms)
    ensures EntriesOfTurn(files, ms, []) == Entries(TurnRecords(files, ms))
  {
    RecordsMakeEntries(files, ms, []);
  }

  // ----- Any turn, on any files

  /**
   * The undo of any turn, on files that may have become anything: going back from the last record to the
   * first, each is taken back or refused as the files left by the later ones say, down to record j; there
   * undo is over, because j is 0, or because the record before j throws.
   */
  lemma UndoAnyTurn(files: Files, ms: seq<Mutation>, now: Files) returns (j: nat)
    requires AllEnabled(files, ms) && AllFit(TurnRecords(files, ms))
    ensures j <= |TurnRecords(files, ms)|
    ensures RetracedTo(TurnRecords(files, ms), 0, now, UndoTurn(now, EntriesOfTurn(files, ms, [])), j)
  {
    EntriesOfRecords(files, ms);
    j := RetraceRecords(TurnRecords(files, ms), 0, now);
  }

  /** The first record that is about the path, or the number of records. */
  function FirstAbout(rs: seq<Record>, path: string): (i: nat)
    ensures i <= |rs| && (i < |rs| ==> path in Touched(rs[i].m)) && forall j :: 0 <= j < i ==> path !in Touched(rs[j].m)
  {
    if rs == [] || path in Touched(rs[0].m) then 0 else 1 + FirstAbout(rs[1..], path)
  }

  /** Taking the record back gives the path what the files have there; w is what undoing it finds. */
  predicate RightAt(files: Files, r: Record, w: Files, path: string) {
    if r.m.Move? && path == r.m.from then r.m.to in w && path in files && w[r.m.to] == files[path]
    else if r.m.Move? then path !in files
    else Same(r.files, files, path)
  }

  lemma TakenIsRight(files: Files, r: Record, w: Files, path: string)
    requires TakenBackOn(r, w) && path in Touched(r.m)
    ensures Same(LeftBehind(r, w), files, path) <==> RightAt(files, r, w, path)
  {
  }

  /** The record that is undone last for the path is right there; a path without a record has not changed. */
  ghost predicate EndsRight(files: Files, rs: seq<Record>, now: Files, path: string) {
    var i := FirstAbout(rs, path);
    if i == |rs| then Same(now, files, path) else RightAt(files, rs[i], Rewound(rs, i + 1, now), path)
  }

  lemma EndsRightExactly(files: Files, rs: seq<Record>, now: Files, path: string)
    requires AllTakenInTurn(rs, now)
    ensures Same(Rewound(rs, 0, now), files, path) <==> EndsRight(files, rs, now, path)
  {
    var i := FirstAbout(rs, path);
    RewoundSince(rs, 0, i, now, path);
    if i < |rs| {
      assert TakenAt(rs, i, now);
      TakenIsRight(files, rs[i], Rewound(rs, i + 1, now), path);
    }
  }

  lemma SameFiles(a: Files, b: Files)
    ensures a == b <==> forall path :: Same(a, b, path)
  {
    if forall path :: Same(a, b, path) {
      SameEverywhere(a, b);
    }
  }

  /**
   * Undo inverts a turn, any turn, if and only if each record is taken back when its turn comes, and for
   * every path the one that is undone last gives it what it had.
   */
  lemma UndoInvertsAnyTurn(files: Files, ms: seq<Mutation>)
    requires AllEnabled(files, ms) && AllFit(TurnRecords(files, ms))
    ensures var r := UndoTurn(AfterTurn(files, ms), EntriesOfTurn(files, ms, []));
            var rs := TurnRecords(files, ms);
            Clean(r) && r.files == files <==>
            && AllTakenInTurn(rs, AfterTurn(files, ms))
            && (forall path :: EndsRight(files, rs, AfterTurn(files, ms), path))
  {
    var rs, now := TurnRecords(files, ms), AfterTurn(files, ms);
    EntriesOfRecords(files, ms);
    CleanExactly(rs, now);
    SameFiles(Rewound(rs, 0, now), files);
    if AllTakenInTurn(rs, now) {
      forall path ensures Same(Rewound(rs, 0, now), files, path) <==> EndsRight(files, rs, now, path) {
        EndsRightExactly(files, rs, now, path);
      }
    }
  }

  // ----- What is known along a turn

  /** No mutation touches the path among the first n. */
  predicate Untouched(ms: seq<Mutation>, n: nat, path: string)
    requires n <= |ms|
  {
    forall i :: 0 <= i < n ==> path !in Touched(ms[i])
  }

  /** Where a file has been moved to, nothing happens any more in this turn. */
  predicate TargetsLast(ms: seq<Mutation>) {
    forall i, j :: 0 <= i < j < |ms| && ms[i].Move? ==> ms[i].to !in Touched(ms[j])
  }

  /** Of the first n mutations every path is noted, and nothing else is. */
  predicate NotesOf(ms: seq<Mutation>, n: nat, rs: seq<Record>)
    requires n <= |ms|
  {
    && (forall k :: 0 <= k < n ==> Noted(rs, RecordedPath(ms[k])))
    && (forall i :: 0 <= i < |rs| ==> rs[i].m in ms[..n])
  }

  /** Each record found its path as it was before the turn, and no two have the same. */
  predicate FirstFound(files: Files, rs: seq<Record>) {
    && (forall i :: 0 <= i < |rs| ==> Same(rs[i].files, files, RecordedPath(rs[i].m)))
    && (forall i, j :: 0 <= i < j < |rs| ==> RecordedPath(rs[i].m) != RecordedPath(rs[j].m))
  }

  /** What a record moved is still there, and no later record is about that place. */
  predicate Landed(now: Files, rs: seq<Record>) {
    && (forall i :: 0 <= i < |rs| && rs[i].m.Move? ==>
          rs[i].m.to in now && now[rs[i].m.to] == rs[i].files[rs[i].m.from])
    && (forall i, j :: 0 <= i < j < |rs| && rs[i].m.Move? ==> rs[i].m.to !in Touched(rs[j].m))
  }

  /** A move's target exists; before the turn it did not, unless its path is noted too. */
  predicate NewTargets(files: Files, ms: seq<Mutation>, n: nat, now: Files, rs: seq<Record>)
    requires n <= |ms|
  {
    forall k :: 0 <= k < n && ms[k].Move? ==> ms[k].to in now && (ms[k].to in files ==> Noted(rs, ms[k].to))
  }

  ghost predicate Still(files: Files, ms: seq<Mutation>, n: nat, now: Files)
    requires n <= |ms|
  {
    forall path :: Untouched(ms, n, path) ==> Same(now, files, path)
  }

  ghost predicate Known(files: Files, ms: seq<Mutation>, n: nat, now: Files, rs: seq<Record>)
    requires n <= |ms|
  {
    && NotesOf(ms, n, rs) && FirstFound(files, rs) && Landed(now, rs)
    && NewTargets(files, ms, n, now, rs) && Still(files, ms, n, now)
  }

  lemma NotedStays(rs: seq<Record>, r: Record, path: string)
    ensures Noted(rs, path) ==> Noted(Kept(rs, r), path)
    ensures Noted(Kept(rs, r), RecordedPath(r.m))
  {
    var kept := Kept(rs, r);
    if i :| 0 <= i < |rs| && RecordedPath(rs[i].m) == path {
      assert kept[i] == rs[i];
    }
    if !Noted(rs, RecordedPath(r.m)) {
      assert kept[|rs|] == r;
    }
  }

  lemma NotesNext(ms: seq<Mutation>, n: nat, rs: seq<Record>, r: Record)
    requires n < |ms| && r.m == ms[n] && NotesOf(ms, n, rs)
    ensures NotesOf(ms, n + 1, Kept(rs, r))
  {
    forall k | 0 <= k < n + 1 ensures Noted(Kept(rs, r), RecordedPath(ms[k])) {
      NotedStays(rs, r, RecordedPath(ms[k]));
    }
    assert ms[..n + 1] == ms[..n] + [ms[n]];
  }

  /** A path that is about to be touched and is not noted has not been touched. */
  lemma NotedOrUntouched(ms: seq<Mutation>, n: nat, rs: seq<Record>, path: string)
    requires n < |ms| && TargetsLast(ms) && NotesOf(ms, n, rs) && path in Touched(ms[n]) && !Noted(rs, path)
    ensures Untouched(ms, n, path)
  {
  }

  lemma FirstFoundNext(files: Files, ms: seq<Mutation>, n: nat, rs: seq<Record>, r: Record)
    requires n < |ms| && r.m == ms[n] && TargetsLast(ms) && NotesOf(ms, n, rs) && Still(files, ms, n, r.files)
    requires FirstFound(files, rs)
    ensures FirstFound(files, Kept(rs, r))
  {
    var path := RecordedPath(r.m);
    if !Noted(rs, path) {
      NotedOrUntouched(ms, n, rs, path);
      assert forall i :: 0 <= i < |rs| ==> RecordedPath(rs[i].m) != path;
    }
  }

  lemma EarlierTarget(ms: seq<Mutation>, n: nat, rs: seq<Record>, i: nat)
    requires n < |ms| && TargetsLast(ms) && NotesOf(ms, n, rs) && i < |rs| && rs[i].m.Move?
    ensures rs[i].m.to !in Touched(ms[n])
  {
    var k :| 0 <= k < n && ms[..n][k] == rs[i].m;
    assert ms[k] == rs[i].m;
  }

  lemma LandedNext(ms: seq<Mutation>, n: nat, rs: seq<Record>, r: Record)
    requires n < |ms| && r.m == ms[n] && TargetsLast(ms) && NotesOf(ms, n, rs) && Landed(r.files, rs)
    ensures Landed(Mutated(r.files, r.m), Kept(rs, r))
  {
    forall i | 0 <= i < |rs| && rs[i].m.Move? ensures rs[i].m.to !in Touched(r.m) {
      EarlierTarget(ms, n, rs, i);
    }
  }

  lemma NewTargetsNext(files: Files, ms: seq<Mutation>, n: nat, rs: seq<Record>, r: Record)
    requires n < |ms| && r.m == ms[n] && TargetsLast(ms) && NotesOf(ms, n, rs) && Still(files, ms, n, r.files)
    requires NewTargets(files, ms, n, r.files, rs)
    ensures NewTargets(files, ms, n + 1, Mutated(r.files, r.m), Kept(rs, r))
  {
    forall k | 0 <= k < n + 1 && ms[k].Move?
      ensures ms[k].to in Mutated(r.files, r.m) && (ms[k].to in files ==> Noted(Kept(rs, r), ms[k].to))
    {
      NotedStays(rs, r, ms[k].to);
      if k == n && !Noted(rs, ms[n].to) {
        NotedOrUntouched(ms, n, rs, ms[n].to);
        assert Same(r.files, files, ms[n].to);
      } else if k < n {
        assert ms[k].to !in Touched(ms[n]);
      }
    }
  }

  lemma StillNext(files: Files, ms: seq<Mutation>, n: nat, now: Files)
    requires n < |ms| && Enabled(now, ms[n]) && Still(files, ms, n, now)
    ensures Still(files, ms, n + 1, Mutated(now, ms[n]))
  {
    forall path | Untouched(ms, n + 1, path) ensures Same(Mutated(now, ms[n]), files, path) {
      assert Untouched(ms, n, path) && path !in Touched(ms[n]);
    }
  }

  lemma KnownNext(files: Files, ms: seq<Mutation>, n: nat, rs: seq<Record>, r: Record)
    requires n < |ms| && r.m == ms[n] && TargetsLast(ms) && Known(files, ms, n, r.files, rs)
    ensures Known(files, ms, n + 1, Mutated(r.files, r.m), Kept(rs, r))
  {
    NotesNext(ms, n, rs, r);
    FirstFoundNext(files, ms, n, rs, r);
    LandedNext(ms, n, rs, r);
    NewTargetsNext(files, ms, n, rs, r);
    StillNext(files, ms, n, r.files);
  }

  lemma {:induction false} KnownFrom(files: Files, ms: seq<Mutation>, n: nat, now: Files, rs: seq<Record>)
    requires n <= |ms| && TargetsLast(ms) && AllEnabled(now, ms[n..]) && Known(files, ms, n, now, rs)
    ensures Known(files, ms, |ms|, AfterTurn(now, ms[n..]), RecordsOf(now, ms[n..], rs))
    decreases |ms| - n
  {
    if n < |ms| {
      assert ms[n..][1..] == ms[n + 1..] && ms[n..][0] == ms[n];
      KnownNext(files, ms, n, rs, Found(now, ms[n]));
      KnownFrom(files, ms, n + 1, Mutated(now, ms[n]), Kept(rs, Found(now, ms[n])));
    }
  }

  lemma KnownAfter(files: Files, ms: seq<Mutation>)
    requires AllEnabled(files, ms) && TargetsLast(ms)
    ensures Known(files, ms, |ms|, AfterTurn(files, ms), TurnRecords(files, ms))
  {
    assert ms[0..] == ms;
    KnownFrom(files, ms, 0, files, []);
  }

  // ----- Exactly when a turn is taken back

  predicate Held(rs: seq<Record>, m: Mutation) {
    exists i :: 0 <= i < |rs| && rs[i].m == m
  }

  /** Every move has its record, unless its target is a path that has one. */
  predicate MovesHeld(ms: seq<Mutation>, rs: seq<Record>) {
    forall k :: 0 <= k < |ms| && ms[k].Move? ==> Held(rs, ms[k]) || Noted(rs, ms[k].to)
  }

  /** Taking a record back gives its path what it had before the turn. */
  lemma BackAtOnce(files: Files, rs: seq<Record>, now: Files, i: nat)
    requires i < |rs| && FirstFound(files, rs) && Landed(now, rs) && TakenAt(rs, i, now)
    ensures Same(Rewound(rs, i, now), files, RecordedPath(rs[i].m))
  {
    if rs[i].m.Move? {
      RewoundAlone(rs, i + 1, now, rs[i].m.to);
      assert Same(Rewound(rs, i + 1, now), now, rs[i].m.to);
    }
  }

  lemma NotedBack(files: Files, rs: seq<Record>, now: Files, path: string)
    requires FirstFound(files, rs) && Landed(now, rs) && AllTakenInTurn(rs, now) && Noted(rs, path)
    ensures Same(Rewound(rs, 0, now), files, path)
  {
    var i: nat :| i < |rs| && RecordedPath(rs[i].m) == path;
    BackAtOnce(files, rs, now, i);
    RewoundSince(rs, 0, i, now, path);
  }

  lemma TargetGone(rs: seq<Record>, now: Files, i: nat)
    requires i < |rs| && rs[i].m.Move? && Landed(now, rs) && TakenAt(rs, i, now) && !Noted(rs, rs[i].m.to)
    ensures rs[i].m.to !in Rewound(rs, 0, now)
  {
    RewoundSince(rs, 0, i, now, rs[i].m.to);
  }

  lemma TargetWasNew(files: Files, ms: seq<Mutation>, now: Files, rs: seq<Record>, i: nat)
    requires i < |rs| && rs[i].m.Move? && NotesOf(ms, |ms|, rs) && NewTargets(files, ms, |ms|, now, rs)
    ensures rs[i].m.to in files ==> Noted(rs, rs[i].m.to)
  {
    assert rs[i].m in ms[..|ms|];
    assert ms[..|ms|] == ms;
    var k :| 0 <= k < |ms| && ms[k] == rs[i].m;
  }

  lemma UnnamedUntouched(ms: seq<Mutation>, rs: seq<Record>, path: string)
    requires NotesOf(ms, |ms|, rs) && MovesHeld(ms, rs) && Unnamed(rs, 0, path)
    ensures Untouched(ms, |ms|, path)
  {
    forall k | 0 <= k < |ms| ensures path !in Touched(ms[k]) {
      assert Noted(rs, RecordedPath(ms[k]));
      assert ms[k].Move? ==> Held(rs, ms[k]) || Noted(rs, ms[k].to);
    }
  }

  lemma BackAt(files: Files, ms: seq<Mutation>, now: Files, rs: seq<Record>, path: string)
    requires Known(files, ms, |ms|, now, rs) && AllTakenInTurn(rs, now) && MovesHeld(ms, rs)
    ensures Same(Rewound(rs, 0, now), files, path)
  {
    if Noted(rs, path) {
      NotedBack(files, rs, now, path);
    } else if i: nat :| i < |rs| && path in Touched(rs[i].m) {
      TargetGone(rs, now, i);
      TargetWasNew(files, ms, now, rs, i);
    } else {
      RewoundAlone(rs, 0, now, path);
      UnnamedUntouched(ms, rs, path);
      assert Same(now, files, path);
    }
  }

  lemma UnheldTarget(ms: seq<Mutation>, rs: seq<Record>, k: nat)
    requires k < |ms| && ms[k].Move? && TargetsLast(ms) && NotesOf(ms, |ms|, rs)
    requires !Held(rs, ms[k]) && !Noted(rs, ms[k].to)
    ensures Unnamed(rs, 0, ms[k].to)
  {
    forall i | 0 <= i < |rs| ensures ms[k].to !in Touched(rs[i].m) {
      assert rs[i].m in ms[..|ms|];
      var l :| 0 <= l < |ms| && ms[..|ms|][l] == rs[i].m;
      assert ms[l] == rs[i].m && l != k;
    }
  }

  /** A move that left no record keeps its file where it put it. */
  lemma UnheldStays(files: Files, ms: seq<Mutation>, now: Files, rs: seq<Record>)
    requires TargetsLast(ms) && Known(files, ms, |ms|, now, rs) && !MovesHeld(ms, rs)
    ensures Rewound(rs, 0, now) != files
  {
    var k: nat :| k < |ms| && ms[k].Move? && !Held(rs, ms[k]) && !Noted(rs, ms[k].to);
    UnheldTarget(ms, rs, k);
    RewoundAlone(rs, 0, now, ms[k].to);
  }

  /**
   * Undo inverts a turn, and exactly when, if nothing happens any more where a file has been moved to:
   * every record is taken back when its turn comes, and every move has left a record, or its target has
   * one. A record is lost when the path was recorded before, so undo can report success and be wrong.
   */
  lemma UndoInvertsExactly(files: Files, ms: seq<Mutation>)
    requires AllEnabled(files, ms) && TargetsLast(ms) && AllFit(TurnRecords(files, ms))
    ensures var r := UndoTurn(AfterTurn(files, ms), EntriesOfTurn(files, ms, []));
            var rs := TurnRecords(files, ms);
            && (Clean(r) <==> AllTakenInTurn(rs, AfterTurn(files, ms)))
            && (Clean(r) && r.files == files <==> AllTakenInTurn(rs, AfterTurn(files, ms)) && MovesHeld(ms, rs))
  {
    var rs, now := TurnRecords(files, ms), AfterTurn(files, ms);
    EntriesOfRecords(files, ms);
    CleanExactly(rs, now);
    KnownAfter(files, ms);
    if MovesHeld(ms, rs) {
      if AllTakenInTurn(rs, now) {
        forall path ensures Same(Rewound(rs, 0, now), files, path) {
          BackAt(files, ms, now, rs, path);
        }
        SameEverywhere(Rewound(rs, 0, now), files);
      }
    } else {
      UnheldStays(files, ms, now, rs);
    }
  }

  // ----- Moves to fresh paths

  /** Every move goes to a path that no other mutation touches, as into the trash; sources may be shared. */
  predicate TargetsFresh(ms: seq<Mutation>) {
    forall i, j :: 0 <= i < |ms| && 0 <= j < |ms| && i != j && ms[i].Move? ==> ms[i].to !in Touched(ms[j])
  }

  lemma OriginOf(ms: seq<Mutation>, rs: seq<Record>, i: nat) returns (k: nat)
    requires NotesOf(ms, |ms|, rs) && i < |rs|
    ensures k < |ms| && ms[k] == rs[i].m
  {
    assert rs[i].m in ms[..|ms|];
    k :| k < |ms| && ms[..|ms|][k] == rs[i].m;
  }

  lemma TwoFreshApart(ms: seq<Mutation>, rs: seq<Record>, now: Files, i: nat, j: nat)
    requires TargetsFresh(ms) && NotesOf(ms, |ms|, rs) && Landed(now, rs) && i < j < |rs|
    requires RecordedPath(rs[i].m) != RecordedPath(rs[j].m)
    ensures Touched(rs[i].m) !! Touched(rs[j].m)
  {
    var k := OriginOf(ms, rs, i);
    var l := OriginOf(ms, rs, j);
    assert k != l;
    assert rs[j].m.Move? ==> rs[j].m.to !in Touched(ms[k]);
  }

  /** Then the records share no path. */
  lemma FreshApart(files: Files, ms: seq<Mutation>)
    requires AllEnabled(files, ms) && TargetsFresh(ms)
    ensures Apart(TurnRecords(files, ms))
  {
    var rs, now := TurnRecords(files, ms), AfterTurn(files, ms);
    KnownAfter(files, ms);
    forall i, j | 0 <= i < j < |rs| ensures Touched(rs[i].m) !! Touched(rs[j].m) {
      TwoFreshApart(ms, rs, now, i, j);
    }
  }

  lemma FreshUnnoted(files: Files, ms: seq<Mutation>, k: nat)
    requires AllEnabled(files, ms) && TargetsFresh(ms) && k < |ms| && ms[k].Move?
    ensures !Noted(TurnRecords(files, ms), ms[k].to)
  {
    var rs := TurnRecords(files, ms);
    KnownAfter(files, ms);
    forall i | 0 <= i < |rs| ensures RecordedPath(rs[i].m) != ms[k].to {
      var l := OriginOf(ms, rs, i);
      assert l != k ==> ms[k].to !in Touched(ms[l]);
    }
  }

  /**
   * A turn whose records share no path, undone on files that may have become anything: undo throws exactly
   * if the reverse patch of some record does not apply to what that record left and is still there.
   * Otherwise every path ends as its own record alone says, and nothing is refused exactly if each record
   * is taken back.
   */
  lemma UndoEndsExactly(files: Files, ms: seq<Mutation>, now: Files)
    requires AllEnabled(files, ms) && Apart(TurnRecords(files, ms)) && AllFit(TurnRecords(files, ms))
    ensures var r := UndoTurn(now, EntriesOfTurn(files, ms, []));
            && EndsExactly(TurnRecords(files, ms), now, r)
            && (r.thrown.Some? <==> SomeThrows(TurnRecords(files, ms), now))
  {
    EntriesOfRecords(files, ms);
    UndoApart(TurnRecords(files, ms), now);
  }

  /**
   * Such a turn is inverted exactly if each record is taken back, going by the files as the turn left them, and
   * each move has one. For a created file: it is gone or as its record left it; for an edited one: it is as
   * its record left it and the edit is reversible; for a removed one: it is still gone, or empty, and the
   * removal is reversible; for a moved one: its old path is free.
   */
  lemma UndoInvertsFresh(files: Files, ms: seq<Mutation>)
    requires AllEnabled(files, ms) && TargetsFresh(ms) && AllFit(TurnRecords(files, ms))
    ensures var r := UndoTurn(AfterTurn(files, ms), EntriesOfTurn(files, ms, []));
            Clean(r) && r.files == files <==>
            && AllTakenBack(TurnRecords(files, ms), AfterTurn(files, ms))
            && (forall k :: 0 <= k < |ms| && ms[k].Move? ==> Held(TurnRecords(files, ms), ms[k]))
  {
    UndoInvertsExactly(files, ms);
    FreshApart(files, ms);
    TakenAsNow(TurnRecords(files, ms), AfterTurn(files, ms));
    forall k: nat | k < |ms| && ms[k].Move? ensures !Noted(TurnRecords(files, ms), ms[k].to) {
      FreshUnnoted(files, ms, k);
    }
  }

  /** Undoing such a turn a second time, from the same entries, leaves all files as the first undo left them. */
  lemma UndoTwiceHarmless(files: Files, ms: seq<Mutation>, now: Files)
    requires AllEnabled(files, ms) && Apart(TurnRecords(files, ms)) && AllFit(TurnRecords(files, ms))
    ensures var entries := EntriesOfTurn(files, ms, []);
            var r := UndoTurn(now, entries);
            UndoTurn(r.files, entries).files == r.files
  {
    EntriesOfRecords(files, ms);
    SecondUndoHarmless(TurnRecords(files, ms), now);
  }
}
