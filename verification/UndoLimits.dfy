/** Turns that undo cannot take back, or takes back wrongly, and undoing a turn twice. */
module UndoLimits {
  import opened EditScript
  import opened Text
  import opened PatchFormat
  import opened RoundTrip
  import opened Checkpoints

  // ----- A turn that cannot be undone

  lemma TurnOfOne(files: Files, m: Mutation)
    requires Enabled(files, m)
    ensures AllEnabled(files, [m]) && AfterTurn(files, [m]) == Mutated(files, m)
    ensures EntriesOfTurn(files, [m], []) == [EntryOf(files, m)]
  {
    TurnUnfold(files, m, [], []);
    assert [m] + [] == [m];
  }

  lemma OneMutationThrows(files: Files, m: Mutation)
    requires Enabled(files, m) && PathFits(files, m) && Throws(files, m, Mutated(files, m))
    ensures AllEnabled(files, [m]) && UndoTurn(AfterTurn(files, [m]), EntriesOfTurn(files, [m], [])).thrown.Some?
  {
    TurnOfOne(files, m);
    UndoEntryExactly(files, m, Start(Mutated(files, m)));
    UndoOnlyEntry(Mutated(files, m), EntryOf(files, m));
  }

  const SQL_BEFORE: Files := map["q.sql" := "y\n"]
  const SQL_EDIT := Write("q.sql", "-- x\ny\n")

  lemma SqlDoesNotApply()
    ensures !Applies("q.sql", "-- x\ny\n", "y\n")
  {
    DashWitness();
    WitnessPlain();
    PrintedOutcome("q.sql", "-- x\ny\n", "y\n", None);
    assert DEFAULTS == WithContext(None);
  }

  lemma SqlThrows()
    ensures PathFits(SQL_BEFORE, SQL_EDIT) && Throws(SQL_BEFORE, SQL_EDIT, Mutated(SQL_BEFORE, SQL_EDIT))
  {
    SqlDoesNotApply();
    WitnessPlain();
  }

  /** Adding an SQL comment to a file is a turn whose undo throws, on the files just as the turn left them. */
  lemma AddedCommentThrows()
    ensures AllEnabled(SQL_BEFORE, [SQL_EDIT])
    ensures UndoTurn(AfterTurn(SQL_BEFORE, [SQL_EDIT]), EntriesOfTurn(SQL_BEFORE, [SQL_EDIT], [])).thrown.Some?
  {
    SqlThrows();
    OneMutationThrows(SQL_BEFORE, SQL_EDIT);
  }

  // ----- Turns that lose track of a file

  lemma TurnOfTwo(files: Files, m1: Mutation, m2: Mutation)
    requires Enabled(files, m1) && Enabled(Mutated(files, m1), m2)
    ensures AllEnabled(files, [m1, m2]) && AfterTurn(files, [m1, m2]) == Mutated(Mutated(files, m1), m2)
    ensures EntriesOfTurn(files, [m1, m2], [])
         == Recorded([EntryOf(files, m1)], EntryOf(Mutated(files, m1), m2))
  {
    TurnUnfold(Mutated(files, m1), m2, [], [EntryOf(files, m1)]);
    TurnUnfold(files, m1, [m2], []);
    assert [m2] + [] == [m2] && [m1] + [m2] == [m1, m2];
    assert [] + [EntryOf(files, m1)] == [EntryOf(files, m1)];
  }

  lemma FirstStands(e: Entry, e2: Entry)
    requires e.path == e2.path
    ensures Recorded([e], e2) == [e]
  {
    assert [e][0].path == e2.path;
  }

  lemma TurnOfOnePath(files: Files, m1: Mutation, m2: Mutation)
    requires Enabled(files, m1) && Enabled(Mutated(files, m1), m2) && RecordedPath(m1) == RecordedPath(m2)
    ensures AllEnabled(files, [m1, m2]) && AfterTurn(files, [m1, m2]) == Mutated(Mutated(files, m1), m2)
    ensures forall now :: UndoTurn(now, EntriesOfTurn(files, [m1, m2], [])) == UndoEntry(Start(now), EntryOf(files, m1))
  {
    TurnOfTwo(files, m1, m2);
    FirstStands(EntryOf(files, m1), EntryOf(Mutated(files, m1), m2));
    forall now ensures UndoTurn(now, [EntryOf(files, m1)]) == UndoEntry(Start(now), EntryOf(files, m1)) {
      UndoOnlyEntry(now, EntryOf(files, m1));
    }
  }

  /** Creating a file and then moving it: undo reports the old path restored, nothing else, and the file stays. */
  lemma CreatedThenMoved(files: Files, f: string, g: string, text: string)
    requires f !in files && g !in files && f != g && g != ""
    ensures var ms := [Write(f, text), Move(f, g)];
            && AllEnabled(files, ms)
            && var r := UndoTurn(AfterTurn(files, ms), EntriesOfTurn(files, ms, []));
            Clean(r) && r.restored == [f] && r.files == files[g := text] && r.files != files
  {
    var ms := [Write(f, text), Move(f, g)];
    TurnOfOnePath(files, Write(f, text), Move(f, g));
    assert AfterTurn(files, ms) == files[g := text];
    assert files[g := text] - {f} == files[g := text];
  }

  /** Editing a file and then moving it, as deleting does: undo brings nothing back. */
  lemma EditedThenMoved(files: Files, f: string, g: string, text: string)
    requires f in files && g !in files && g != ""
    ensures var ms := [Write(f, text), Move(f, g)];
            && AllEnabled(files, ms)
            && UndoTurn(AfterTurn(files, ms), EntriesOfTurn(files, ms, []))
            == Undoing(AfterTurn(files, ms), [], [Conflict(f, FileGone)], None)
  {
    TurnOfOnePath(files, Write(f, text), Move(f, g));
  }

  lemma UndoTwo(now: Files, e1: Entry, e2: Entry)
    requires UndoEntry(Start(now), e2).thrown == None
    ensures UndoTurn(now, [e1, e2]) == UndoEntry(UndoEntry(Start(now), e2), e1)
  {
    var s := UndoEntry(Start(now), e2);
    UndoOneMore(Start(now), [e1, e2], 1);
    UndoOneMore(s, [e1, e2], 0);
  }

  lemma {:induction false} TurnInTwo(files: Files, ms: seq<Mutation>, more: seq<Mutation>, entries: seq<Entry>)
    requires AllEnabled(files, ms) && AllEnabled(AfterTurn(files, ms), more)
    ensures AllEnabled(files, ms + more) && AfterTurn(files, ms + more) == AfterTurn(AfterTurn(files, ms), more)
    ensures EntriesOfTurn(files, ms + more, entries)
         == EntriesOfTurn(AfterTurn(files, ms), more, EntriesOfTurn(files, ms, entries))
    decreases |ms|
  {
    if ms == [] {
      assert ms + more == more;
    } else {
      var files1, entries1 := Mutated(files, ms[0]), Recorded(entries, EntryOf(files, ms[0]));
      TurnInTwo(files1, ms[1..], more, entries1);
      TurnUnfold(files, ms[0], ms[1..] + more, entries);
      Associate([ms[0]], ms[1..], more);
      assert [ms[0]] + ms[1..] == ms;
    }
  }

  /** A new file is thrown away again. */
  function CreatedAndTrashed(b: string, t: string, x: string): seq<Mutation> {
    [Write(b, x), Move(b, t)]
  }

  /** Another file takes a path and is edited there. */
  function MovedAndEdited(a: string, b: string, z: string): seq<Mutation> {
    [Move(a, b), Write(b, z)]
  }

  lemma TrashTurn(files: Files, b: string, t: string, x: string)
    requires b !in files && t !in files && b != t && t != ""
    ensures AllEnabled(files, CreatedAndTrashed(b, t, x))
    ensures AfterTurn(files, CreatedAndTrashed(b, t, x)) == files[t := x]
    ensures EntriesOfTurn(files, CreatedAndTrashed(b, t, x), []) == [EntryOf(files, Write(b, x))]
  {
    var m1, m2 := Write(b, x), Move(b, t);
    TurnOfTwo(files, m1, m2);
    FirstStands(EntryOf(files, m1), EntryOf(Mutated(files, m1), m2));
    assert Mutated(files, m1) - {b} == files;
  }

  lemma MovedTurn(files: Files, a: string, b: string, z: string, e: Entry)
    requires a in files && b !in files && b != "" && e.path == b
    ensures AllEnabled(files, MovedAndEdited(a, b, z))
    ensures AfterTurn(files, MovedAndEdited(a, b, z)) == (files - {a})[b := z]
    ensures EntriesOfTurn(files, MovedAndEdited(a, b, z), [e]) == [e, MoveEntry(a, b)]
  {
    var m1, m2 := Move(a, b), Write(b, z);
    var es := [e, MoveEntry(a, b)];
    assert Recorded([e], MoveEntry(a, b)) == es;
    assert es[0].path == EntryOf(Mutated(files, m1), m2).path;
    TurnUnfold(Mutated(files, m1), m2, [], es);
    TurnUnfold(files, m1, [m2], [e]);
    assert [m2] + [] == [m2] && [m1] + [m2] == [m1, m2];
    Overwrite(files - {a}, b, files[a], z);
  }

  lemma BackWithTheEdit(files: Files, a: string, b: string, z: string, e: Entry)
    requires a in files && b !in files && b != "" && e.path == b && e.createdByEdit && e.movedTo == ""
    ensures UndoTurn((files - {a})[b := z], [e, MoveEntry(a, b)]) == Undoing(files[a := z], [a, b], [], None)
  {
    var now := (files - {a})[b := z];
    assert (now - {b})[a := z] == files[a := z];
    var s := UndoEntry(Start(now), MoveEntry(a, b));
    assert s == Undoing(files[a := z], [a], [], None);
    UndoTwo(now, e, MoveEntry(a, b));
    assert s.files - {b} == s.files && [a] + [b] == [a, b];
  }

  /**
   * A file is created and thrown away, another one is moved to its path and edited there: undo reports
   * success, the moved file comes back with the edit, and its text before the turn is gone.
   */
  lemma MovedOverForgotten(files: Files, a: string, b: string, t: string, x: string, z: string)
    requires a in files && b !in files && t !in files && a != b && b != t && b != "" && t != ""
    ensures var ms := CreatedAndTrashed(b, t, x) + MovedAndEdited(a, b, z);
            && AllEnabled(files, ms)
            && UndoTurn(AfterTurn(files, ms), EntriesOfTurn(files, ms, []))
            == Undoing(files[t := x][a := z], [a, b], [], None)
  {
    var e := EntryOf(files, Write(b, x));
    TrashTurn(files, b, t, x);
    MovedTurn(files[t := x], a, b, z, e);
    TurnInTwo(files, CreatedAndTrashed(b, t, x), MovedAndEdited(a, b, z), []);
    BackWithTheEdit(files[t := x], a, b, z, e);
  }

  /** Two files change places, by way of a third path. */
  function Swap(a: string, b: string, c: string): seq<Mutation> {
    [Move(a, b), Move(c, a), Move(b, c)]
  }

  function SwapEntries(a: string, b: string, c: string): seq<Entry> {
    [MoveEntry(a, b), MoveEntry(c, a), MoveEntry(b, c)]
  }

  function Swapped(files: Files, a: string, c: string): Files
    requires a in files && c in files
  {
    files[a := files[c]][c := files[a]]
  }

  predicate Swappable(files: Files, a: string, b: string, c: string) {
    a in files && c in files && b !in files && a != c && a != "" && b != "" && c != ""
  }

  lemma SwapFiles(files: Files, a: string, b: string, c: string)
    requires Swappable(files, a, b, c)
    ensures var f1 := Mutated(files, Move(a, b));
            var f2 := Mutated(f1, Move(c, a));
            Enabled(f2, Move(b, c)) && Mutated(f2, Move(b, c)) == Swapped(files, a, c)
  {
  }

  lemma SwapTurn(files: Files, a: string, b: string, c: string)
    requires Swappable(files, a, b, c)
    ensures AllEnabled(files, Swap(a, b, c)) && AfterTurn(files, Swap(a, b, c)) == Swapped(files, a, c)
    ensures EntriesOfTurn(files, Swap(a, b, c), []) == SwapEntries(a, b, c)
  {
    var f1 := Mutated(files, Move(a, b));
    var f2 := Mutated(f1, Move(c, a));
    var es := SwapEntries(a, b, c);
    SwapFiles(files, a, b, c);
    TurnOfTwo(files, Move(a, b), Move(c, a));
    TurnUnfold(f2, Move(b, c), [], es[..2]);
    assert [Move(b, c)] + [] == [Move(b, c)] && [Move(a, b), Move(c, a)] + [Move(b, c)] == Swap(a, b, c);
    assert Recorded([es[0]], es[1]) == es[..2] && Recorded(es[..2], es[2]) == es;
    TurnInTwo(files, [Move(a, b), Move(c, a)], [Move(b, c)], []);
  }

  lemma UndoThree(now: Files, es: seq<Entry>)
    requires |es| == 3
    requires UndoEntry(Start(now), es[2]).thrown == None
    requires UndoEntry(UndoEntry(Start(now), es[2]), es[1]).thrown == None
    ensures UndoTurn(now, es) == UndoEntry(UndoEntry(UndoEntry(Start(now), es[2]), es[1]), es[0])
  {
    var s2 := UndoEntry(Start(now), es[2]);
    UndoOneMore(Start(now), es, 2);
    UndoOneMore(s2, es, 1);
    UndoOneMore(UndoEntry(s2, es[1]), es, 0);
  }

  lemma MovesBack(s: Undoing, from: string, to: string)
    requires to in s.files && from !in s.files && to != ""
    ensures UndoEntry(s, MoveEntry(from, to))
         == Undoing((s.files - {to})[from := s.files[to]], s.restored + [from], s.conflicts, s.thrown)
  {
  }

  lemma UndoSwap(now: Files, a: string, b: string, c: string)
    requires Swappable(now, a, b, c)
    ensures UndoTurn(now, SwapEntries(a, b, c)) == Undoing(Swapped(now, a, c), [b, c, a], [], None)
  {
    var s2 := UndoEntry(Start(now), MoveEntry(b, c));
    MovesBack(Start(now), b, c);
    var s1 := UndoEntry(s2, MoveEntry(c, a));
    MovesBack(s2, c, a);
    MovesBack(s1, a, b);
    UndoThree(now, SwapEntries(a, b, c));
    assert (s1.files - {b})[a := s1.files[b]] == Swapped(now, a, c);
  }

  /** After a swap has been undone, undoing the same entries again swaps the files once more, and reports success. */
  lemma SwapUndoneTwice(files: Files, a: string, b: string, c: string)
    requires Swappable(files, a, b, c)
    ensures AllEnabled(files, Swap(a, b, c))
    ensures var now, entries := AfterTurn(files, Swap(a, b, c)), EntriesOfTurn(files, Swap(a, b, c), []);
            var r := UndoTurn(now, entries);
            Clean(r) && r.files == files && Clean(UndoTurn(files, entries)) && UndoTurn(files, entries).files == now
  {
    SwapTurn(files, a, b, c);
    UndoSwap(Swapped(files, a, c), a, b, c);
    UndoSwap(files, a, b, c);
    assert Swapped(Swapped(files, a, c), a, c) == files;
  }
}
