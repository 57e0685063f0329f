/** The directory of checkpoint files: saving, listing newest first, and keeping only the newest few. */
module CheckpointFiles {
  import opened Text
  import opened Checkpoints

  /** A persisted turn. `undoneAt` is 0 as long as the turn has not been undone. */
  datatype Checkpoint = Checkpoint(
    sessionId: string,
    turnId: string,
    createdAt: nat,
    title: string,
    entries: seq<Entry>,
    undoneAt: nat)

  type Dir = seq<Checkpoint>

  /** The file name: the two ids. */
  function Name(c: Checkpoint): (string, string) {
    (c.sessionId, c.turnId)
  }

  predicate Live(c: Checkpoint) {
    c.undoneAt == 0
  }

  predicate HasFile(dir: Dir, c: Checkpoint) {
    exists i :: 0 <= i < |dir| && Name(dir[i]) == Name(c)
  }

  /** No two files have the same name. */
  predicate Distinct(dir: Dir) {
    forall i, j :: 0 <= i < j < |dir| ==> Name(dir[i]) != Name(dir[j])
  }

  function Overwritten(dir: Dir, c: Checkpoint): (r: Dir)
    ensures |r| == |dir|
  {
    if dir == [] then []
    else Overwritten(dir[..|dir| - 1], c) + [if Name(Last(dir)) == Name(c) then c else Last(dir)]
  }

  /** Writes the checkpoint's file. */
  function Saved(dir: Dir, c: Checkpoint): Dir {
    if HasFile(dir, c) then Overwritten(dir, c) else dir + [c]
  }

  /** The files that are left when those with one of the names are gone. */
  function Without(dir: Dir, gone: set<(string, string)>): Dir {
    if dir == [] then []
    else
      var rest := Without(dir[..|dir| - 1], gone);
      if Name(Last(dir)) in gone then rest else rest + [Last(dir)]
  }

  function Last<T>(s: seq<T>): T
    requires s != []
  {
    s[|s| - 1]
  }

  function OfSession(dir: Dir, sessionId: string): Dir {
    if dir == [] then []
    else
      var rest := OfSession(dir[..|dir| - 1], sessionId);
      if Last(dir).sessionId == sessionId then rest + [Last(dir)] else rest
  }

  /** Puts a checkpoint behind all that are not older. */
  function Inserted(list: Dir, c: Checkpoint): Dir {
    if list == [] || Last(list).createdAt >= c.createdAt then list + [c]
    else Inserted(list[..|list| - 1], c) + [Last(list)]
  }

  /** The stable sort, newest first. */
  function Sorted(list: Dir): Dir {
    if list == [] then [] else Inserted(Sorted(list[..|list| - 1]), Last(list))
  }

  function Listed(dir: Dir, sessionId: string): Dir {
    Sorted(OfSession(dir, sessionId))
  }

  function Newest(list: Dir, keep: nat): Dir {
    list[..Min(keep, |list|)]
  }

  function Names(list: Dir): set<(string, string)> {
    set c | c in list :: Name(c)
  }

  /** The names that retention removes: every session's files beyond its newest `keep`. */
  ghost function StaleNames(dir: Dir, keep: nat): set<(string, string)> {
    set c | c in dir && Name(c) in Names(Listed(dir, c.sessionId)[Min(keep, |Listed(dir, c.sessionId)|)..]) :: Name(c)
  }

  ghost function Pruned(dir: Dir, keep: nat): Dir {
    Without(dir, StaleNames(dir, keep))
  }

  /** A turn that recorded nothing leaves no checkpoint. */
  ghost function Committed(dir: Dir, turn: Checkpoint, keep: nat): Dir {
    if turn.entries == [] then dir else Pruned(Saved(dir, turn), keep)
  }

  // ----- Listing

  lemma OfSessionSnoc(dir: Dir, c: Checkpoint, sessionId: string)
    ensures OfSession(dir + [c], sessionId)
         == if c.sessionId == sessionId then OfSession(dir, sessionId) + [c] else OfSession(dir, sessionId)
  {
    assert (dir + [c])[..|dir|] == dir;
  }

  lemma SortedSnoc(list: Dir, c: Checkpoint)
    ensures Sorted(list + [c]) == Inserted(Sorted(list), c)
  {
    assert (list + [c])[..|list|] == list;
  }

  lemma ListedSnoc(dir: Dir, c: Checkpoint, sessionId: string)
    ensures Listed(dir + [c], sessionId)
         == if c.sessionId == sessionId then Inserted(Listed(dir, sessionId), c) else Listed(dir, sessionId)
  {
    OfSessionSnoc(dir, c, sessionId);
    if c.sessionId == sessionId {
      SortedSnoc(OfSession(dir, sessionId), c);
    }
  }

  predicate NewestFirst(list: Dir) {
    forall i, j :: 0 <= i < j < |list| ==> list[i].createdAt >= list[j].createdAt
  }

  predicate NoOlder(list: Dir, time: nat) {
    forall i :: 0 <= i < |list| ==> list[i].createdAt >= time
  }

  lemma {:induction false} InsertedBound(list: Dir, c: Checkpoint, time: nat)
    requires NoOlder(list, time) && c.createdAt >= time
    ensures NoOlder(Inserted(list, c), time)
    decreases |list|
  {
    if list != [] && Last(list).createdAt < c.createdAt {
      InsertedBound(list[..|list| - 1], c, time);
    }
  }

  lemma {:induction false} InsertedOrdered(list: Dir, c: Checkpoint)
    requires NewestFirst(list)
    ensures NewestFirst(Inserted(list, c))
    decreases |list|
  {
    if list != [] && Last(list).createdAt < c.createdAt {
      InsertedOrdered(list[..|list| - 1], c);
      InsertedBound(list[..|list| - 1], c, Last(list).createdAt);
    }
  }

  lemma {:induction false} InsertedContents(list: Dir, c: Checkpoint)
    ensures multiset(Inserted(list, c)) == multiset(list) + multiset{c}
    decreases |list|
  {
    if list != [] && Last(list).createdAt < c.createdAt {
      InsertedContents(list[..|list| - 1], c);
      assert list[..|list| - 1] + [Last(list)] == list;
    }
  }

  /** A listing is the session's files, newest first. */
  lemma {:induction false} SortedOrdered(list: Dir)
    ensures NewestFirst(Sorted(list)) && multiset(Sorted(list)) == multiset(list)
    decreases |list|
  {
    if list != [] {
      var front := list[..|list| - 1];
      SortedOrdered(front);
      InsertedOrdered(Sorted(front), Last(list));
      InsertedContents(Sorted(front), Last(list));
      assert front + [Last(list)] == list;
    }
  }

  function OfTime(list: Dir, time: nat): Dir {
    if list == [] then []
    else OfTime(list[..|list| - 1], time) + if Last(list).createdAt == time then [Last(list)] else []
  }

  lemma OfTimeSnoc(list: Dir, c: Checkpoint, time: nat)
    ensures OfTime(list + [c], time) == OfTime(list, time) + if c.createdAt == time then [c] else []
  {
    assert (list + [c])[..|list|] == list;
  }

  lemma {:induction false} InsertedBehindTies(list: Dir, c: Checkpoint, time: nat)
    ensures OfTime(Inserted(list, c), time) == OfTime(list, time) + if c.createdAt == time then [c] else []
    decreases |list|
  {
    if list == [] || Last(list).createdAt >= c.createdAt {
      OfTimeSnoc(list, c, time);
    } else {
      InsertedBehindTies(list[..|list| - 1], c, time);
      OfTimeSnoc(Inserted(list[..|list| - 1], c), Last(list), time);
    }
  }

  /** Checkpoints of the same time stay in the order in which they lie in the directory. */
  lemma {:induction false} SortedStable(list: Dir, time: nat)
    ensures OfTime(Sorted(list), time) == OfTime(list, time)
    decreases |list|
  {
    if list != [] {
      SortedStable(list[..|list| - 1], time);
      InsertedBehindTies(Sorted(list[..|list| - 1]), Last(list), time);
    }
  }

  // ----- Retention

  lemma WithoutSnoc(dir: Dir, c: Checkpoint, gone: set<(string, string)>)
    ensures Without(dir + [c], gone) == if Name(c) in gone then Without(dir, gone) else Without(dir, gone) + [c]
  {
    assert (dir + [c])[..|dir|] == dir;
  }

  lemma {:induction false} WithoutMember(dir: Dir, c: Checkpoint, gone: set<(string, string)>)
    ensures c in Without(dir, gone) <==> c in dir && Name(c) !in gone
    decreases |dir|
  {
    if dir != [] {
      WithoutMember(dir[..|dir| - 1], c, gone);
      assert dir[..|dir| - 1] + [Last(dir)] == dir;
    }
  }

  lemma {:induction false} InsertedAtFront(list: Dir, c: Checkpoint)
    requires forall i :: 0 <= i < |list| ==> list[i].createdAt < c.createdAt
    ensures Inserted(list, c) == [c] + list
    decreases |list|
  {
    if list != [] {
      InsertedAtFront(list[..|list| - 1], c);
      assert [c] + list == [c] + list[..|list| - 1] + [Last(list)];
    }
  }

  lemma {:induction false} WithoutBound(list: Dir, gone: set<(string, string)>, time: nat)
    requires NoOlder(list, time)
    ensures NoOlder(Without(list, gone), time)
    decreases |list|
  {
    if list != [] {
      WithoutBound(list[..|list| - 1], gone, time);
    }
  }

  lemma InsertedLast(list: Dir, last: Checkpoint, c: Checkpoint)
    requires last.createdAt < c.createdAt
    ensures Inserted(list + [last], c) == Inserted(list, c) + [last]
  {
    assert (list + [last])[..|list|] == list;
  }

  lemma InsertedBehind(list: Dir, c: Checkpoint)
    requires NoOlder(list, c.createdAt)
    ensures Inserted(list, c) == list + [c]
  {
  }

  lemma OldestLast(list: Dir, time: nat)
    requires NewestFirst(list) && (list == [] || Last(list).createdAt >= time)
    ensures NoOlder(list, time)
  {
  }

  lemma WithoutInsertedLast(list: Dir, c: Checkpoint, gone: set<(string, string)>)
    requires NoOlder(list, c.createdAt)
    ensures Without(Inserted(list, c), gone)
         == if Name(c) in gone then Without(list, gone) else Inserted(Without(list, gone), c)
  {
    InsertedBehind(list, c);
    WithoutSnoc(list, c, gone);
    WithoutBound(list, gone, c.createdAt);
    if Name(c) !in gone {
      InsertedBehind(Without(list, gone), c);
    }
  }

  lemma WithoutInsertedStep(front: Dir, last: Checkpoint, c: Checkpoint, gone: set<(string, string)>)
    requires last.createdAt < c.createdAt
    requires Without(Inserted(front, c), gone)
          == if Name(c) in gone then Without(front, gone) else Inserted(Without(front, gone), c)
    ensures Without(Inserted(front, c) + [last], gone)
         == if Name(c) in gone then Without(front + [last], gone) else Inserted(Without(front + [last], gone), c)
  {
    WithoutSnoc(Inserted(front, c), last, gone);
    WithoutSnoc(front, last, gone);
    InsertedLast(Without(front, gone), last, c);
  }

  /** Removing files commutes with inserting one. */
  lemma {:induction false} WithoutInserted(list: Dir, c: Checkpoint, gone: set<(string, string)>)
    requires NewestFirst(list)
    ensures Without(Inserted(list, c), gone)
         == if Name(c) in gone then Without(list, gone) else Inserted(Without(list, gone), c)
    decreases |list|
  {
    if list == [] || Last(list).createdAt >= c.createdAt {
      OldestLast(list, c.createdAt);
      WithoutInsertedLast(list, c, gone);
    } else {
      var front, last := list[..|list| - 1], Last(list);
      assert front + [last] == list;
      WithoutInserted(front, c, gone);
      WithoutInsertedStep(front, last, c, gone);
    }
  }

  lemma ListedWithoutStep(front: Dir, last: Checkpoint, gone: set<(string, string)>, sessionId: string)
    requires Listed(Without(front, gone), sessionId) == Without(Listed(front, sessionId), gone)
    ensures Listed(Without(front + [last], gone), sessionId) == Without(Listed(front + [last], sessionId), gone)
  {
    WithoutSnoc(front, last, gone);
    ListedSnoc(front, last, sessionId);
    if last.sessionId == sessionId {
      SortedOrdered(OfSession(front, sessionId));
      WithoutInserted(Listed(front, sessionId), last, gone);
    }
    if Name(last) !in gone {
      ListedSnoc(Without(front, gone), last, sessionId);
    }
  }

  /** Removing files commutes with listing them. */
  lemma {:induction false} ListedWithout(dir: Dir, gone: set<(string, string)>, sessionId: string)
    ensures Listed(Without(dir, gone), sessionId) == Without(Listed(dir, sessionId), gone)
    decreases |dir|
  {
    if dir != [] {
      var front, last := dir[..|dir| - 1], Last(dir);
      assert front + [last] == dir;
      ListedWithout(front, gone, sessionId);
      ListedWithoutStep(front, last, gone, sessionId);
    }
  }

  lemma {:induction false} OfSessionMember(dir: Dir, c: Checkpoint, sessionId: string)
    ensures c in OfSession(dir, sessionId) <==> c in dir && c.sessionId == sessionId
    decreases |dir|
  {
    if dir != [] {
      OfSessionMember(dir[..|dir| - 1], c, sessionId);
      assert dir[..|dir| - 1] + [Last(dir)] == dir;
    }
  }

  lemma ListedMember(dir: Dir, c: Checkpoint, sessionId: string)
    ensures c in Listed(dir, sessionId) <==> c in dir && c.sessionId == sessionId
  {
    OfSessionMember(dir, c, sessionId);
    SortedOrdered(OfSession(dir, sessionId));
    assert c in Listed(dir, sessionId) <==> c in multiset(Listed(dir, sessionId));
    assert c in OfSession(dir, sessionId) <==> c in multiset(OfSession(dir, sessionId));
  }

  lemma {:induction false} InsertedDistinct(list: Dir, c: Checkpoint)
    requires Distinct(list) && !HasFile(list, c)
    ensures Distinct(Inserted(list, c))
    decreases |list|
  {
    if list != [] && Last(list).createdAt < c.createdAt {
      var front := list[..|list| - 1];
      InsertedDistinct(front, c);
      InsertedContents(front, c);
      forall i | 0 <= i < |Inserted(front, c)| ensures Name(Inserted(front, c)[i]) != Name(Last(list)) {
        assert Inserted(front, c)[i] in multiset(front) + multiset{c};
      }
    }
  }

  lemma {:induction false} ListedDistinct(dir: Dir, sessionId: string)
    requires Distinct(dir)
    ensures Distinct(Listed(dir, sessionId))
    decreases |dir|
  {
    if dir != [] {
      var front, last := dir[..|dir| - 1], Last(dir);
      assert front + [last] == dir;
      ListedDistinct(front, sessionId);
      ListedSnoc(front, last, sessionId);
      if last.sessionId == sessionId {
        forall i | 0 <= i < |Listed(front, sessionId)| ensures Name(Listed(front, sessionId)[i]) != Name(last) {
          ListedMember(front, Listed(front, sessionId)[i], sessionId);
        }
        InsertedDistinct(Listed(front, sessionId), last);
      }
    }
  }

  /** Taking out the names behind position k of a list leaves its first k files. */
  lemma {:induction false} WithoutTail(list: Dir, k: nat, gone: set<(string, string)>)
    requires k <= |list| && Distinct(list)
    requires forall i :: 0 <= i < |list| ==> (Name(list[i]) in gone <==> k <= i)
    ensures Without(list, gone) == list[..k]
    decreases |list|
  {
    if list != [] {
      var front := list[..|list| - 1];
      WithoutTail(front, Min(k, |front|), gone);
      if k == |list| {
        assert front + [Last(list)] == list[..k];
      }
    }
  }

  lemma StaleInSession(dir: Dir, keep: nat, sessionId: string, i: nat)
    requires Distinct(dir) && i < |Listed(dir, sessionId)|
    ensures Name(Listed(dir, sessionId)[i]) in StaleNames(dir, keep) <==> keep <= i
  {
    var list := Listed(dir, sessionId);
    var k := Min(keep, |list|);
    ListedDistinct(dir, sessionId);
    ListedMember(dir, list[i], sessionId);
    if keep <= i {
      assert list[i] in list[k..];
    }
  }

  /** Retention keeps every session's newest `keep` checkpoints, whatever other sessions have stored. */
  lemma PruneKeepsNewest(dir: Dir, keep: nat, sessionId: string)
    requires Distinct(dir)
    ensures Listed(Pruned(dir, keep), sessionId) == Newest(Listed(dir, sessionId), keep)
  {
    var list := Listed(dir, sessionId);
    ListedWithout(dir, StaleNames(dir, keep), sessionId);
    ListedDistinct(dir, sessionId);
    forall i | 0 <= i < |list| ensures Name(list[i]) in StaleNames(dir, keep) <==> Min(keep, |list|) <= i {
      StaleInSession(dir, keep, sessionId, i);
    }
    WithoutTail(list, Min(keep, |list|), StaleNames(dir, keep));
  }

  lemma {:induction false} WithoutDistinct(dir: Dir, gone: set<(string, string)>)
    requires Distinct(dir)
    ensures Distinct(Without(dir, gone))
    decreases |dir|
  {
    if dir != [] {
      var front, last := dir[..|dir| - 1], Last(dir);
      WithoutDistinct(front, gone);
      forall i | 0 <= i < |Without(front, gone)| ensures Name(Without(front, gone)[i]) != Name(last) {
        WithoutMember(front, Without(front, gone)[i], gone);
      }
    }
  }

  // ----- Saving

  /** A new turn that is newer than all of its session's checkpoints comes first in the listing. */
  lemma SavedComesFirst(dir: Dir, c: Checkpoint)
    requires !HasFile(dir, c)
    requires forall i :: 0 <= i < |dir| && dir[i].sessionId == c.sessionId ==> dir[i].createdAt < c.createdAt
    ensures Listed(Saved(dir, c), c.sessionId) == [c] + Listed(dir, c.sessionId)
    ensures Distinct(dir) ==> Distinct(Saved(dir, c))
  {
    var list := Listed(dir, c.sessionId);
    ListedSnoc(dir, c, c.sessionId);
    forall i | 0 <= i < |list| ensures list[i].createdAt < c.createdAt {
      ListedMember(dir, list[i], c.sessionId);
    }
    InsertedAtFront(list, c);
  }

  lemma OverwrittenSnoc(dir: Dir, x: Checkpoint, c: Checkpoint)
    ensures Overwritten(dir + [x], c) == Overwritten(dir, c) + [if Name(x) == Name(c) then c else x]
  {
    assert (dir + [x])[..|dir|] == dir;
  }

  lemma {:induction false} OverwrittenAt(dir: Dir, c: Checkpoint, i: nat)
    requires i < |dir|
    ensures Overwritten(dir, c)[i] == if Name(dir[i]) == Name(c) then c else dir[i]
    decreases |dir|
  {
    if i < |dir| - 1 {
      OverwrittenAt(dir[..|dir| - 1], c, i);
    }
  }

  /** The file being overwritten, if there is one, was created at the same time. */
  predicate SameTime(dir: Dir, c: Checkpoint) {
    forall i :: 0 <= i < |dir| && Name(dir[i]) == Name(c) ==> dir[i].createdAt == c.createdAt
  }

  lemma {:induction false} OverwrittenInserted(list: Dir, x: Checkpoint, c: Checkpoint)
    requires SameTime(list, c) && (Name(x) == Name(c) ==> x.createdAt == c.createdAt)
    ensures Overwritten(Inserted(list, x), c) == Inserted(Overwritten(list, c), if Name(x) == Name(c) then c else x)
    decreases |list|
  {
    if list == [] || Last(list).createdAt >= x.createdAt {
      OverwrittenSnoc(list, x, c);
    } else {
      var front, last := list[..|list| - 1], Last(list);
      OverwrittenInserted(front, x, c);
      OverwrittenSnoc(Inserted(front, x), last, c);
      InsertedLast(Overwritten(front, c), if Name(last) == Name(c) then c else last,
                   if Name(x) == Name(c) then c else x);
    }
  }

  /** Overwriting a file changes its line of the listing and nothing else. */
  lemma {:induction false} ListedOverwritten(dir: Dir, c: Checkpoint, sessionId: string)
    requires SameTime(dir, c)
    ensures Listed(Overwritten(dir, c), sessionId) == Overwritten(Listed(dir, sessionId), c)
    decreases |dir|
  {
    if dir != [] {
      var front, last := dir[..|dir| - 1], Last(dir);
      assert front + [last] == dir;
      ListedOverwritten(front, c, sessionId);
      ListedSnoc(front, last, sessionId);
      ListedSnoc(Overwritten(front, c), if Name(last) == Name(c) then c else last, sessionId);
      if last.sessionId == sessionId {
        ListedSameTime(front, c, sessionId);
        OverwrittenInserted(Listed(front, sessionId), last, c);
      }
    }
  }

  lemma ListedSameTime(dir: Dir, c: Checkpoint, sessionId: string)
    requires SameTime(dir, c)
    ensures SameTime(Listed(dir, sessionId), c)
  {
    var list := Listed(dir, sessionId);
    forall i | 0 <= i < |list| && Name(list[i]) == Name(c) ensures list[i].createdAt == c.createdAt {
      ListedMember(dir, list[i], sessionId);
    }
  }
}
