/** Whole runs of committed turns and undos, against a history of the files as they were. */
module UndoStack {
  import opened Text
  import opened Checkpoints
  import opened CheckpointFiles
  import opened UndoRecords
  import opened UndoExact

  // ----- The store over a run

  /** A turn of the session with what it does to the files, or undoing the newest live checkpoint. */
  datatype Step =
    | Turn(turnId: string, createdAt: nat, title: string, mutations: seq<Mutation>)
    | UndoNewest(now: nat)

  datatype State = State(files: Files, dir: Dir)

  /** The position of the first live checkpoint, or the length of the list. */
  function FirstLive(list: Dir): (k: nat)
    ensures k <= |list| && (k < |list| ==> Live(list[k])) && forall i :: 0 <= i < k ==> !Live(list[i])
  {
    if list == [] || Live(list[0]) then 0 else 1 + FirstLive(list[1..])
  }

  /** What undoing the checkpoint at `now` leaves: nothing is marked if nothing was restored, or on an error. */
  function Undone(s: State, c: Checkpoint, now: nat): State {
    var r := UndoTurn(s.files, c.entries);
    var marked := r.thrown == None && r.restored != [] && HasFile(s.dir, c);
    State(r.files, if marked then Overwritten(s.dir, c.(undoneAt := now)) else s.dir)
  }

  ghost predicate Admissible(s: State, sessionId: string, step: Step) {
    match step
    case Turn(turnId, createdAt, _, mutations) =>
      && AllEnabled(s.files, mutations) && RecordedOnce(mutations) && AllReversible(s.files, mutations)
      && (forall i :: 0 <= i < |s.dir| && s.dir[i].sessionId == sessionId ==>
            s.dir[i].turnId != turnId && s.dir[i].createdAt < createdAt)
    case UndoNewest(now) => now > 0
  }

  ghost function TurnOf(s: State, sessionId: string, step: Step): Checkpoint
    requires step.Turn? && AllEnabled(s.files, step.mutations)
  {
    Checkpoint(sessionId, step.turnId, step.createdAt, step.title, EntriesOfTurn(s.files, step.mutations, []), 0)
  }

  ghost function Next(s: State, sessionId: string, keep: nat, step: Step): State
    requires Admissible(s, sessionId, step)
  {
    match step
    case Turn(_, _, _, mutations) =>
      State(AfterTurn(s.files, mutations), Committed(s.dir, TurnOf(s, sessionId, step), keep))
    case UndoNewest(now) =>
      var list := Listed(s.dir, sessionId);
      if FirstLive(list) == |list| then s else Undone(s, list[FirstLive(list)], now)
  }

  // ----- The history it stands for

  /** What the files were before a turn, and whether that turn has been undone. */
  datatype Past = Past(before: Files, undone: bool)

  /** The current files, and the remembered turns, newest first. */
  datatype History = History(files: Files, pasts: seq<Past>)

  function FirstPast(pasts: seq<Past>): (k: nat)
    ensures k <= |pasts|
  {
    if pasts == [] || !pasts[0].undone then 0 else 1 + FirstPast(pasts[1..])
  }

  function Remembered(pasts: seq<Past>, keep: nat): seq<Past> {
    pasts[..Min(keep, |pasts|)]
  }

  function StepBack(h: History): History {
    var k := FirstPast(h.pasts);
    if k == |h.pasts| then h else History(h.pasts[k].before, h.pasts[k := h.pasts[k].(undone := true)])
  }

  /** A turn that changes nothing is not remembered, and one that cannot happen changes nothing. */
  ghost function NextHistory(h: History, keep: nat, step: Step): History {
    match step
    case Turn(_, _, _, mutations) =>
      if mutations == [] || !AllEnabled(h.files, mutations) then h
      else History(AfterTurn(h.files, mutations), Remembered([Past(h.files, false)] + h.pasts, keep))
    case UndoNewest(_) => StepBack(h)
  }

  // ----- The store keeps the history

  /** Every live checkpoint, undone once the newer live ones are, gives the files from before its turn. */
  ghost predicate Linked(files: Files, list: Dir, pasts: seq<Past>)
    decreases |list|
  {
    |list| == |pasts| &&
    (list == [] ||
     (if pasts[0].undone then !Live(list[0]) && Linked(files, list[1..], pasts[1..])
      else
        && Live(list[0]) && Invertible(files, list[0].entries, pasts[0].before)
        && Linked(pasts[0].before, list[1..], pasts[1..])))
  }

  ghost predicate Invertible(files: Files, entries: seq<Entry>, before: Files) {
    var r := UndoTurn(files, entries);
    Clean(r) && r.files == before && r.restored != []
  }

  ghost predicate Keeps(s: State, sessionId: string, h: History) {
    s.files == h.files && Distinct(s.dir) && Linked(s.files, Listed(s.dir, sessionId), h.pasts)
  }

  lemma {:induction false} LinkedPrefix(files: Files, list: Dir, pasts: seq<Past>, k: nat)
    requires Linked(files, list, pasts) && k <= |list|
    ensures Linked(files, list[..k], pasts[..k])
    decreases k
  {
    if k > 0 {
      LinkedPrefix(if pasts[0].undone then files else pasts[0].before, list[1..], pasts[1..], k - 1);
      assert list[..k][1..] == list[1..][..k - 1] && pasts[..k][1..] == pasts[1..][..k - 1];
    }
  }

  lemma {:induction false} LinkedFirst(files: Files, list: Dir, pasts: seq<Past>)
    requires Linked(files, list, pasts)
    ensures var k := FirstLive(list);
            k == FirstPast(pasts) && (k < |list| ==> Invertible(files, list[k].entries, pasts[k].before))
    decreases |list|
  {
    if list != [] && pasts[0].undone {
      LinkedFirst(files, list[1..], pasts[1..]);
    }
  }

  lemma {:induction false} LinkedUndone(files: Files, list: Dir, pasts: seq<Past>, c: Checkpoint)
    requires Linked(files, list, pasts) && FirstPast(pasts) < |pasts| && !Live(c)
    ensures var k := FirstPast(pasts);
            Linked(pasts[k].before, list[k := c], pasts[k := pasts[k].(undone := true)])
    decreases |list|
  {
    var k := FirstPast(pasts);
    var list1, pasts1 := list[k := c], pasts[k := pasts[k].(undone := true)];
    if pasts[0].undone {
      LinkedUndone(files, list[1..], pasts[1..], c);
      assert list1[1..] == list[1..][k - 1 := c];
      assert pasts1[1..] == pasts[1..][k - 1 := pasts[k].(undone := true)];
    } else {
      assert list1[1..] == list[1..] && pasts1[1..] == pasts[1..];
    }
  }

  lemma {:induction false} EntriesGrow(files: Files, ms: seq<Mutation>, entries: seq<Entry>)
    requires AllEnabled(files, ms)
    ensures entries <= EntriesOfTurn(files, ms, entries)
    ensures ms != [] ==> EntriesOfTurn(files, ms, entries) != []
    decreases |ms|
  {
    if ms != [] {
      EntriesGrow(Mutated(files, ms[0]), ms[1..], Recorded(entries, EntryOf(files, ms[0])));
    }
  }

  lemma TurnInvertible(files: Files, ms: seq<Mutation>)
    requires AllEnabled(files, ms) && RecordedOnce(ms) && AllReversible(files, ms) && ms != []
    ensures Invertible(AfterTurn(files, ms), EntriesOfTurn(files, ms, []), files)
  {
    UndoInvertsTurn(files, ms);
  }

  lemma TurnKeeps(s: State, sessionId: string, keep: nat, step: Step, h: History)
    requires step.Turn? && Admissible(s, sessionId, step) && Keeps(s, sessionId, h)
    ensures Keeps(Next(s, sessionId, keep, step), sessionId, NextHistory(h, keep, step))
  {
    var ms := step.mutations;
    EntriesGrow(s.files, ms, []);
    if ms != [] {
      var c := TurnOf(s, sessionId, step);
      var list := Listed(s.dir, sessionId);
      var saved := Saved(s.dir, c);
      TurnInvertible(s.files, ms);
      SavedComesFirst(s.dir, c);
      WithoutDistinct(saved, StaleNames(saved, keep));
      PruneKeepsNewest(saved, keep, sessionId);
      assert ([c] + list)[1..] == list && ([Past(s.files, false)] + h.pasts)[1..] == h.pasts;
      LinkedPrefix(AfterTurn(s.files, ms), [c] + list, [Past(s.files, false)] + h.pasts, Min(keep, |list| + 1));
    }
  }

  lemma {:induction false} OverwrittenIs(list: Dir, c: Checkpoint, k: nat)
    requires Distinct(list) && k < |list| && Name(list[k]) == Name(c)
    ensures Overwritten(list, c) == list[k := c]
  {
    forall i | 0 <= i < |list| ensures Overwritten(list, c)[i] == list[k := c][i] {
      OverwrittenAt(list, c, i);
    }
  }

  lemma OverwrittenDistinct(dir: Dir, c: Checkpoint)
    requires Distinct(dir)
    ensures Distinct(Overwritten(dir, c))
  {
    forall i | 0 <= i < |dir| ensures Name(Overwritten(dir, c)[i]) == Name(dir[i]) {
      OverwrittenAt(dir, c, i);
    }
  }

  lemma MarkedListing(dir: Dir, sessionId: string, k: nat, now: nat)
    requires Distinct(dir) && k < |Listed(dir, sessionId)|
    ensures var list := Listed(dir, sessionId);
            var c := list[k].(undoneAt := now);
            && HasFile(dir, list[k]) && Distinct(Overwritten(dir, c))
            && Listed(Overwritten(dir, c), sessionId) == list[k := c]
  {
    var list := Listed(dir, sessionId);
    var c := list[k].(undoneAt := now);
    ListedMember(dir, list[k], sessionId);
    var i :| 0 <= i < |dir| && dir[i] == list[k];
    assert SameTime(dir, c);
    ListedOverwritten(dir, c, sessionId);
    ListedDistinct(dir, sessionId);
    OverwrittenIs(list, c, k);
    OverwrittenDistinct(dir, c);
  }

  /**
   * Whatever the files are and whatever is refused: if undoing a checkpoint restores anything and does not
   * throw, exactly the file of that name is rewritten, as the checkpoint with the time of the undo; otherwise,
   * and if there is no such file, nothing is.
   */
  lemma UndoMarks(s: State, c: Checkpoint, now: nat)
    ensures var r := UndoTurn(s.files, c.entries);
            var t := Undone(s, c, now);
            && t.files == r.files && |t.dir| == |s.dir|
            && forall i :: 0 <= i < |s.dir| ==>
                 t.dir[i] == if r.thrown == None && r.restored != [] && Name(s.dir[i]) == Name(c)
                             then c.(undoneAt := now) else s.dir[i]
  {
    forall i | 0 <= i < |s.dir| && HasFile(s.dir, c)
      ensures Overwritten(s.dir, c.(undoneAt := now))[i]
           == if Name(s.dir[i]) == Name(c) then c.(undoneAt := now) else s.dir[i]
    {
      OverwrittenAt(s.dir, c.(undoneAt := now), i);
    }
  }

  /** In the listing one checkpoint is marked, though some of its entries may have been refused, or nothing is. */
  lemma UndoMarksListed(s: State, sessionId: string, k: nat, now: nat)
    requires Distinct(s.dir) && k < |Listed(s.dir, sessionId)|
    ensures var list := Listed(s.dir, sessionId);
            var r := UndoTurn(s.files, list[k].entries);
            var t := Undone(s, list[k], now);
            && Distinct(t.dir)
            && (if r.thrown == None && r.restored != []
                then Listed(t.dir, sessionId) == list[k := list[k].(undoneAt := now)]
                else t.dir == s.dir)
  {
    MarkedListing(s.dir, sessionId, k, now);
  }

  lemma {:induction false} FirstLiveBeyond(list: Dir, k: nat)
    requires k <= |list| && forall i :: 0 <= i < k ==> !Live(list[i])
    ensures FirstLive(list) == k + FirstLive(list[k..])
    decreases k
  {
    if k > 0 {
      FirstLiveBeyond(list[1..], k - 1);
      assert list[1..][k - 1..] == list[k..];
    } else {
      assert list[0..] == list;
    }
  }

  /**
   * An undo is done with its turn if and only if it restored something and did not throw, also if it refused
   * the rest: then the next one takes the newest live turn among the older ones.
   */
  lemma UndoMovesOn(s: State, sessionId: string, keep: nat, now: nat)
    requires Distinct(s.dir) && now > 0 && FirstLive(Listed(s.dir, sessionId)) < |Listed(s.dir, sessionId)|
    ensures var list := Listed(s.dir, sessionId);
            var k := FirstLive(list);
            var r := UndoTurn(s.files, list[k].entries);
            var after := Listed(Next(s, sessionId, keep, UndoNewest(now)).dir, sessionId);
            && |after| == |list| && after[k + 1..] == list[k + 1..]
            && FirstLive(after) == if r.thrown == None && r.restored != [] then k + 1 + FirstLive(list[k + 1..]) else k
  {
    var list := Listed(s.dir, sessionId);
    var k := FirstLive(list);
    UndoMarksListed(s, sessionId, k, now);
    var after := Listed(Next(s, sessionId, keep, UndoNewest(now)).dir, sessionId);
    if after != list {
      assert after == list[k := list[k].(undoneAt := now)];
      FirstLiveBeyond(after, k + 1);
    }
  }

  /** Undoing the newest live checkpoint is a clean step back in the history. */
  lemma UndoKeeps(s: State, sessionId: string, keep: nat, now: nat, h: History)
    requires now > 0 && Keeps(s, sessionId, h)
    ensures Keeps(Next(s, sessionId, keep, UndoNewest(now)), sessionId, StepBack(h))
    ensures var list := Listed(s.dir, sessionId);
            FirstLive(list) < |list| ==> Clean(UndoTurn(s.files, list[FirstLive(list)].entries))
  {
    var list := Listed(s.dir, sessionId);
    var k := FirstLive(list);
    LinkedFirst(s.files, list, h.pasts);
    if k < |list| {
      MarkedListing(s.dir, sessionId, k, now);
      LinkedUndone(s.files, list, h.pasts, list[k].(undoneAt := now));
    }
  }

  // ----- Whole runs

  ghost predicate AllAdmissible(s: State, sessionId: string, keep: nat, steps: seq<Step>)
    decreases |steps|
  {
    steps == [] || (Admissible(s, sessionId, steps[0]) &&
        AllAdmissible(Next(s, sessionId, keep, steps[0]), sessionId, keep, steps[1..]))
  }

  ghost function After(s: State, sessionId: string, keep: nat, steps: seq<Step>): State
    requires AllAdmissible(s, sessionId, keep, steps)
    decreases |steps|
  {
    if steps == [] then s else After(Next(s, sessionId, keep, steps[0]), sessionId, keep, steps[1..])
  }

  ghost function AfterHistory(h: History, keep: nat, steps: seq<Step>): History
    decreases |steps|
  {
    if steps == [] then h else AfterHistory(NextHistory(h, keep, steps[0]), keep, steps[1..])
  }

  /**
   * In every run of turns and undos the store keeps the history: the files are the history's
   * files, and the session's checkpoints are its remembered turns, also when retention forgets some.
   */
  lemma {:induction false} RunsKeepHistory(s: State, sessionId: string, keep: nat, steps: seq<Step>, h: History)
    requires AllAdmissible(s, sessionId, keep, steps) && Keeps(s, sessionId, h)
    ensures Keeps(After(s, sessionId, keep, steps), sessionId, AfterHistory(h, keep, steps))
    decreases |steps|
  {
    if steps != [] {
      match steps[0] {
        case Turn(_, _, _, _) => TurnKeeps(s, sessionId, keep, steps[0], h);
        case UndoNewest(now) => UndoKeeps(s, sessionId, keep, now, h);
      }
      RunsKeepHistory(Next(s, sessionId, keep, steps[0]), sessionId, keep, steps[1..], NextHistory(h, keep, steps[0]));
    }
  }

  // ----- The history is a stack

  /** The files before each turn that is not undone, newest first. */
  function LiveBefores(pasts: seq<Past>): seq<Files> {
    if pasts == [] then []
    else if pasts[0].undone then LiveBefores(pasts[1..])
    else [pasts[0].before] + LiveBefores(pasts[1..])
  }

  lemma {:induction false} StepBackPops(pasts: seq<Past>)
    ensures var k := FirstPast(pasts);
            if k == |pasts| then LiveBefores(pasts) == []
            else LiveBefores(pasts) == [pasts[k].before] + LiveBefores(pasts[k := pasts[k].(undone := true)])
    decreases |pasts|
  {
    if pasts != [] {
      var k := FirstPast(pasts);
      if pasts[0].undone {
        StepBackPops(pasts[1..]);
        if k < |pasts| {
          assert pasts[k := pasts[k].(undone := true)][1..] == pasts[1..][k - 1 := pasts[k].(undone := true)];
        }
      } else {
        assert pasts[k := pasts[k].(undone := true)][1..] == pasts[1..];
      }
    }
  }

  /** The files and the plain undo stack of file maps. */
  datatype Stack = Stack(files: Files, befores: seq<Files>)

  ghost function NextStack(t: Stack, step: Step): Stack {
    match step
    case Turn(_, _, _, mutations) =>
      if mutations == [] || !AllEnabled(t.files, mutations) then t
      else Stack(AfterTurn(t.files, mutations), [t.files] + t.befores)
    case UndoNewest(_) => if t.befores == [] then t else Stack(t.befores[0], t.befores[1..])
  }

  ghost function AfterStack(t: Stack, steps: seq<Step>): Stack
    decreases |steps|
  {
    if steps == [] then t else AfterStack(NextStack(t, steps[0]), steps[1..])
  }

  function Turns(steps: seq<Step>): nat {
    if steps == [] then 0 else (if steps[0].Turn? then 1 else 0) + Turns(steps[1..])
  }

  ghost predicate Mirrors(t: Stack, h: History) {
    t.files == h.files && t.befores == LiveBefores(h.pasts)
  }

  lemma StackStep(t: Stack, h: History, keep: nat, step: Step)
    requires Mirrors(t, h) && (step.Turn? ==> |h.pasts| < keep)
    ensures Mirrors(NextStack(t, step), NextHistory(h, keep, step))
    ensures |NextHistory(h, keep, step).pasts| <= |h.pasts| + if step.Turn? then 1 else 0
  {
    match step {
      case Turn(_, _, _, mutations) =>
        var pasts := [Past(h.files, false)] + h.pasts;
        assert pasts[1..] == h.pasts && Remembered(pasts, keep) == pasts;
      case UndoNewest(_) =>
        StepBackPops(h.pasts);
    }
  }

  lemma {:induction false} HistoryIsStack(t: Stack, h: History, keep: nat, steps: seq<Step>)
    requires Mirrors(t, h) && |h.pasts| + Turns(steps) <= keep
    ensures Mirrors(AfterStack(t, steps), AfterHistory(h, keep, steps))
    decreases |steps|
  {
    if steps != [] {
      StackStep(t, h, keep, steps[0]);
      HistoryIsStack(NextStack(t, steps[0]), NextHistory(h, keep, steps[0]), keep, steps[1..]);
    }
  }

  /**
   * Undo is a stack: when a session starts without checkpoints and no more turns are committed
   * than are retained, the files after any run are those of a stack that every turn pushes the
   * files on and every undo pops them from.
   */
  lemma UndoIsAStack(s: State, sessionId: string, keep: nat, steps: seq<Step>)
    requires Distinct(s.dir) && Listed(s.dir, sessionId) == []
    requires AllAdmissible(s, sessionId, keep, steps) && Turns(steps) <= keep
    ensures After(s, sessionId, keep, steps).files == AfterStack(Stack(s.files, []), steps).files
  {
    RunsKeepHistory(s, sessionId, keep, steps, History(s.files, []));
    HistoryIsStack(Stack(s.files, []), History(s.files, []), keep, steps);
  }

  // ----- Several undos in a row

  function Undos(nows: seq<nat>): seq<Step> {
    if nows == [] then [] else [UndoNewest(nows[0])] + Undos(nows[1..])
  }

  lemma StepBackReaches(h: History)
    requires LiveBefores(h.pasts) != []
    ensures StepBack(h).files == LiveBefores(h.pasts)[0] && LiveBefores(StepBack(h).pasts) == LiveBefores(h.pasts)[1..]
  {
    StepBackPops(h.pasts);
  }

  lemma UndosUnfold(h: History, keep: nat, nows: seq<nat>)
    requires nows != []
    ensures AfterHistory(h, keep, Undos(nows)) == AfterHistory(StepBack(h), keep, Undos(nows[1..]))
  {
    assert Undos(nows)[1..] == Undos(nows[1..]);
  }

  lemma {:induction false} UndosReachBack(h: History, keep: nat, nows: seq<nat>)
    requires |nows| <= |LiveBefores(h.pasts)|
    ensures var r := AfterHistory(h, keep, Undos(nows));
            && LiveBefores(r.pasts) == LiveBefores(h.pasts)[|nows|..]
            && r.files == if nows == [] then h.files else LiveBefores(h.pasts)[|nows| - 1]
    decreases |nows|
  {
    if nows != [] {
      var live := LiveBefores(h.pasts);
      StepBackReaches(h);
      UndosUnfold(h, keep, nows);
      UndosReachBack(StepBack(h), keep, nows[1..]);
      assert live[1..][|nows| - 1..] == live[|nows|..];
    }
  }

  /**
   * Whatever the retention limit: after any run, k undos restore the files from before the k-th
   * newest turn that is neither undone nor forgotten.
   */
  lemma UndosAfterRun(s: State, sessionId: string, keep: nat, steps: seq<Step>, nows: seq<nat>)
    requires Distinct(s.dir) && Listed(s.dir, sessionId) == [] && AllAdmissible(s, sessionId, keep, steps)
    requires AllAdmissible(After(s, sessionId, keep, steps), sessionId, keep, Undos(nows))
    requires 0 < |nows| <= |LiveBefores(AfterHistory(History(s.files, []), keep, steps).pasts)|
    ensures After(After(s, sessionId, keep, steps), sessionId, keep, Undos(nows)).files
         == LiveBefores(AfterHistory(History(s.files, []), keep, steps).pasts)[|nows| - 1]
  {
    var h := AfterHistory(History(s.files, []), keep, steps);
    RunsKeepHistory(s, sessionId, keep, steps, History(s.files, []));
    RunsKeepHistory(After(s, sessionId, keep, steps), sessionId, keep, Undos(nows), h);
    UndosReachBack(h, keep, nows);
  }

  // ----- A turn that undo cannot get past

  /** Undoing the entries restores nothing, or throws. */
  predicate Fruitless(files: Files, entries: seq<Entry>) {
    var r := UndoTurn(files, entries);
    r.thrown.Some? || r.restored == []
  }

  /** It is fruitless, and on the files it leaves it is so again and changes nothing. */
  predicate Repeats(files: Files, entries: seq<Entry>) {
    var left := UndoTurn(files, entries).files;
    Fruitless(files, entries) && Fruitless(left, entries) && UndoTurn(left, entries).files == left
  }

  ghost predicate Stuck(s: State, sessionId: string) {
    var list := Listed(s.dir, sessionId);
    FirstLive(list) < |list| && Repeats(s.files, list[FirstLive(list)].entries)
  }

  /** Such an undo marks nothing, the next one ends in the same way, and from then on nothing changes. */
  lemma StuckStays(s: State, sessionId: string, keep: nat, now: nat, later: nat)
    requires Stuck(s, sessionId) && now > 0 && later > 0
    ensures var t := Next(s, sessionId, keep, UndoNewest(now));
            t.dir == s.dir && Stuck(t, sessionId) && Next(t, sessionId, keep, UndoNewest(later)) == t
  {
  }

  lemma {:induction false} StuckForever(s: State, sessionId: string, keep: nat, nows: seq<nat>)
    requires Stuck(s, sessionId) && forall i :: 0 <= i < |nows| ==> nows[i] > 0
    ensures AllAdmissible(s, sessionId, keep, Undos(nows)) && After(s, sessionId, keep, Undos(nows)).dir == s.dir
    decreases |nows|
  {
    if nows != [] {
      StuckStays(s, sessionId, keep, nows[0], nows[0]);
      assert Undos(nows)[1..] == Undos(nows[1..]) && Undos(nows)[0] == UndoNewest(nows[0]);
      StuckForever(Next(s, sessionId, keep, UndoNewest(nows[0])), sessionId, keep, nows[1..]);
    }
  }

  /** Records that share no path: once fruitless, undoing them stays so. */
  lemma ApartRepeats(rs: seq<Record>, files: Files)
    requires Apart(rs) && AllFit(rs) && Fruitless(files, Entries(rs))
    ensures Repeats(files, Entries(rs))
  {
    UndoApart(rs, files);
    BlockedAgain(rs, files);
    BlockedAgain(rs, UndoTurn(files, Entries(rs)).files);
    SecondUndoHarmless(rs, files);
  }

  /** The store after a turn is committed that undo may not be able to take back. */
  ghost function CommittedTurn(s: State, sessionId: string, keep: nat, step: Step): State
    requires step.Turn? && AllEnabled(s.files, step.mutations)
  {
    State(AfterTurn(s.files, step.mutations), Committed(s.dir, TurnOf(s, sessionId, step), keep))
  }

  /** The turn's id is new in its session, and its time later than all others there. */
  predicate NewestTurn(s: State, sessionId: string, step: Step)
    requires step.Turn?
  {
    forall i :: 0 <= i < |s.dir| && s.dir[i].sessionId == sessionId ==>
      s.dir[i].turnId != step.turnId && s.dir[i].createdAt < step.createdAt
  }

  lemma CommittedIsNewest(s: State, sessionId: string, keep: nat, step: Step)
    requires step.Turn? && AllEnabled(s.files, step.mutations) && step.mutations != [] && keep >= 1
    requires Distinct(s.dir) && NewestTurn(s, sessionId, step)
    ensures var list := Listed(CommittedTurn(s, sessionId, keep, step).dir, sessionId);
            list != [] && list[0] == TurnOf(s, sessionId, step)
  {
    var c := TurnOf(s, sessionId, step);
    EntriesGrow(s.files, step.mutations, []);
    SavedComesFirst(s.dir, c);
    PruneKeepsNewest(Saved(s.dir, c), keep, sessionId);
  }

  /** Undo changes no file, or no two records share a path. */
  ghost predicate NoProgress(files: Files, ms: seq<Mutation>)
    requires AllEnabled(files, ms)
  {
    var now, rs := AfterTurn(files, ms), TurnRecords(files, ms);
    UndoTurn(now, EntriesOfTurn(files, ms, [])).files == now || (Apart(rs) && AllFit(rs))
  }

  lemma FruitlessRepeats(files: Files, ms: seq<Mutation>)
    requires AllEnabled(files, ms) && NoProgress(files, ms)
    requires Fruitless(AfterTurn(files, ms), EntriesOfTurn(files, ms, []))
    ensures Repeats(AfterTurn(files, ms), EntriesOfTurn(files, ms, []))
  {
    if UndoTurn(AfterTurn(files, ms), EntriesOfTurn(files, ms, [])).files != AfterTurn(files, ms) {
      EntriesOfRecords(files, ms);
      ApartRepeats(TurnRecords(files, ms), AfterTurn(files, ms));
    }
  }

  /**
   * A turn whose undo throws or restores nothing blocks the session, if no two of its records share a path
   * or that undo changes no file: however often undo is called afterwards, it does so again, the turn's
   * checkpoint stays the newest live one, and no older turn is ever reached.
   */
  lemma UnundoableTurnBlocks(s: State, sessionId: string, keep: nat, step: Step, nows: seq<nat>)
    requires step.Turn? && AllEnabled(s.files, step.mutations) && step.mutations != [] && keep >= 1
    requires Distinct(s.dir) && NewestTurn(s, sessionId, step) && NoProgress(s.files, step.mutations)
    requires Fruitless(AfterTurn(s.files, step.mutations), EntriesOfTurn(s.files, step.mutations, []))
    requires forall i :: 0 <= i < |nows| ==> nows[i] > 0
    ensures var t := CommittedTurn(s, sessionId, keep, step);
            && AllAdmissible(t, sessionId, keep, Undos(nows)) && After(t, sessionId, keep, Undos(nows)).dir == t.dir
            && Listed(t.dir, sessionId) != [] && Listed(t.dir, sessionId)[0] == TurnOf(s, sessionId, step)
  {
    CommittedIsNewest(s, sessionId, keep, step);
    FruitlessRepeats(s.files, step.mutations);
    StuckForever(CommittedTurn(s, sessionId, keep, step), sessionId, keep, nows);
  }
}
