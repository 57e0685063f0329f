/** How undoing the records of a turn ends, any records, on files that may have become anything. */
module UndoRecords {
  import opened Text
  import opened LineModel
  import opened Checkpoints

  /** A mutation with the files it found. */
  datatype Found = Found(files: Files, m: Mutation)

  type Record = r: Found | Enabled(r.files, r.m) witness Found(map[], Write("", ""))

  ghost function EntryFor(r: Record): Entry {
    EntryOf(r.files, r.m)
  }

  ghost function Entries(rs: seq<Record>): (entries: seq<Entry>)
    ensures |entries| == |rs|
  {
    if rs == [] then [] else Entries(rs[..|rs| - 1]) + [EntryFor(rs[|rs| - 1])]
  }

  lemma EntriesSnoc(rs: seq<Record>, r: Record)
    ensures Entries(rs + [r]) == Entries(rs) + [EntryFor(r)]
  {
    assert (rs + [r])[..|rs|] == rs;
  }

  lemma {:induction false} EntriesAt(rs: seq<Record>, i: nat)
    requires i < |rs|
    ensures Entries(rs)[i] == EntryFor(rs[i])
    decreases |rs|
  {
    if i < |rs| - 1 {
      EntriesAt(rs[..|rs| - 1], i);
    }
  }

  predicate AllFit(rs: seq<Record>) {
    forall i :: 0 <= i < |rs| ==> PathFits(rs[i].files, rs[i].m)
  }

  // ----- One record

  ghost predicate ThrowsOn(r: Record, now: Files) {
    Throws(r.files, r.m, now)
  }

  ghost predicate TakenBackOn(r: Record, now: Files) {
    TakesBack(r.files, r.m, now)
  }

  /** What undoing the record leaves of the files, unless it throws. */
  function LeftBehind(r: Record, now: Files): Files {
    if !Intact(r.files, r.m, now) then now
    else if Replaces(r.files, r.m) && !MarkerFree(r.files[r.m.path]) then
      now[r.m.path := Unkey(KeyLines(r.files[r.m.path]))]
    else FilesBack(r.files, r.m, now)
  }

  /** What is reported of a record: that its path was restored, or the reason for a refusal. */
  datatype Report = Report(path: string, taken: bool, reason: Reason)

  ghost function ReportOf(r: Record, now: Files): Report {
    Report(RecordedPath(r.m), TakenBackOn(r, now), Objection(r.files, r.m, now))
  }

  function PathIfTaken(report: Report): seq<string> {
    if report.taken then [report.path] else []
  }

  function RefusalIfNot(report: Report): seq<Conflict> {
    if report.taken then [] else [Conflict(report.path, report.reason)]
  }

  ghost function UndoneBy(r: Record, s: Undoing): Undoing {
    var report := ReportOf(r, s.files);
    Undoing(LeftBehind(r, s.files), s.restored + PathIfTaken(report), s.conflicts + RefusalIfNot(report), s.thrown)
  }

  lemma UndoRecord(r: Record, s: Undoing)
    requires PathFits(r.files, r.m)
    ensures var t := UndoEntry(s, EntryFor(r));
            if ThrowsOn(r, s.files) then t.thrown.Some? && t == s.(thrown := t.thrown) else t == UndoneBy(r, s)
  {
    UndoEntryExactly(r.files, r.m, s);
  }

  // ----- All of them, the last one first

  /** The files once rs[k..] are undone. */
  function Rewound(rs: seq<Record>, k: nat, now: Files): Files
    requires k <= |rs|
    decreases |rs| - k
  {
    if k == |rs| then now else LeftBehind(rs[k], Rewound(rs, k + 1, now))
  }

  /** The record throws when its turn has come. */
  ghost predicate ThrowsAt(rs: seq<Record>, i: nat, now: Files)
    requires i < |rs|
  {
    ThrowsOn(rs[i], Rewound(rs, i + 1, now))
  }

  ghost predicate TakenAt(rs: seq<Record>, i: nat, now: Files)
    requires i < |rs|
  {
    TakenBackOn(rs[i], Rewound(rs, i + 1, now))
  }

  /** The reports of rs[k..], in the order of undoing. */
  ghost function Reports(rs: seq<Record>, k: nat, now: Files): (reports: seq<Report>)
    requires k <= |rs|
    ensures |reports| == |rs| - k
    decreases |rs| - k
  {
    if k == |rs| then [] else Reports(rs, k + 1, now) + [ReportOf(rs[k], Rewound(rs, k + 1, now))]
  }

  function PathsTaken(reports: seq<Report>): seq<string> {
    if reports == [] then []
    else PathsTaken(reports[..|reports| - 1]) + PathIfTaken(reports[|reports| - 1])
  }

  function Refusals(reports: seq<Report>): seq<Conflict> {
    if reports == [] then []
    else Refusals(reports[..|reports| - 1]) + RefusalIfNot(reports[|reports| - 1])
  }

  lemma ReportsSnoc(reports: seq<Report>, report: Report)
    ensures PathsTaken(reports + [report]) == PathsTaken(reports) + PathIfTaken(report)
    ensures Refusals(reports + [report]) == Refusals(reports) + RefusalIfNot(report)
  {
    assert (reports + [report])[..|reports|] == reports;
  }

  lemma {:induction false} EveryReportCounts(reports: seq<Report>, j: nat)
    requires j < |reports|
    ensures if reports[j].taken then PathsTaken(reports) != [] else Refusals(reports) != []
    decreases |reports|
  {
    if j < |reports| - 1 {
      EveryReportCounts(reports[..|reports| - 1], j);
    }
  }

  lemma {:induction false} SomeRefused(reports: seq<Report>) returns (j: nat)
    requires Refusals(reports) != []
    ensures j < |reports| && !reports[j].taken
    decreases |reports|
  {
    j := |reports| - 1;
    if reports[j].taken {
      j := SomeRefused(reports[..j]);
    }
  }

  lemma {:induction false} SomeTaken(reports: seq<Report>) returns (j: nat)
    requires PathsTaken(reports) != []
    ensures j < |reports| && reports[j].taken
    decreases |reports|
  {
    j := |reports| - 1;
    if !reports[j].taken {
      j := SomeTaken(reports[..j]);
    }
  }

  lemma {:induction false} ReportAt(rs: seq<Record>, k: nat, i: nat, now: Files)
    requires k <= i < |rs|
    ensures Reports(rs, k, now)[|rs| - 1 - i] == ReportOf(rs[i], Rewound(rs, i + 1, now))
    decreases i - k
  {
    if k < i {
      ReportAt(rs, k + 1, i, now);
    }
  }

  /** The result of undoing rs[k..] without an error. */
  ghost function Retraced(rs: seq<Record>, k: nat, now: Files): Undoing
    requires k <= |rs|
  {
    Undoing(Rewound(rs, k, now), PathsTaken(Reports(rs, k, now)), Refusals(Reports(rs, k, now)), None)
  }

  ghost predicate NoneThrows(rs: seq<Record>, k: nat, now: Files)
    requires k <= |rs|
  {
    forall i :: k <= i < |rs| ==> !ThrowsAt(rs, i, now)
  }

  /** Undoing rs[k..] goes well down to rs[j..] and there ends with an error, unless it went all the way. */
  ghost predicate RetracedTo(rs: seq<Record>, k: nat, now: Files, r: Undoing, j: nat)
    requires k <= j <= |rs|
  {
    && r == Retraced(rs, j, now).(thrown := r.thrown) && NoneThrows(rs, j, now)
    && (if j == k then r.thrown == None else r.thrown.Some? && ThrowsAt(rs, j - 1, now))
  }

  lemma RetracedStep(rs: seq<Record>, k: nat, now: Files)
    requires k < |rs|
    ensures UndoneBy(rs[k], Retraced(rs, k + 1, now)) == Retraced(rs, k, now)
  {
    ReportsSnoc(Reports(rs, k + 1, now), ReportOf(rs[k], Rewound(rs, k + 1, now)));
  }

  lemma UndoOneDown(rs: seq<Record>, k: nat, s: Undoing, s1: Undoing)
    requires k < |rs| && s1 == UndoEntries(s, Entries(rs), |rs|, k + 1)
    ensures UndoEntries(s, Entries(rs), |rs|, k) == if Threw(s1) then s1 else UndoEntry(s1, EntryFor(rs[k]))
  {
    EntriesAt(rs, k);
    FoldOneDown(UndoEntry, Threw, s, Entries(rs), |rs|, k);
  }

  lemma OneDown(rs: seq<Record>, k: nat, now: Files, s: Undoing)
    requires k < |rs| && PathFits(rs[k].files, rs[k].m) && RetracedTo(rs, k + 1, now, s, k + 1)
    ensures RetracedTo(rs, k, now, UndoEntry(s, EntryFor(rs[k])), if ThrowsAt(rs, k, now) then k + 1 else k)
  {
    UndoRecord(rs[k], s);
    if !ThrowsAt(rs, k, now) {
      RetracedStep(rs, k, now);
    }
  }

  lemma StillEnded(rs: seq<Record>, k: nat, now: Files, s: Undoing, j: nat)
    requires k + 1 < j <= |rs| && RetracedTo(rs, k + 1, now, s, j)
    ensures Threw(s) && RetracedTo(rs, k, now, s, j)
  {
  }

  /** Where undoing the records ends, and how. */
  lemma {:induction false} RetraceRecords(rs: seq<Record>, k: nat, now: Files) returns (j: nat)
    requires k <= |rs| && AllFit(rs)
    ensures k <= j <= |rs| && RetracedTo(rs, k, now, UndoEntries(Start(now), Entries(rs), |rs|, k), j)
    decreases |rs| - k
  {
    if k == |rs| {
      j := k;
    } else {
      j := RetraceRecords(rs, k + 1, now);
      var s := UndoEntries(Start(now), Entries(rs), |rs|, k + 1);
      UndoOneDown(rs, k, Start(now), s);
      if j > k + 1 {
        StillEnded(rs, k, now, s, j);
      } else {
        OneDown(rs, k, now, s);
        j := if ThrowsAt(rs, k, now) then k + 1 else k;
      }
    }
  }

  /** Every record is taken back when its turn comes. */
  ghost predicate AllTakenInTurn(rs: seq<Record>, now: Files) {
    forall i :: 0 <= i < |rs| ==> TakenAt(rs, i, now)
  }

  ghost predicate NoneTakenInTurn(rs: seq<Record>, now: Files) {
    forall i :: 0 <= i < |rs| ==> !TakenAt(rs, i, now)
  }

  lemma TakenReported(rs: seq<Record>, i: nat, now: Files)
    requires i < |rs|
    ensures if TakenAt(rs, i, now) then PathsTaken(Reports(rs, 0, now)) != [] else Refusals(Reports(rs, 0, now)) != []
  {
    ReportAt(rs, 0, i, now);
    EveryReportCounts(Reports(rs, 0, now), |rs| - 1 - i);
  }

  lemma WhoseRefusal(rs: seq<Record>, now: Files) returns (i: nat)
    requires Refusals(Reports(rs, 0, now)) != []
    ensures i < |rs| && !TakenAt(rs, i, now)
  {
    var j := SomeRefused(Reports(rs, 0, now));
    i := |rs| - 1 - j;
    ReportAt(rs, 0, i, now);
  }

  lemma WhosePath(rs: seq<Record>, now: Files) returns (i: nat)
    requires PathsTaken(Reports(rs, 0, now)) != []
    ensures i < |rs| && TakenAt(rs, i, now)
  {
    var j := SomeTaken(Reports(rs, 0, now));
    i := |rs| - 1 - j;
    ReportAt(rs, 0, i, now);
  }

  lemma AllReportedTaken(rs: seq<Record>, now: Files)
    ensures Refusals(Reports(rs, 0, now)) == [] <==> AllTakenInTurn(rs, now)
  {
    if Refusals(Reports(rs, 0, now)) == [] {
      forall i: nat | i < |rs| ensures TakenAt(rs, i, now) {
        TakenReported(rs, i, now);
      }
    } else {
      var i := WhoseRefusal(rs, now);
    }
  }

  lemma NoneReportedTaken(rs: seq<Record>, now: Files)
    ensures PathsTaken(Reports(rs, 0, now)) == [] <==> NoneTakenInTurn(rs, now)
  {
    if PathsTaken(Reports(rs, 0, now)) == [] {
      forall i: nat | i < |rs| ensures !TakenAt(rs, i, now) {
        TakenReported(rs, i, now);
      }
    } else {
      var i := WhosePath(rs, now);
    }
  }

  lemma TakenNoThrow(rs: seq<Record>, now: Files, j: nat)
    requires 0 < j <= |rs| && AllTakenInTurn(rs, now)
    ensures !ThrowsAt(rs, j - 1, now)
  {
    assert TakenAt(rs, j - 1, now);
  }

  /** Undo refuses and throws nothing exactly if every record is taken back when its turn comes. */
  lemma CleanExactly(rs: seq<Record>, now: Files)
    requires AllFit(rs)
    ensures var r := UndoTurn(now, Entries(rs));
            && (Clean(r) <==> AllTakenInTurn(rs, now))
            && (Clean(r) ==> r.files == Rewound(rs, 0, now))
  {
    var j := RetraceRecords(rs, 0, now);
    AllReportedTaken(rs, now);
    if AllTakenInTurn(rs, now) && j > 0 {
      TakenNoThrow(rs, now, j);
    }
  }

  // ----- Frames

  predicate Same(a: Files, b: Files, path: string) {
    (path in a <==> path in b) && (path in a ==> a[path] == b[path])
  }

  predicate Agree(a: Files, b: Files, paths: set<string>) {
    forall path :: path in paths ==> Same(a, b, path)
  }

  function Touched(m: Mutation): set<string> {
    match m
    case Write(path, _) => {path}
    case Remove(path) => {path}
    case Move(from, to) => {from, to}
  }

  lemma SameEverywhere(a: Files, b: Files)
    requires forall path :: Same(a, b, path)
    ensures a == b
  {
    assert forall path :: path in a ==> Same(a, b, path);
    assert forall path :: path in b ==> Same(a, b, path);
  }

  lemma AgreeOver(a: Files, b: Files, c: Files, paths: set<string>)
    requires Agree(a, b, paths) && Agree(b, c, paths)
    ensures Agree(a, c, paths)
  {
    forall path | path in paths ensures Same(a, c, path) {
      assert Same(a, b, path) && Same(b, c, path);
    }
  }

  lemma SameVerdict(r: Record, a: Files, b: Files)
    requires Agree(a, b, Touched(r.m))
    ensures Intact(r.files, r.m, a) <==> Intact(r.files, r.m, b)
    ensures Agree(LeftBehind(r, a), LeftBehind(r, b), Touched(r.m))
  {
    match r.m {
      case Write(path, _) => assert Same(a, b, path);
      case Remove(path) => assert Same(a, b, path);
      case Move(from, to) => assert Same(a, b, from) && Same(a, b, to);
    }
  }

  lemma LeftAlone(r: Record, now: Files, path: string)
    requires path !in Touched(r.m)
    ensures Same(LeftBehind(r, now), now, path)
  {
  }

  /** No record from rs[k..] on is about the path. */
  predicate Unnamed(rs: seq<Record>, k: nat, path: string) {
    forall i :: k <= i < |rs| ==> path !in Touched(rs[i].m)
  }

  lemma {:induction false} RewoundAlone(rs: seq<Record>, k: nat, now: Files, path: string)
    requires k <= |rs| && Unnamed(rs, k, path)
    ensures Same(Rewound(rs, k, now), now, path)
    decreases |rs| - k
  {
    if k < |rs| {
      RewoundAlone(rs, k + 1, now, path);
      LeftAlone(rs[k], Rewound(rs, k + 1, now), path);
    }
  }

  /** Records before rs[i] that are not about the path leave it as undoing rs[i] left it. */
  lemma {:induction false} RewoundSince(rs: seq<Record>, k: nat, i: nat, now: Files, path: string)
    requires k <= i <= |rs| && forall j :: k <= j < i ==> path !in Touched(rs[j].m)
    ensures Same(Rewound(rs, k, now), Rewound(rs, i, now), path)
    decreases i - k
  {
    if k < i {
      RewoundSince(rs, k + 1, i, now, path);
      LeftAlone(rs[k], Rewound(rs, k + 1, now), path);
    }
  }

  // ----- Records that share no path

  predicate Apart(rs: seq<Record>) {
    forall i, j :: 0 <= i < j < |rs| ==> Touched(rs[i].m) !! Touched(rs[j].m)
  }

  lemma ApartFromLater(rs: seq<Record>, i: nat, path: string)
    requires i < |rs| && Apart(rs) && path in Touched(rs[i].m)
    ensures Unnamed(rs, i + 1, path)
    ensures forall j :: 0 <= j < i ==> path !in Touched(rs[j].m)
  {
    forall j | i + 1 <= j < |rs| ensures path !in Touched(rs[j].m) {
      assert Touched(rs[i].m) !! Touched(rs[j].m);
    }
  }

  /** When its turn comes, each record finds its paths as they were when undo was called. */
  lemma FindsAsNow(rs: seq<Record>, i: nat, now: Files)
    requires i < |rs| && Apart(rs)
    ensures Agree(Rewound(rs, i + 1, now), now, Touched(rs[i].m))
    ensures ThrowsAt(rs, i, now) <==> ThrowsOn(rs[i], now)
    ensures TakenAt(rs, i, now) <==> TakenBackOn(rs[i], now)
  {
    forall path | path in Touched(rs[i].m) ensures Same(Rewound(rs, i + 1, now), now, path) {
      ApartFromLater(rs, i, path);
      RewoundAlone(rs, i + 1, now, path);
    }
    SameVerdict(rs[i], Rewound(rs, i + 1, now), now);
  }

  /** And no other record changes what undoing it leaves there. */
  lemma EndsAsAlone(rs: seq<Record>, k: nat, i: nat, now: Files)
    requires k <= i < |rs| && Apart(rs)
    ensures Agree(Rewound(rs, k, now), LeftBehind(rs[i], now), Touched(rs[i].m))
  {
    FindsAsNow(rs, i, now);
    SameVerdict(rs[i], Rewound(rs, i + 1, now), now);
    forall path | path in Touched(rs[i].m) ensures Same(Rewound(rs, k, now), Rewound(rs, i, now), path) {
      ApartFromLater(rs, i, path);
      RewoundSince(rs, k, i, now, path);
    }
    AgreeOver(Rewound(rs, k, now), Rewound(rs, i, now), LeftBehind(rs[i], now), Touched(rs[i].m));
  }

  ghost predicate SomeThrows(rs: seq<Record>, now: Files) {
    exists i :: 0 <= i < |rs| && ThrowsOn(rs[i], now)
  }

  ghost predicate AllTakenBack(rs: seq<Record>, now: Files) {
    forall i :: 0 <= i < |rs| ==> TakenBackOn(rs[i], now)
  }

  ghost predicate NoneTakenBack(rs: seq<Record>, now: Files) {
    forall i :: 0 <= i < |rs| ==> !TakenBackOn(rs[i], now)
  }

  /** Undo ended without an error: every record came to what it would have come to alone. */
  ghost predicate EndedWell(rs: seq<Record>, now: Files, r: Undoing) {
    && r.thrown == None
    && (r.conflicts == [] <==> AllTakenBack(rs, now)) && (r.restored == [] <==> NoneTakenBack(rs, now))
    && (forall i :: 0 <= i < |rs| ==> Agree(r.files, LeftBehind(rs[i], now), Touched(rs[i].m)))
    && (forall path :: Unnamed(rs, 0, path) ==> Same(r.files, now, path))
  }

  /** It ended with an error, at a record whose paths are as they were. */
  ghost predicate EndedAt(rs: seq<Record>, now: Files, r: Undoing, i: nat) {
    i < |rs| && r.thrown.Some? && ThrowsOn(rs[i], now) && Agree(r.files, now, Touched(rs[i].m))
  }

  ghost predicate EndsExactly(rs: seq<Record>, now: Files, r: Undoing) {
    if SomeThrows(rs, now) then exists i :: EndedAt(rs, now, r, i) else EndedWell(rs, now, r)
  }

  lemma TakenAsNow(rs: seq<Record>, now: Files)
    requires Apart(rs)
    ensures AllTakenInTurn(rs, now) <==> AllTakenBack(rs, now)
    ensures NoneTakenInTurn(rs, now) <==> NoneTakenBack(rs, now)
    ensures NoneThrows(rs, 0, now) <==> !SomeThrows(rs, now)
  {
    forall i | 0 <= i < |rs|
      ensures (ThrowsAt(rs, i, now) <==> ThrowsOn(rs[i], now)) && (TakenAt(rs, i, now) <==> TakenBackOn(rs[i], now))
    {
      FindsAsNow(rs, i, now);
    }
  }

  lemma RetracedWell(rs: seq<Record>, now: Files)
    requires Apart(rs)
    ensures EndedWell(rs, now, Retraced(rs, 0, now))
  {
    AllReportedTaken(rs, now);
    NoneReportedTaken(rs, now);
    TakenAsNow(rs, now);
    forall i | 0 <= i < |rs| ensures Agree(Rewound(rs, 0, now), LeftBehind(rs[i], now), Touched(rs[i].m)) {
      EndsAsAlone(rs, 0, i, now);
    }
    forall path | Unnamed(rs, 0, path) ensures Same(Rewound(rs, 0, now), now, path) {
      RewoundAlone(rs, 0, now, path);
    }
  }

  lemma RetracedFails(rs: seq<Record>, now: Files, r: Undoing, j: nat)
    requires 0 < j <= |rs| && Apart(rs) && RetracedTo(rs, 0, now, r, j)
    ensures EndedAt(rs, now, r, j - 1)
  {
    FindsAsNow(rs, j - 1, now);
  }

  lemma RetracedApart(rs: seq<Record>, now: Files, r: Undoing, j: nat)
    requires j <= |rs| && Apart(rs) && RetracedTo(rs, 0, now, r, j)
    ensures EndsExactly(rs, now, r) && (r.thrown.Some? <==> SomeThrows(rs, now))
  {
    TakenAsNow(rs, now);
    if j == 0 {
      RetracedWell(rs, now);
    } else {
      RetracedFails(rs, now, r, j);
    }
  }

  /**
   * Records that share no path, undone on any files: undo throws exactly if one of them would throw
   * alone, and it stops at such a one; otherwise each path ends as undoing its own record alone would
   * leave it, and nothing is refused, or nothing restored, exactly if that is so for each alone.
   */
  lemma UndoApart(rs: seq<Record>, now: Files)
    requires Apart(rs) && AllFit(rs)
    ensures EndsExactly(rs, now, UndoTurn(now, Entries(rs)))
    ensures UndoTurn(now, Entries(rs)).thrown.Some? <==> SomeThrows(rs, now)
  {
    var j := RetraceRecords(rs, 0, now);
    RetracedApart(rs, now, UndoTurn(now, Entries(rs)), j);
  }

  // ----- Undoing the same records again

  /** Nothing comes of undoing the records, or an error does. */
  ghost predicate Blocked(rs: seq<Record>, now: Files) {
    SomeThrows(rs, now) || NoneTakenBack(rs, now)
  }

  /** A record that is not taken back stays so after it is undone. */
  lemma StaysRefused(r: Record, now: Files)
    requires !TakenBackOn(r, now)
    ensures !TakenBackOn(r, LeftBehind(r, now))
  {
  }

  lemma StaysQuiet(r: Record, now: Files)
    requires !ThrowsOn(r, now) && !TakenBackOn(r, now)
    ensures !ThrowsOn(r, LeftBehind(r, now))
  {
  }

  lemma BlockedAgain(rs: seq<Record>, now: Files)
    requires Apart(rs) && AllFit(rs) && Blocked(rs, now)
    ensures var r := UndoTurn(now, Entries(rs));
            (r.thrown.Some? || r.restored == []) && Blocked(rs, r.files)
  {
    var r := UndoTurn(now, Entries(rs));
    UndoApart(rs, now);
    if SomeThrows(rs, now) {
      var i: nat :| EndedAt(rs, now, r, i);
      SameVerdict(rs[i], r.files, now);
      assert ThrowsOn(rs[i], r.files);
    } else {
      forall i | 0 <= i < |rs| ensures !TakenBackOn(rs[i], r.files) {
        StaysRefused(rs[i], now);
        SameVerdict(rs[i], r.files, LeftBehind(rs[i], now));
      }
    }
  }

  /** Undoing a record a second time changes nothing. */
  lemma UndoneOnlyOnce(r: Record, now: Files)
    requires !ThrowsOn(r, now)
    ensures !ThrowsOn(r, LeftBehind(r, now)) && LeftBehind(r, LeftBehind(r, now)) == LeftBehind(r, now)
  {
  }

  /** What undoing rs[k..] left of a record's paths, undoing it again would leave too. */
  lemma SettledRecord(rs: seq<Record>, k: nat, i: nat, now: Files)
    requires k <= i < |rs| && Apart(rs) && !ThrowsAt(rs, i, now)
    ensures var w := Rewound(rs, k, now);
            !ThrowsOn(rs[i], w) && Agree(LeftBehind(rs[i], w), w, Touched(rs[i].m))
  {
    var w, left := Rewound(rs, k, now), LeftBehind(rs[i], now);
    FindsAsNow(rs, i, now);
    EndsAsAlone(rs, k, i, now);
    UndoneOnlyOnce(rs[i], now);
    SameVerdict(rs[i], w, left);
    AgreeOver(LeftBehind(rs[i], w), left, w, Touched(rs[i].m));
  }

  lemma RewoundTwice(rs: seq<Record>, k: nat, now: Files)
    requires k <= |rs| && Apart(rs) && NoneThrows(rs, k, now)
    ensures var w := Rewound(rs, k, now); NoneThrows(rs, k, w) && Rewound(rs, k, w) == w
  {
    var w := Rewound(rs, k, now);
    forall i | k <= i < |rs| ensures !ThrowsAt(rs, i, w) {
      SettledRecord(rs, k, i, now);
      FindsAsNow(rs, i, w);
    }
    forall path ensures Same(Rewound(rs, k, w), w, path) {
      if i :| k <= i < |rs| && path in Touched(rs[i].m) {
        SettledRecord(rs, k, i, now);
        EndsAsAlone(rs, k, i, w);
        AgreeOver(Rewound(rs, k, w), LeftBehind(rs[i], w), w, Touched(rs[i].m));
      } else {
        RewoundAlone(rs, k, w, path);
      }
    }
    SameEverywhere(Rewound(rs, k, w), w);
  }

  lemma ThrowsThereAgain(rs: seq<Record>, now: Files, r: Undoing, j: nat)
    requires 0 < j <= |rs| && RetracedTo(rs, 0, now, r, j) && Rewound(rs, j, r.files) == r.files
    ensures ThrowsAt(rs, j - 1, r.files)
  {
  }

  lemma SameStop(rs: seq<Record>, now: Files, r: Undoing, j: nat, again: Undoing, j1: nat)
    requires j <= |rs| && j1 <= |rs| && RetracedTo(rs, 0, now, r, j) && RetracedTo(rs, 0, r.files, again, j1)
    requires NoneThrows(rs, j, r.files) && Rewound(rs, j, r.files) == r.files
    ensures j1 == j
  {
    if j > 0 {
      ThrowsThereAgain(rs, now, r, j);
    }
  }

  /** Undoing the same records a second time leaves all files as the first undo left them, even one that threw. */
  lemma SecondUndoHarmless(rs: seq<Record>, now: Files)
    requires Apart(rs) && AllFit(rs)
    ensures var r := UndoTurn(now, Entries(rs));
            var again := UndoTurn(r.files, Entries(rs));
            again.files == r.files && (again.thrown.Some? <==> r.thrown.Some?)
  {
    var r := UndoTurn(now, Entries(rs));
    var j := RetraceRecords(rs, 0, now);
    var j1 := RetraceRecords(rs, 0, r.files);
    RewoundTwice(rs, j, now);
    SameStop(rs, now, r, j, UndoTurn(r.files, Entries(rs)), j1);
  }
}
