/** The parser accepts exactly the texts that are made of files and of lines it drops. */
module PatchGrammar {
  import opened Text
  import opened EditScript
  import opened Hunks
  import opened PatchText
  import opened PatchParse

  // ----- A body is determined by its text

  lemma LineTextShape(line: HunkLine)
    ensures LineText(line)[0] != "" && LineText(line)[0] != NO_NL
    ensures LineText(line)[|LineText(line)| - 1] == NO_NL <==> line.noNewline
  {
    assert LineText(line)[0] == Prefix(line.kind) + line.text;
    assert (Prefix(line.kind) + line.text)[0] != NO_NL[0];
  }

  lemma SameLine(a: HunkLine, b: HunkLine)
    requires LineText(a)[0] == LineText(b)[0] && a.noNewline == b.noNewline
    ensures a == b
  {
    assert Prefix(a.kind) + a.text == Prefix(b.kind) + b.text;
    assert (Prefix(a.kind) + a.text)[0] == (Prefix(b.kind) + b.text)[0];
    assert (Prefix(a.kind) + a.text)[1..] == a.text && (Prefix(b.kind) + b.text)[1..] == b.text;
  }

  lemma SameEnds<T>(a: seq<T>, x: seq<T>, b: seq<T>, y: seq<T>)
    requires a + x == b + y && |x| == |y|
    ensures a == b && x == y
  {
    assert (a + x)[..|a|] == a && (a + x)[|a|..] == x;
    assert (b + y)[..|b|] == b && (b + y)[|b|..] == y;
  }

  lemma LastLineSame(a: seq<HunkLine>, la: HunkLine, b: seq<HunkLine>, lb: HunkLine)
    requires BodyText(a + [la]) == BodyText(b + [lb])
    ensures la == lb && BodyText(a) == BodyText(b)
  {
    BodyTextSnoc(a, la);
    BodyTextSnoc(b, lb);
    LineTextShape(la);
    LineTextShape(lb);
    var text := BodyText(a) + LineText(la);
    assert text[|text| - 1] == LineText(la)[|LineText(la)| - 1] == LineText(lb)[|LineText(lb)| - 1];
    SameEnds(BodyText(a), LineText(la), BodyText(b), LineText(lb));
    SameLine(la, lb);
  }

  lemma {:induction false} BodyTextInjective(a: seq<HunkLine>, b: seq<HunkLine>)
    requires BodyText(a) == BodyText(b)
    ensures a == b
    decreases |a|
  {
    if a != [] && b != [] {
      LastSplit(a);
      LastSplit(b);
      LastLineSame(a[..|a| - 1], a[|a| - 1], b[..|b| - 1], b[|b| - 1]);
      BodyTextInjective(a[..|a| - 1], b[..|b| - 1]);
    } else if a != [] {
      BodyTextSome(a);
    } else if b != [] {
      BodyTextSome(b);
    }
  }

  lemma BodyTextSome(lines: seq<HunkLine>)
    requires lines != []
    ensures BodyText(lines) != [] && BodyText(lines)[0] != NO_NL
  {
    assert LineTexts(lines)[0] == LineText(lines[0]);
    LineTextShape(lines[0]);
  }

  // ----- What a line of a body looks like, and which sides it counts on

  predicate Carries(line: string, marker: char) {
    line != "" && (line[0] == ' ' || line[0] == marker)
  }

  lemma LineCarries(line: HunkLine)
    ensures Carries(Prefix(line.kind) + line.text, '-') <==> line.kind != Insert
    ensures Carries(Prefix(line.kind) + line.text, '+') <==> line.kind != Delete
  {
    assert (Prefix(line.kind) + line.text)[0] == Prefix(line.kind)[0];
  }

  lemma {:induction false} BodyTextMarked(lines: seq<HunkLine>, text: string)
    requires text in BodyText(lines)
    ensures text == NO_NL || (Carries(text, '-') || Carries(text, '+'))
    decreases |lines|
  {
    if lines != [] {
      var init, last := lines[..|lines| - 1], lines[|lines| - 1];
      LastSplit(lines);
      BodyTextSnoc(init, last);
      if text in BodyText(init) {
        BodyTextMarked(init, text);
      } else if text != NO_NL {
        LineCarries(last);
        assert text == Prefix(last.kind) + last.text;
      }
    }
  }

  /** How many of the lines carry the space or the given marker. */
  function Sided(text: seq<string>, marker: char): nat {
    if text == [] then 0
    else Sided(text[..|text| - 1], marker) + if Carries(text[|text| - 1], marker) then 1 else 0
  }

  lemma SidedSnoc(text: seq<string>, line: string, marker: char)
    ensures Sided(text + [line], marker) == Sided(text, marker) + if Carries(line, marker) then 1 else 0
  {
    assert (text + [line])[..|text|] == text;
  }

  lemma NoNewlineCarries()
    ensures !Carries(NO_NL, '-') && !Carries(NO_NL, '+')
  {
    assert NO_NL[0] == '\\';
  }

  lemma SidedLine(text: seq<string>, line: HunkLine, marker: char)
    requires marker == '-' || marker == '+'
    ensures Sided(text + LineText(line), marker)
         == Sided(text, marker) + Weight(line, if marker == '-' then Insert else Delete)
  {
    var first := Prefix(line.kind) + line.text;
    LineCarries(line);
    SidedSnoc(text, first, marker);
    if line.noNewline {
      NoNewlineCarries();
      SidedSnoc(text + [first], NO_NL, marker);
      Associate(text, [first], [NO_NL]);
    }
  }

  lemma {:induction false} SidedBody(lines: seq<HunkLine>)
    ensures Sided(BodyText(lines), '-') == |OldKeys(lines)| && Sided(BodyText(lines), '+') == |NewKeys(lines)|
    decreases |lines|
  {
    if lines != [] {
      var init, last := lines[..|lines| - 1], lines[|lines| - 1];
      LastSplit(lines);
      SidedBody(init);
      BodyTextSnoc(init, last);
      SidedLine(BodyText(init), last, '-');
      SidedLine(BodyText(init), last, '+');
      KeysSnoc(init, last);
    }
  }

  lemma {:induction false} SidedMonotone(a: seq<string>, b: seq<string>, marker: char)
    requires a <= b
    ensures Sided(a, marker) <= Sided(b, marker)
    decreases |b|
  {
    if a != b {
      SidedMonotone(a, b[..|b| - 1], marker);
    }
  }

  lemma {:induction false} SqueezedMonotone(a: seq<string>, b: seq<string>)
    requires a <= b
    ensures Squeezed(a) <= Squeezed(b)
    decreases |b|
  {
    if a != b {
      LastSplit(b);
      SqueezedSnoc(b[..|b| - 1], b[|b| - 1]);
      SqueezedMonotone(a, b[..|b| - 1]);
    }
  }

  // ----- Reading a body

  /** The lines from start to next are the body of the hunk, and it has the counts it names. */
  predicate BodyOf(lines: seq<string>, start: nat, next: nat, h: Hunk) {
    && BodySpan(lines, start, next) && Squeezed(lines[start..next]) == BodyText(h.lines)
    && h.oldCount == |OldKeys(h.lines)| && h.newCount == |NewKeys(h.lines)|
  }

  lemma SliceGrows(lines: seq<string>, start: nat, j: nat, next: nat)
    requires start <= j < next <= |lines|
    ensures lines[start..j + 1] == lines[start..j] + [lines[j]] && lines[start..j + 1] <= lines[start..next]
  {
    SliceSnoc(lines, start, j);
    assert lines[start..next][..j + 1 - start] == lines[start..j + 1];
  }

  lemma MarkerHasLine(lines: seq<string>, start: nat, j: nat, next: nat, h: Hunk, acc: seq<HunkLine>)
    requires BodyOf(lines, start, next, h) && start <= j < next && lines[j] == NO_NL
    requires Squeezed(lines[start..j]) == BodyText(acc)
    ensures acc != []
  {
    SliceGrows(lines, start, j, next);
    SqueezedMonotone(lines[start..j + 1], lines[start..next]);
    if acc == [] {
      assert BodyText(acc) == [];
      if lines[start..j] != [] {
        SqueezedLast(lines[start..j]);
      }
      SqueezedSnoc(lines[start..j], NO_NL);
      assert BodyText(h.lines)[0] == NO_NL;
      if h.lines != [] {
        BodyTextSome(h.lines);
      }
    }
  }

  lemma LineIsBody(lines: seq<string>, start: nat, j: nat, next: nat, h: Hunk, acc: seq<HunkLine>)
    requires BodyOf(lines, start, next, h) && start <= j < next && lines[j] != NO_NL
    requires Squeezed(lines[start..j]) == BodyText(acc)
    ensures BodyLine(lines[j]).Ok? && BodyText(acc) + [lines[j]] <= BodyText(h.lines)
  {
    SliceGrows(lines, start, j, next);
    SqueezedMonotone(lines[start..j + 1], lines[start..next]);
    SqueezedSnoc(lines[start..j], lines[j]);
    assert lines[j] == BodyText(h.lines)[|BodyText(acc)|];
    BodyTextMarked(h.lines, lines[j]);
  }

  lemma StillCounting(h: Hunk, acc: seq<HunkLine>, line: HunkLine)
    requires BodyText(acc + [line]) <= BodyText(h.lines)
    requires h.oldCount == |OldKeys(h.lines)| && h.newCount == |NewKeys(h.lines)|
    ensures |OldKeys(acc)| < h.oldCount || |NewKeys(acc)| < h.newCount
  {
    SidedBody(acc + [line]);
    SidedBody(h.lines);
    SidedMonotone(BodyText(acc + [line]), BodyText(h.lines), '-');
    SidedMonotone(BodyText(acc + [line]), BodyText(h.lines), '+');
    KeysSnoc(acc, line);
  }

  lemma ParseBodyLine(lines: seq<string>, i: nat, h: Hunk, seenOld: nat, seenNew: nat, acc: seq<HunkLine>)
    requires i < |lines| && lines[i] != NO_NL && (seenOld < h.oldCount || seenNew < h.newCount)
    requires BodyLine(lines[i]).Ok?
    ensures ParseBody(lines, i, h.oldCount, h.newCount, seenOld, seenNew, acc)
         == ParseBody(lines, i + 1, h.oldCount, h.newCount,
                      seenOld + Weight(BodyLine(lines[i]).value, Insert),
                      seenNew + Weight(BodyLine(lines[i]).value, Delete), acc + [BodyLine(lines[i]).value])
  {
  }

  lemma MarkerReads(lines: seq<string>, start: nat, j: nat, next: nat, h: Hunk, seenOld: nat, seenNew: nat,
          acc: seq<HunkLine>) returns (acc1: seq<HunkLine>)
    requires BodyOf(lines, start, next, h) && start <= j < next && lines[j] == NO_NL
    requires Accounts(lines[start..j], acc, seenOld, seenNew)
    ensures Accounts(lines[start..j + 1], acc1, seenOld, seenNew)
    ensures ParseBody(lines, j, h.oldCount, h.newCount, seenOld, seenNew, acc)
         == ParseBody(lines, j + 1, h.oldCount, h.newCount, seenOld, seenNew, acc1)
  {
    MarkerHasLine(lines, start, j, next, h, acc);
    var init, last := acc[..|acc| - 1], acc[|acc| - 1];
    LastSplit(acc);
    SliceSnoc(lines, start, j);
    AccountsMarker(lines[start..j], init, last, seenOld, seenNew);
    ParseBodyOnMarker(lines, j, h, seenOld, seenNew, init, last);
    acc1 := init + [last.(noNewline := true)];
  }

  lemma LineParses(lines: seq<string>, start: nat, j: nat, next: nat, h: Hunk, acc: seq<HunkLine>)
    requires BodyOf(lines, start, next, h) && start <= j < next && lines[j] != NO_NL
    requires Squeezed(lines[start..j]) == BodyText(acc)
    ensures BodyLine(lines[j]).Ok? && (|OldKeys(acc)| < h.oldCount || |NewKeys(acc)| < h.newCount)
  {
    LineIsBody(lines, start, j, next, h, acc);
    var line := BodyLine(lines[j]).value;
    BodyLineText(lines[j]);
    BodyTextSnoc(acc, line);
    StillCounting(h, acc, line);
  }

  lemma LineReads(lines: seq<string>, start: nat, j: nat, next: nat, h: Hunk, seenOld: nat, seenNew: nat,
          acc: seq<HunkLine>) returns (seenOld1: nat, seenNew1: nat, acc1: seq<HunkLine>)
    requires BodyOf(lines, start, next, h) && start <= j < next && lines[j] != NO_NL
    requires Accounts(lines[start..j], acc, seenOld, seenNew)
    ensures Accounts(lines[start..j + 1], acc1, seenOld1, seenNew1)
    ensures ParseBody(lines, j, h.oldCount, h.newCount, seenOld, seenNew, acc)
         == ParseBody(lines, j + 1, h.oldCount, h.newCount, seenOld1, seenNew1, acc1)
  {
    LineParses(lines, start, j, next, h, acc);
    var line := BodyLine(lines[j]).value;
    ParseBodyLine(lines, j, h, seenOld, seenNew, acc);
    SliceSnoc(lines, start, j);
    AccountsLine(lines[start..j], acc, seenOld, seenNew, lines[j]);
    seenOld1, seenNew1, acc1 := seenOld + Weight(line, Insert), seenNew + Weight(line, Delete), acc + [line];
  }

  /** A body that the text accounts for is what the parser makes of it. */
  lemma {:induction false} BodyReadsBack(lines: seq<string>, start: nat, j: nat, next: nat, h: Hunk, seenOld: nat,
          seenNew: nat, acc: seq<HunkLine>)
    requires BodyOf(lines, start, next, h) && start <= j <= next
    requires Accounts(lines[start..j], acc, seenOld, seenNew)
    ensures ParseBody(lines, j, h.oldCount, h.newCount, seenOld, seenNew, acc) == Ok((h.lines, next))
    decreases next - j
  {
    if j == next {
      BodyTextInjective(acc, h.lines);
    } else {
      var seenOld1, seenNew1, acc1 := seenOld, seenNew, acc;
      if lines[j] == NO_NL {
        acc1 := MarkerReads(lines, start, j, next, h, seenOld, seenNew, acc);
      } else {
        seenOld1, seenNew1, acc1 := LineReads(lines, start, j, next, h, seenOld, seenNew, acc);
      }
      BodyReadsBack(lines, start, j + 1, next, h, seenOld1, seenNew1, acc1);
    }
  }

  // ----- Reading hunks and files

  lemma NoLinesYet(lines: seq<string>, start: nat)
    requires start <= |lines|
    ensures Accounts(lines[start..start], [], 0, 0)
  {
    assert lines[start..start] == [];
  }

  lemma WholeBodyReadsBack(lines: seq<string>, start: nat, h: Hunk, next: nat)
    requires BodyOf(lines, start, next, h)
    ensures ParseBody(lines, start, h.oldCount, h.newCount, 0, 0, []) == Ok((h.lines, next))
  {
    NoLinesYet(lines, start);
    BodyReadsBack(lines, start, start, next, h, 0, 0, []);
  }

  /** Line i is the header of the hunk. */
  predicate HeadOf(lines: seq<string>, i: nat, h: Hunk) {
    i < |lines| && StartsWith(lines[i], "@@ ") && ParseHeader(lines[i]) == Some(h.(lines := []))
  }

  lemma ParseHunksOn(lines: seq<string>, i: nat, h: Hunk, next: nat, acc: seq<Hunk>)
    requires HeadOf(lines, i, h)
    requires ParseBody(lines, i + 1, h.oldCount, h.newCount, 0, 0, []) == Ok((h.lines, next))
    ensures next <= |lines| && ParseHunks(lines, i, acc) == ParseHunks(lines, next, acc + [h])
  {
    assert h.(lines := []).(lines := h.lines) == h;
  }

  lemma HeadOfHunk(lines: seq<string>, i: nat, h: Hunk, next: nat)
    requires Reads(lines, i, h, next)
    ensures HeadOf(lines, i, h) && BodyOf(lines, i + 1, next, h)
  {
  }

  lemma HunkFromHead(lines: seq<string>, i: nat, h: Hunk, next: nat, acc: seq<Hunk>)
    requires HeadOf(lines, i, h) && BodyOf(lines, i + 1, next, h)
    ensures ParseHunks(lines, i, acc) == ParseHunks(lines, next, acc + [h])
  {
    WholeBodyReadsBack(lines, i + 1, h, next);
    ParseHunksOn(lines, i, h, next, acc);
  }

  lemma HunkReadsBack(lines: seq<string>, i: nat, h: Hunk, next: nat, acc: seq<Hunk>)
    requires Reads(lines, i, h, next)
    ensures next <= |lines| && ParseHunks(lines, i, acc) == ParseHunks(lines, next, acc + [h])
  {
    HeadOfHunk(lines, i, h, next);
    HunkFromHead(lines, i, h, next, acc);
  }

  lemma {:induction false} HunksReadBack(lines: seq<string>, at: seq<nat>, hunks: seq<Hunk>, k: nat)
    requires k <= |hunks| && |at| == |hunks| + 1 && BodyReads(lines, at[0], at, hunks)
    ensures at[k] <= |lines| && ParseHunks(lines, at[k], hunks[..k]) == Ok((hunks, at[|hunks|]))
    decreases |hunks| - k
  {
    if k == |hunks| {
      assert hunks[..k] == hunks;
    } else {
      HunksReadBack(lines, at, hunks, k + 1);
      assert Reads(lines, at[k], hunks[k], at[k + 1]);
      HunkReadsBack(lines, at[k], hunks[k], at[k + 1], hunks[..k]);
      TakeSnoc(hunks, k);
    }
  }

  lemma HeadReadsBack(lines: seq<string>, start: nat, body: nat, file: FilePatch) returns (header: string, first: nat)
    requires HeadReads(lines, start, body, file)
    ensures After(lines[start], "--- ") == Some(header)
    ensures first == if NewHeaderAt(lines, start + 1) != "" then start + 2 else start + 1
    ensures first <= |lines| && SkipDecoration(lines, first) == Ok(body)
    ensures file == FileOf(Trim(header), NewHeaderAt(lines, start + 1), file.hunks)
  {
    header := After(lines[start], "--- ").value;
    first := if NewHeaderAt(lines, start + 1) != "" then start + 2 else start + 1;
    SkipsDecoration(lines, first, body);
  }

  predicate ReadAs(lines: seq<string>, body: nat, hunks: seq<Hunk>, next: nat) {
    body <= |lines| && ParseHunks(lines, body, []) == Ok((hunks, next))
  }

  lemma AllHunksReadBack(lines: seq<string>, body: nat, at: seq<nat>, hunks: seq<Hunk>) returns (next: nat)
    requires BodyReads(lines, body, at, hunks)
    ensures next == at[|at| - 1] && ReadAs(lines, body, hunks, next)
  {
    next := at[|at| - 1];
    HunksReadBack(lines, at, hunks, 0);
    assert hunks[..0] == [];
  }

  lemma ParseFileFrom(lines: seq<string>, i: nat, header: string, first: nat, body: nat, hunks: seq<Hunk>, next: nat)
    requires i < |lines| && first == if NewHeaderAt(lines, i + 1) != "" then i + 2 else i + 1
    requires first <= |lines| && SkipDecoration(lines, first) == Ok(body)
    requires ReadAs(lines, body, hunks, next)
    ensures ParseFile(lines, i, header) == Ok((FileOf(Trim(header), NewHeaderAt(lines, i + 1), hunks), next))
  {
  }

  lemma FileFromHead(lines: seq<string>, start: nat, body: nat, file: FilePatch, next: nat) returns (header: string)
    requires HeadReads(lines, start, body, file) && ReadAs(lines, body, file.hunks, next)
    ensures After(lines[start], "--- ") == Some(header) && ParseFile(lines, start, header) == Ok((file, next))
  {
    var first;
    header, first := HeadReadsBack(lines, start, body, file);
    ParseFileFrom(lines, start, header, first, body, file.hunks, next);
  }

  lemma FileReadsBack(lines: seq<string>, span: Span, file: FilePatch) returns (header: string)
    requires SpanReads(lines, span, file)
    ensures After(lines[span.start], "--- ") == Some(header)
    ensures ParseFile(lines, span.start, header) == Ok((file, SpanEnd(span)))
  {
    var next := AllHunksReadBack(lines, span.body, span.at, file.hunks);
    header := FileFromHead(lines, span.start, span.body, file, next);
  }

  /** A text made of these files' spans and of dropped lines, up to line i, is read as these files that far. */
  lemma {:induction false} TextReadsBack(lines: seq<string>, i: nat, spans: seq<Span>, files: seq<FilePatch>)
    requires i <= |lines| && TextReads(lines, i, spans, files)
    ensures ParseFiles(lines, 0, []) == ParseFiles(lines, i, files)
    decreases |files|
  {
    if files == [] {
      DroppedIgnored(lines, 0, i, []);
    } else {
      var span, file, init := spans[|spans| - 1], files[|files| - 1], files[..|files| - 1];
      TextReadsBack(lines, span.start, spans[..|spans| - 1], init);
      var header := FileReadsBack(lines, span, file);
      ParseFilesOnFile(lines, span.start, init, header, file, SpanEnd(span));
      LastSplit(files);
      DroppedIgnored(lines, SpanEnd(span), i, files);
    }
  }

  /** The text is made of these files, and of lines that are dropped. */
  ghost predicate MadeOf(patch: string, files: seq<FilePatch>) {
    exists spans :: TextReads(Split(patch), |Split(patch)|, spans, files)
  }

  lemma AllReadBack(patch: string, files: seq<FilePatch>)
    requires MadeOf(patch, files)
    ensures Parsed(patch) == Ok(files)
  {
    var lines := Split(patch);
    var spans :| TextReads(lines, |lines|, spans, files);
    TextReadsBack(lines, |lines|, spans, files);
  }

  lemma AllAccepted(patch: string, files: seq<FilePatch>)
    requires Parsed(patch) == Ok(files)
    ensures MadeOf(patch, files)
  {
    var spans, read := AcceptedText(Split(patch), 0, [], []);
  }

  /**
   * The grammar of the lenient parser: a text is read as these files if and only if its lines are the
   * files' spans, in order, and between and behind them lines that are dropped.
   */
  lemma AcceptedExactly(patch: string, files: seq<FilePatch>)
    ensures Parsed(patch) == Ok(files) <==> MadeOf(patch, files)
  {
    if Parsed(patch) == Ok(files) {
      AllAccepted(patch, files);
    } else if MadeOf(patch, files) {
      AllReadBack(patch, files);
    }
  }
}
