/**
 * A file as keyed lines: its lines without terminators, the last one carrying an in-band marker
 * when the file does not end with a newline.
 */
module LineModel {
  import opened Text

  const NO_NEWLINE: string := "\0\0nonl"

  datatype ContentLines = ContentLines(lines: seq<string>, endsWithNewline: bool)

  function SplitContent(content: string): ContentLines {
    if content == "" then ContentLines([], false)
    else
      var raw := Split(content);
      if raw[|raw| - 1] == "" then ContentLines(raw[..|raw| - 1], true) else ContentLines(raw, false)
  }

  function JoinContent(split: ContentLines): string {
    if split.lines == [] then "" else Join(split.lines) + (if split.endsWithNewline then "\n" else "")
  }

  /** Comparable lines: the file's missing final newline folded into its last line. */
  function KeyLines(content: string): seq<string> {
    var split := SplitContent(content);
    if split.lines == [] || split.endsWithNewline then split.lines
    else split.lines[..|split.lines| - 1] + [split.lines[|split.lines| - 1] + NO_NEWLINE]
  }

  method ComputeKeyLines(content: string) returns (keyed: seq<string>)
    ensures keyed == KeyLines(content)
  {
    var split := SplitContent(content);
    keyed := split.lines;
    if |keyed| == 0 {
      return;
    }
    if !split.endsWithNewline {
      var last := |keyed| - 1;
      keyed := keyed[last := keyed[last] + NO_NEWLINE];
    }
  }

  function LooksBinary(content: string): bool {
    '\0' in content[..if |content| < 8000 then |content| else 8000]
  }

  /** One NUL among the first 8000 characters is enough. */
  lemma BinaryExactly(content: string)
    ensures LooksBinary(content) <==> exists i :: 0 <= i < |content| && i < 8000 && content[i] == '\0'
  {
    var start := content[..if |content| < 8000 then |content| else 8000];
    if i :| 0 <= i < |content| && i < 8000 && content[i] == '\0' {
      assert start[i] == '\0';
    }
    if '\0' in start {
      var i :| 0 <= i < |start| && start[i] == '\0';
      assert content[i] == '\0';
    }
  }

  // ----- Reading keyed lines back

  predicate Marked(line: string) {
    EndsWith(line, NO_NEWLINE)
  }

  function Strip(line: string): string {
    if Marked(line) then line[..|line| - |NO_NEWLINE|] else line
  }

  function StripAll(keys: seq<string>): (lines: seq<string>)
    ensures |lines| == |keys|
    ensures forall i :: 0 <= i < |keys| ==> lines[i] == Strip(keys[i])
  {
    seq(|keys|, i requires 0 <= i < |keys| => Strip(keys[i]))
  }

  /** The file that keyed lines stand for, with the marker read off whichever line carries it. */
  function Unkey(keys: seq<string>): string {
    JoinContent(ContentLines(StripAll(keys), keys != [] && !Marked(keys[|keys| - 1])))
  }

  // ----- The line model loses no byte

  lemma {:induction false} JoinSnoc(lines: seq<string>, last: string)
    requires lines != []
    ensures Join(lines + [last]) == Join(lines) + "\n" + last
  {
    if |lines| > 1 {
      JoinSnoc(lines[1..], last);
      assert (lines + [last])[1..] == lines[1..] + [last];
    }
  }

  lemma SplitJoinContent(content: string)
    ensures JoinContent(SplitContent(content)) == content
    ensures AllOneLine(SplitContent(content).lines)
  {
    JoinSplit(content);
    SplitOneLine(content);
    var raw := Split(content);
    if content != "" && raw[|raw| - 1] == "" {
      var lines := raw[..|raw| - 1];
      assert raw == lines + [""];
      if lines != [] {
        JoinSnoc(lines, "");
      }
    }
  }

  lemma KeyLinesOneLine(content: string)
    ensures AllOneLine(KeyLines(content))
  {
    SplitJoinContent(content);
  }

  // ----- When the marker can be told from the text

  /** No line that a newline closes ends in the marker. */
  predicate MarkerFree(content: string) {
    var split := SplitContent(content);
    forall i :: 0 <= i < |split.lines| && (i < |split.lines| - 1 || split.endsWithNewline) ==> !Marked(split.lines[i])
  }

  function Total(lines: seq<string>): nat {
    if lines == [] then 0 else |lines[0]| + Total(lines[1..])
  }

  lemma {:induction false} JoinLength(lines: seq<string>)
    requires lines != []
    ensures |Join(lines)| == Total(lines) + |lines| - 1
  {
    if |lines| > 1 {
      JoinLength(lines[1..]);
    }
  }

  lemma {:induction false} TotalMonotone(s: seq<string>, t: seq<string>)
    requires |s| == |t| && forall i :: 0 <= i < |s| ==> |s[i]| <= |t[i]|
    ensures Total(s) <= Total(t)
    ensures (exists i :: 0 <= i < |s| && |s[i]| < |t[i]|) ==> Total(s) < Total(t)
  {
    if s != [] {
      TotalMonotone(s[1..], t[1..]);
      if i :| 0 <= i < |s| && |s[i]| < |t[i]| && i > 0 {
        assert s[1..][i - 1] == s[i] && t[1..][i - 1] == t[i];
      }
    }
  }

  /** The keyed line of line j, read back, is that line or what is left of it without a marker. */
  lemma ReadBack(content: string, j: nat)
    requires j < |SplitContent(content).lines|
    ensures var split, keys := SplitContent(content), KeyLines(content);
            && |keys| == |split.lines|
            && Strip(keys[j]) == if j < |split.lines| - 1 || split.endsWithNewline then Strip(split.lines[j])
                else split.lines[j]
  {
    var split := SplitContent(content);
    EndsWithAppended(split.lines[j], NO_NEWLINE);
  }

  lemma NeverLonger(content: string)
    ensures var split, read := SplitContent(content), StripAll(KeyLines(content));
            |read| == |split.lines| && forall j :: 0 <= j < |read| ==> |read[j]| <= |split.lines[j]|
  {
    var split, read := SplitContent(content), StripAll(KeyLines(content));
    forall j | 0 <= j < |read|
      ensures |read[j]| <= |split.lines[j]|
    {
      ReadBack(content, j);
    }
  }

  /** The flag for a final newline is never read where there was none. */
  lemma NoNewlineGained(content: string)
    requires SplitContent(content).lines != [] && !SplitContent(content).endsWithNewline
    ensures var keys := KeyLines(content); keys != [] && Marked(keys[|keys| - 1])
  {
    var lines := SplitContent(content).lines;
    EndsWithAppended(lines[|lines| - 1], NO_NEWLINE);
  }

  /** A marked line is read back shorter than it was, and then the file is too. */
  lemma MarkedLineIsCut(content: string, i: nat)
    requires var split := SplitContent(content);
             i < |split.lines| && (i < |split.lines| - 1 || split.endsWithNewline) && Marked(split.lines[i])
    ensures |Unkey(KeyLines(content))| < |content|
  {
    var split := SplitContent(content);
    var read := StripAll(KeyLines(content));
    NeverLonger(content);
    ReadBack(content, i);
    assert |read[i]| < |split.lines[i]|;
    TotalMonotone(read, split.lines);
    JoinLength(read);
    JoinLength(split.lines);
    SplitJoinContent(content);
    if !split.endsWithNewline {
      NoNewlineGained(content);
    }
  }

  lemma MarkerFreeReadsBack(content: string)
    requires MarkerFree(content)
    ensures Unkey(KeyLines(content)) == content
  {
    var split, keys := SplitContent(content), KeyLines(content);
    SplitJoinContent(content);
    forall j | 0 <= j < |split.lines|
      ensures StripAll(keys)[j] == split.lines[j]
    {
      ReadBack(content, j);
    }
    assert StripAll(keys) == split.lines;
    if split.lines != [] && !split.endsWithNewline {
      NoNewlineGained(content);
    }
  }

  /** Keyed lines give back exactly the file they were made from if and only if it is marker-free. */
  lemma UnkeyKeyLines(content: string)
    ensures Unkey(KeyLines(content)) == content <==> MarkerFree(content)
  {
    if MarkerFree(content) {
      MarkerFreeReadsBack(content);
    } else {
      var split := SplitContent(content);
      var i :| 0 <= i < |split.lines| && (i < |split.lines| - 1 || split.endsWithNewline) && Marked(split.lines[i]);
      MarkedLineIsCut(content, i);
    }
  }

  // ----- Text without NUL characters

  lemma {:induction false} SplitChars(s: string, i: nat, c: char)
    requires i < |Split(s)| && c in Split(s)[i]
    ensures c in s
    decreases |s|
  {
    if s != "" {
      var rest := Split(s[1..]);
      if s[0] == '\n' {
        if i > 0 {
          SplitChars(s[1..], i - 1, c);
        }
      } else if i > 0 {
        SplitChars(s[1..], i, c);
      } else if c != s[0] {
        assert c in rest[0];
        SplitChars(s[1..], 0, c);
      }
    }
  }

  /** A file without NUL characters is neither binary nor ambiguous. */
  lemma NulFree(content: string)
    requires '\0' !in content
    ensures MarkerFree(content) && !LooksBinary(content)
  {
    var split := SplitContent(content);
    forall i | 0 <= i < |split.lines|
      ensures !Marked(split.lines[i])
    {
      if Marked(split.lines[i]) {
        var line := split.lines[i];
        assert line[|line| - |NO_NEWLINE|] == NO_NEWLINE[0] == '\0';
        assert line == Split(content)[i];
        SplitChars(content, i, '\0');
      }
    }
  }
}
