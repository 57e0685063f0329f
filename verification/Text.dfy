/** Strings as the patch engine uses them: lines, prefixes, white space, decimal numbers; and what all modules share. */
module Text {

  datatype Option<+T> = None | Some(value: T) {
    predicate IsFailure() {
      None?
    }

    function PropagateFailure<U>(): Option<U>
      requires None?
    {
      None
    }

    function Extract(): T
      requires Some?
    {
      value
    }
  }

  datatype Result<+T, +E> = Ok(value: T) | Err(error: E) {
    predicate IsFailure() {
      Err?
    }

    function PropagateFailure<U>(): Result<U, E>
      requires Err?
    {
      Err(error)
    }

    function Extract(): T
      requires Ok?
    {
      value
    }
  }

  function Min(a: nat, b: nat): nat {
    if a <= b then a else b
  }

  /** The pieces from the k-th on, one after the other. */
  function Concat<T>(pieces: seq<seq<T>>, k: nat := 0): seq<T>
    decreases |pieces| - k
  {
    if k >= |pieces| then [] else pieces[k] + Concat(pieces, k + 1)
  }

  // ----- Prefixes and suffixes

  predicate StartsWith(s: string, prefix: string) {
    prefix == "" || (s != "" && s[0] == prefix[0] && StartsWith(s[1..], prefix[1..]))
  }

  lemma {:induction false} StartsWithPrefix(s: string, prefix: string)
    ensures StartsWith(s, prefix) <==> prefix <= s
  {
    if prefix != "" && s != "" {
      StartsWithPrefix(s[1..], prefix[1..]);
      assert s == [s[0]] + s[1..] && prefix == [prefix[0]] + prefix[1..];
    }
  }

  predicate EndsWith(s: string, suffix: string) {
    |suffix| <= |s| && s[|s| - |suffix|..] == suffix
  }

  lemma EndsWithAppended(s: string, suffix: string)
    ensures EndsWith(s + suffix, suffix) && (s + suffix)[..|s + suffix| - |suffix|] == s
  {
  }

  /** The rest of s after a prefix it is known to have. */
  function After(s: string, prefix: string): Option<string> {
    if StartsWith(s, prefix) then StartsWithPrefix(s, prefix); Some(s[|prefix|..]) else None
  }

  lemma AfterAppended(prefix: string, rest: string)
    ensures After(prefix + rest, prefix) == Some(rest)
  {
    StartsWithPrefix(prefix + rest, prefix);
    assert (prefix + rest)[|prefix|..] == rest;
  }

  // ----- Lines

  predicate OneLine(s: string) {
    '\n' !in s
  }

  predicate AllOneLine(lines: seq<string>) {
    forall i :: 0 <= i < |lines| ==> OneLine(lines[i])
  }

  /** split("\n"): always at least one piece. */
  function Split(s: string): (lines: seq<string>)
    ensures |lines| >= 1
  {
    if s == "" then [""]
    else
      var rest := Split(s[1..]);
      if s[0] == '\n' then [""] + rest else [[s[0]] + rest[0]] + rest[1..]
  }

  /** join("\n") */
  function Join(lines: seq<string>): string {
    if |lines| == 0 then ""
    else if |lines| == 1 then lines[0]
    else lines[0] + "\n" + Join(lines[1..])
  }

  lemma {:induction false} SplitOneLine(s: string)
    ensures AllOneLine(Split(s))
  {
    if s != "" {
      SplitOneLine(s[1..]);
    }
  }

  lemma {:induction false} JoinSplit(s: string)
    ensures Join(Split(s)) == s
  {
    if s != "" {
      JoinSplit(s[1..]);
      var rest := Split(s[1..]);
      assert s == [s[0]] + s[1..];
      if s[0] == '\n' {
        assert ([""] + rest)[1..] == rest;
      } else {
        assert ([[s[0]] + rest[0]] + rest[1..])[1..] == rest[1..];
      }
    }
  }

  /** Splitting at a newline that closes a line. */
  lemma {:induction false} SplitAfterLine(line: string, rest: string)
    requires OneLine(line)
    ensures Split(line + "\n" + rest) == [line] + Split(rest)
  {
    var s := line + "\n" + rest;
    if line == "" {
      assert s[1..] == rest;
    } else {
      SplitAfterLine(line[1..], rest);
      assert s[1..] == line[1..] + "\n" + rest;
      assert line == [line[0]] + line[1..];
    }
  }

  lemma {:induction false} SplitLastLine(line: string)
    requires OneLine(line)
    ensures Split(line) == [line]
  {
    if line != "" {
      SplitLastLine(line[1..]);
      assert line == [line[0]] + line[1..];
    }
  }

  /** Each line closed by a newline. */
  function Lines(lines: seq<string>): string {
    if lines == [] then "" else lines[0] + "\n" + Lines(lines[1..])
  }

  lemma {:induction false} SplitLines(lines: seq<string>, rest: string)
    requires AllOneLine(lines)
    ensures Split(Lines(lines) + rest) == lines + Split(rest)
  {
    if lines == [] {
      assert Lines(lines) + rest == rest;
    } else {
      SplitLines(lines[1..], rest);
      SplitAfterLine(lines[0], Lines(lines[1..]) + rest);
      assert Lines(lines) + rest == lines[0] + "\n" + (Lines(lines[1..]) + rest);
      assert lines == [lines[0]] + lines[1..];
    }
  }

  lemma {:induction false} JoinLines(lines: seq<string>)
    requires lines != []
    ensures Lines(lines) == Join(lines) + "\n"
  {
    if |lines| > 1 {
      JoinLines(lines[1..]);
      assert Lines(lines) == lines[0] + "\n" + (Join(lines[1..]) + "\n");
    }
  }

  lemma {:induction false} SplitJoin(lines: seq<string>)
    requires lines != [] && AllOneLine(lines)
    ensures Split(Join(lines)) == lines
  {
    if |lines| == 1 {
      SplitLastLine(lines[0]);
    } else {
      SplitJoin(lines[1..]);
      SplitAfterLine(lines[0], Join(lines[1..]));
    }
  }

  lemma {:induction false} LinesConcat(s: seq<string>, t: seq<string>)
    ensures Lines(s + t) == Lines(s) + Lines(t)
  {
    if s == [] {
      assert s + t == t;
    } else {
      LinesConcat(s[1..], t);
      assert (s + t)[1..] == s[1..] + t;
    }
  }

  // ----- White space

  /** The characters trim() removes. */
  predicate IsSpace(c: char) {
    || '\t' <= c <= '\r' || c == ' ' || c == '\U{A0}' || c == '\U{1680}' || '\U{2000}' <= c <= '\U{200A}'
    || c == '\U{2028}' || c == '\U{2029}' || c == '\U{202F}' || c == '\U{205F}' || c == '\U{3000}' || c == '\U{FEFF}'
  }

  function TrimEnd(s: string): string {
    if s != "" && IsSpace(s[|s| - 1]) then TrimEnd(s[..|s| - 1]) else s
  }

  function TrimStart(s: string): string {
    if s != "" && IsSpace(s[0]) then TrimStart(s[1..]) else s
  }

  lemma {:induction false} TrimEndStops(s: string)
    ensures TrimEnd(s) <= s
    ensures TrimEnd(s) != "" ==> !IsSpace(TrimEnd(s)[|TrimEnd(s)| - 1])
  {
    if s != "" && IsSpace(s[|s| - 1]) {
      TrimEndStops(s[..|s| - 1]);
    }
  }

  function Trim(s: string): string {
    TrimEnd(TrimStart(s))
  }

  /** Text in front that does not end in white space stays. */
  lemma {:induction false} TrimEndBehind(front: string, s: string)
    requires front != "" && !IsSpace(front[|front| - 1])
    ensures TrimEnd(front + s) == front + TrimEnd(s)
    decreases |s|
  {
    var whole := front + s;
    if s == "" {
      assert whole == front;
    } else if IsSpace(s[|s| - 1]) {
      TrimEndBehind(front, s[..|s| - 1]);
      assert whole[..|whole| - 1] == front + s[..|s| - 1];
    }
  }

  // ----- Decimal numbers

  predicate IsDigit(c: char) {
    '0' <= c <= '9'
  }

  function Digit(n: nat): char
    requires n < 10
  {
    '0' + n as char
  }

  function Value(c: char): nat
    requires IsDigit(c)
  {
    (c - '0') as nat
  }

  function Decimal(n: nat): (s: string)
    ensures s != ""
  {
    if n < 10 then [Digit(n)] else Decimal(n / 10) + [Digit(n % 10)]
  }

  /** How many digits s starts with. */
  function DigitsAt(s: string): (n: nat)
    ensures n <= |s|
  {
    if s != "" && IsDigit(s[0]) then 1 + DigitsAt(s[1..]) else 0
  }

  function Number(s: string): nat {
    if s == "" || !IsDigit(s[|s| - 1]) then 0
    else 10 * Number(s[..|s| - 1]) + Value(s[|s| - 1])
  }

  /** (\d+) at the start of s: the number and what follows its last digit. */
  function TakeNumber(s: string): Option<(nat, string)> {
    var n := DigitsAt(s);
    if n == 0 then None else Some((Number(s[..n]), s[n..]))
  }

  lemma {:induction false} DecimalNumber(n: nat)
    ensures Number(Decimal(n)) == n
    ensures forall i :: 0 <= i < |Decimal(n)| ==> IsDigit(Decimal(n)[i])
  {
    if n >= 10 {
      DecimalNumber(n / 10);
      assert Decimal(n)[..|Decimal(n)| - 1] == Decimal(n / 10);
    } else {
      assert Decimal(n)[..0] == "";
    }
  }

  lemma {:induction false} DigitsStop(digits: string, rest: string)
    requires forall i :: 0 <= i < |digits| ==> IsDigit(digits[i])
    requires rest == "" || !IsDigit(rest[0])
    ensures DigitsAt(digits + rest) == |digits|
  {
    if digits == "" {
      assert digits + rest == rest;
    } else {
      DigitsStop(digits[1..], rest);
      assert (digits + rest)[1..] == digits[1..] + rest;
    }
  }

  /** Printing a number and reading it back. */
  /** Numbers are written without leading zeros. */
  lemma {:induction false} DecimalShort(n: nat)
    ensures Decimal(n)[0] == '0' <==> n == 0
  {
    if n >= 10 {
      DecimalShort(n / 10);
    }
  }

  lemma TakeDecimal(n: nat, rest: string)
    requires rest == "" || !IsDigit(rest[0])
    ensures TakeNumber(Decimal(n) + rest) == Some((n, rest))
  {
    DecimalNumber(n);
    DigitsStop(Decimal(n), rest);
    var s := Decimal(n) + rest;
    assert s[..|Decimal(n)|] == Decimal(n) && s[|Decimal(n)|..] == rest;
  }

  lemma DecimalOneLine(n: nat)
    ensures OneLine(Decimal(n))
  {
    DecimalNumber(n);
  }
}
