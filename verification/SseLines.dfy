/** The line-buffered parser of provider streams: its events do not depend on how the text arrives. */
module SseLines {
  import opened EditScript
  import opened Text

  /** `[DONE]`, or a payload that `parse` accepts. */
  datatype Event<V> = Done | Parsed(value: V)

  const DONE := "[DONE]"

  function LineEvents<V>(parse: string -> Option<V>, line: string): seq<Event<V>> {
    match After(Trim(line), "data:")
    case None => []
    case Some(rest) =>
      var payload := Trim(rest);
      if payload == DONE then [Done]
      else match parse(payload) { case None => [] case Some(value) => [Parsed(value)] }
  }

  /** The events of all lines, one after the other. */
  function EventsOf<V>(parse: string -> Option<V>, lines: seq<string>): seq<Event<V>> {
    if lines == [] then [] else LineEvents(parse, lines[0]) + EventsOf(parse, lines[1..])
  }

  lemma {:induction false} EventsJoin<V>(parse: string -> Option<V>, a: seq<string>, b: seq<string>)
    ensures EventsOf(parse, a + b) == EventsOf(parse, a) + EventsOf(parse, b)
    decreases |a|
  {
    if a == [] {
      assert a + b == b;
    } else {
      var rest := a[1..];
      EventsJoin(parse, rest, b);
      EventsUnfold(parse, a[0], rest);
      EventsUnfold(parse, a[0], rest + b);
      Associate(LineEvents(parse, a[0]), EventsOf(parse, rest), EventsOf(parse, b));
      assert a == [a[0]] + rest;
      Associate([a[0]], rest, b);
    }
  }

  lemma EventsUnfold<V>(parse: string -> Option<V>, line: string, rest: seq<string>)
    ensures EventsOf(parse, [line] + rest) == LineEvents(parse, line) + EventsOf(parse, rest)
  {
    assert ([line] + rest)[1..] == rest;
  }

  lemma EventsOne<V>(parse: string -> Option<V>, line: string)
    ensures EventsOf(parse, [line]) == LineEvents(parse, line)
  {
    EventsUnfold(parse, line, []);
    assert [line] + [] == [line];
  }

  lemma SplitUnfold(c: char, s: string)
    ensures var rest := Split(s);
            Split([c] + s) == if c == '\n' then [""] + rest else [[c] + rest[0]] + rest[1..]
  {
    assert ([c] + s)[1..] == s;
  }

  /** The lines of a text that goes on with more: the last one goes on. */
  function GoOn(lines: seq<string>, more: string): seq<string>
    requires lines != []
  {
    lines[..|lines| - 1] + Split(lines[|lines| - 1] + more)
  }

  lemma GoOnLater(line: string, rest: seq<string>, more: string)
    requires rest != []
    ensures GoOn([line] + rest, more) == [line] + GoOn(rest, more)
  {
    assert ([line] + rest)[..|rest|] == [line] + rest[..|rest| - 1];
  }

  /** Splitting a text in two steps. */
  lemma {:induction false} SplitOn(a: string, b: string)
    ensures Split(a + b) == GoOn(Split(a), b)
    decreases |a|
  {
    if a == "" {
      assert a + b == b;
      assert "" + b == b;
    } else {
      var c, tail := a[0], a[1..];
      var rest := Split(tail);
      SplitOn(tail, b);
      assert a == [c] + tail;
      Associate([c], tail, b);
      SplitUnfold(c, tail);
      SplitUnfold(c, tail + b);
      if c == '\n' {
        GoOnLater("", rest, b);
      } else if |rest| == 1 {
        Associate([c], rest[0], b);
        SplitUnfold(c, rest[0] + b);
        assert rest[..0] == [];
      } else {
        GoOnLater([c] + rest[0], rest[1..], b);
        GoOnLater(rest[0], rest[1..], b);
        assert rest == [rest[0]] + rest[1..];
      }
    }
  }

  method EmitPayload<V>(parse: string -> Option<V>, trimmed: string, ghost line: string) returns (events: seq<Event<V>>)
    requires trimmed == Trim(line) && StartsWith(trimmed, "data:")
    ensures events == LineEvents(parse, line)
  {
    StartsWithPrefix(trimmed, "data:");
    var payload := Trim(trimmed[5..]);
    if payload == DONE {
      return [Done];
    }
    var value := parse(payload);
    return if value.Some? then [Parsed(value.value)] else [];
  }

  method EmitLine<V>(parse: string -> Option<V>, line: string) returns (events: seq<Event<V>>)
    ensures events == LineEvents(parse, line)
  {
    var trimmed := Trim(line);
    if trimmed == "" || StartsWith(trimmed, ":") || !StartsWith(trimmed, "data:") {
      return [];
    }
    events := EmitPayload(parse, trimmed, line);
  }

  method EmitLines<V>(parse: string -> Option<V>, lines: seq<string>) returns (events: seq<Event<V>>)
    ensures events == EventsOf(parse, lines)
  {
    events := [];
    for i := 0 to |lines|
      invariant events == EventsOf(parse, lines[..i])
    {
      var more := EmitLine(parse, lines[i]);
      TakeSnoc(lines, i);
      EventsJoin(parse, lines[..i], [lines[i]]);
      EventsOne(parse, lines[i]);
      events := events + more;
    }
    assert lines[..|lines|] == lines;
  }

  lemma ChunkStep<V>(parse: string -> Option<V>, events: seq<Event<V>>, buffer: string, rest: string)
    ensures var lines := Split(buffer);
            events + EventsOf(parse, Split(buffer + rest)) ==
            (events + EventsOf(parse, lines[..|lines| - 1])) + EventsOf(parse, Split(lines[|lines| - 1] + rest))
  {
    var lines := Split(buffer);
    var goes := Split(lines[|lines| - 1] + rest);
    SplitOn(buffer, rest);
    EventsJoin(parse, lines[..|lines| - 1], goes);
    Associate(events, EventsOf(parse, lines[..|lines| - 1]), EventsOf(parse, goes));
  }

  /** Reads the stream chunk by chunk, keeping the unfinished line back, and the last line at the end. */
  method ParseSse<V>(parse: string -> Option<V>, chunks: seq<string>) returns (events: seq<Event<V>>)
    ensures events == EventsOf(parse, Split(Concat(chunks)))
  {
    events := [];
    var buffer := "";
    ghost var all := EventsOf(parse, Split(Concat(chunks)));
    assert "" + Concat(chunks) == Concat(chunks);
    for i := 0 to |chunks|
      invariant OneLine(buffer)
      invariant events + EventsOf(parse, Split(buffer + Concat(chunks, i))) == all
    {
      ghost var rest := Concat(chunks, i + 1);
      Associate(buffer, chunks[i], rest);
      ChunkStep(parse, events, buffer + chunks[i], rest);
      SplitOneLine(buffer + chunks[i]);
      var lines := Split(buffer + chunks[i]);
      buffer := lines[|lines| - 1];
      var more := EmitLines(parse, lines[..|lines| - 1]);
      events := events + more;
    }
    assert buffer + Concat(chunks, |chunks|) == buffer;
    SplitLastLine(buffer);
    EventsOne(parse, buffer);
    var trailing := Trim(buffer);
    if StartsWith(trailing, "data:") {
      var more := EmitPayload(parse, trailing, buffer);
      events := events + more;
    } else {
      assert events + [] == events;
    }
  }

  // ----- What a provider writes is what the caller gets

  /** Payloads as a provider sends them, each on a data line of its own and followed by a blank line. */
  function ProviderText(payloads: seq<string>): string {
    if payloads == [] then "" else "data: " + payloads[0] + "\n" + ("\n" + ProviderText(payloads[1..]))
  }

  /** Each payload in order: the end mark, the value it parses to, or nothing. */
  function ProviderEvents<V>(parse: string -> Option<V>, payloads: seq<string>): seq<Event<V>> {
    if payloads == [] then []
    else
      var first := if payloads[0] == "[DONE]" then [Done]
        else match parse(payloads[0]) { case None => [] case Some(value) => [Parsed(value)] };
      first + ProviderEvents(parse, payloads[1..])
  }

  lemma DataLineTrimmed(payload: string)
    requires Trim(payload) == payload
    ensures Trim("data: " + payload) == "data:" + TrimEnd(" " + payload) && Trim(TrimEnd(" " + payload)) == payload
  {
    var line := "data: " + payload;
    assert line[0] == 'd' && !IsSpace('d');
    assert TrimStart(line) == line && line == "data:" + (" " + payload);
    TrimEndBehind("data:", " " + payload);
    if payload == "" {
      assert " " + payload == " " && TrimEnd(" ") == TrimEnd("");
    } else {
      TrimEndStops(payload);
      TrimEndBehindTrimmed(payload);
    }
  }

  lemma TrimEndBehindTrimmed(payload: string)
    requires payload != "" && Trim(payload) == payload
    ensures TrimEnd(" " + payload) == " " + payload && Trim(" " + payload) == payload
  {
    TrimEndStops(TrimStart(payload));
    assert !IsSpace(payload[|payload| - 1]);
    assert (" " + payload)[1..] == payload;
  }

  lemma DataLineEvents<V>(parse: string -> Option<V>, payload: string)
    requires Trim(payload) == payload
    ensures LineEvents(parse, "data: " + payload) == ProviderEvents(parse, [payload])
  {
    DataLineTrimmed(payload);
    AfterAppended("data:", TrimEnd(" " + payload));
    assert ProviderEvents(parse, [payload][1..]) == [];
  }

  /** Blank lines, comments and other fields give no event. */
  lemma OtherLinesIgnored<V>(parse: string -> Option<V>, line: string)
    requires !StartsWith(Trim(line), "data:")
    ensures LineEvents(parse, line) == []
  {
  }

  lemma ProviderUnfold<V>(parse: string -> Option<V>, payload: string, rest: seq<string>)
    ensures ProviderEvents(parse, [payload] + rest) == ProviderEvents(parse, [payload]) + ProviderEvents(parse, rest)
  {
    assert ([payload] + rest)[1..] == rest && [payload][1..] == [];
    assert ProviderEvents(parse, [payload][1..]) == [];
  }

  lemma ProviderLines(payloads: seq<string>)
    requires payloads != [] && OneLine(payloads[0])
    ensures Split(ProviderText(payloads)) == ["data: " + payloads[0]] + ([""] + Split(ProviderText(payloads[1..])))
  {
    var rest := ProviderText(payloads[1..]);
    SplitAfterLine("data: " + payloads[0], "\n" + rest);
    SplitAfterLine("", rest);
    assert "" + "\n" + rest == "\n" + rest;
  }

  lemma PayloadAndBlank<V>(parse: string -> Option<V>, payload: string, more: seq<string>)
    requires Trim(payload) == payload
    ensures EventsOf(parse, ["data: " + payload] + ([""] + more))
         == ProviderEvents(parse, [payload]) + EventsOf(parse, more)
  {
    EventsUnfold(parse, "data: " + payload, [""] + more);
    DataLineEvents(parse, payload);
    EventsUnfold(parse, "", more);
    OtherLinesIgnored(parse, "");
    assert [] + EventsOf(parse, more) == EventsOf(parse, more);
  }

  /** The events of a provider's text, wherever it is cut, are its payloads' in order. */
  lemma {:induction false} ProviderReadBack<V>(parse: string -> Option<V>, payloads: seq<string>)
    requires forall i :: 0 <= i < |payloads| ==> OneLine(payloads[i]) && Trim(payloads[i]) == payloads[i]
    ensures EventsOf(parse, Split(ProviderText(payloads))) == ProviderEvents(parse, payloads)
    decreases |payloads|
  {
    if payloads == [] {
      EventsOne(parse, "");
    } else {
      ProviderReadBack(parse, payloads[1..]);
      ProviderLines(payloads);
      PayloadAndBlank(parse, payloads[0], Split(ProviderText(payloads[1..])));
      ProviderUnfold(parse, payloads[0], payloads[1..]);
      assert [payloads[0]] + payloads[1..] == payloads;
    }
  }
}
