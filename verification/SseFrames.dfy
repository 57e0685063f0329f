/** The incremental event-stream parser: its frames do not depend on how the text arrives. */
module SseFrames {
  import opened EditScript
  import opened Text

  const MAX_RESPONSE_BYTES: nat := 8 * 1024 * 1024

  datatype Frame = Frame(event: string, data: string)

  datatype StreamError = StreamTooLong

  // ----- Reading a text character by character

  /** The event blocks completed so far, and the block being read. */
  datatype Reading = Reading(blocks: seq<string>, current: string)

  /** A newline right after a newline completes the block. */
  function Read(r: Reading, c: char): Reading {
    if c == '\n' && r.current != "" && r.current[|r.current| - 1] == '\n' then
      Reading(r.blocks + [r.current[..|r.current| - 1]], "")
    else
      Reading(r.blocks, r.current + [c])
  }

  function Scan(r: Reading, text: string): Reading
    decreases |text|
  {
    if text == "" then r else Scan(Read(r, text[0]), text[1..])
  }

  lemma {:induction false} ScanOn(r: Reading, a: string, b: string)
    ensures Scan(r, a + b) == Scan(Scan(r, a), b)
    decreases |a|
  {
    if a == "" {
      assert a + b == b;
    } else {
      ScanOn(Read(r, a[0]), a[1..], b);
      assert (a + b)[1..] == a[1..] + b;
    }
  }

  predicate BlankAt(text: string, k: int) {
    0 <= k && k + 1 < |text| && text[k] == '\n' && text[k + 1] == '\n'
  }

  ghost predicate NoBlank(text: string) {
    forall k :: !BlankAt(text, k)
  }

  lemma NoBlankSnoc(text: string, c: char)
    ensures NoBlank(text + [c]) <==> NoBlank(text) && !(c == '\n' && text != "" && text[|text| - 1] == '\n')
  {
    var t := text + [c];
    if NoBlank(t) {
      forall k ensures !BlankAt(text, k) {
        assert !BlankAt(t, k);
      }
      assert !BlankAt(t, |text| - 1);
    } else {
      var k :| BlankAt(t, k);
      assert k + 1 < |text| ==> BlankAt(text, k);
    }
  }

  /** The block being read never contains a boundary. */
  lemma {:induction false} CurrentNoBlank(r: Reading, text: string)
    requires NoBlank(r.current)
    ensures NoBlank(Scan(r, text).current)
    decreases |text|
  {
    if text != "" {
      NoBlankSnoc(r.current, text[0]);
      CurrentNoBlank(Read(r, text[0]), text[1..]);
    }
  }

  /** A text without a boundary is taken over whole. */
  lemma {:induction false} ScanNoBlank(blocks: seq<string>, current: string, text: string)
    requires NoBlank(current + text)
    ensures Scan(Reading(blocks, current), text) == Reading(blocks, current + text)
    decreases |text|
  {
    if text == "" {
      assert current + text == current;
    } else {
      var c, rest := text[0], text[1..];
      assert current + text == current + [c] + rest;
      NoBlankPrefix(current + [c], rest);
      NoBlankSnoc(current, c);
      ScanNoBlank(blocks, current + [c], rest);
    }
  }

  lemma NoBlankPrefix(a: string, b: string)
    requires NoBlank(a + b)
    ensures NoBlank(a)
  {
    forall k ensures !BlankAt(a, k) {
      assert !BlankAt(a + b, k);
    }
  }

  lemma CutAtBlank(text: string, k: nat)
    requires BlankAt(text, k) && (forall j :: j < k ==> !BlankAt(text, j))
    ensures text == text[..k] + "\n" + ("\n" + text[k + 2..]) && NoBlank(text[..k] + "\n")
  {
    var head := text[..k] + "\n";
    forall j ensures !BlankAt(head, j) {
      assert BlankAt(head, j) ==> BlankAt(text, j);
    }
  }

  lemma ScanBlock(blocks: seq<string>, block: string, rest: string)
    requires NoBlank(block + "\n")
    ensures Scan(Reading(blocks, ""), block + "\n" + ("\n" + rest)) == Scan(Reading(blocks + [block], ""), rest)
  {
    var head := block + "\n";
    assert "" + head == head;
    ScanNoBlank(blocks, "", head);
    ScanOn(Reading(blocks, ""), head, "\n" + rest);
    assert head[..|head| - 1] == block;
    assert ("\n" + rest)[1..] == rest;
  }

  /** The first boundary ends a block. */
  lemma ScanFirstBlank(blocks: seq<string>, text: string, k: nat)
    requires BlankAt(text, k) && (forall j :: j < k ==> !BlankAt(text, j))
    ensures Scan(Reading(blocks, ""), text) == Scan(Reading(blocks + [text[..k]], ""), text[k + 2..])
  {
    CutAtBlank(text, k);
    ScanBlock(blocks, text[..k], text[k + 2..]);
  }

  // ----- From blocks to frames

  /** The event name and the data lines read so far. */
  datatype Block = Block(event: string, dataLines: seq<string>)

  const FRESH_BLOCK := Block("message", [])

  function TakeLine(b: Block, line: string): Block {
    if StartsWith(line, "event:") then StartsWithPrefix(line, "event:"); b.(event := Trim(line[6..]))
    else if StartsWith(line, "data:")
        then StartsWithPrefix(line, "data:"); b.(dataLines := b.dataLines + [TrimStart(line[5..])])
    else b
  }

  function TakeLines(b: Block, lines: seq<string>): Block
    decreases |lines|
  {
    if lines == [] then b else TakeLines(TakeLine(b, lines[0]), lines[1..])
  }

  function FrameOf(block: string): Option<Frame> {
    var b := TakeLines(FRESH_BLOCK, Split(block));
    if b.dataLines == [] then None else Some(Frame(b.event, Join(b.dataLines)))
  }

  function FramesOf(blocks: seq<string>): seq<Frame> {
    if blocks == [] then []
    else
      var last := FrameOf(blocks[|blocks| - 1]);
      FramesOf(blocks[..|blocks| - 1]) + (if last.Some? then [last.value] else [])
  }

  method ParseEventBlock(block: string) returns (frame: Option<Frame>)
    ensures frame == FrameOf(block)
  {
    var event := "message";
    var dataLines: seq<string> := [];
    var lines := Split(block);
    for i := 0 to |lines|
      invariant TakeLines(Block(event, dataLines), lines[i..]) == TakeLines(FRESH_BLOCK, lines)
    {
      var line := lines[i];
      assert lines[i..][1..] == lines[i + 1..];
      StartsWithPrefix(line, "event:");
      StartsWithPrefix(line, "data:");
      if StartsWith(line, "event:") {
        event := Trim(line[6..]);
      } else if StartsWith(line, "data:") {
        dataLines := dataLines + [TrimStart(line[5..])];
      }
    }
    if dataLines == [] {
      return None;
    }
    return Some(Frame(event, Join(dataLines)));
  }

  // ----- What a block says

  /** What the lines that begin with "data:" carry, without the white space in front of it. */
  function DataOf(lines: seq<string>): seq<string> {
    if lines == [] then []
    else
      match After(lines[0], "data:")
      case Some(rest) => [TrimStart(rest)] + DataOf(lines[1..])
      case None => DataOf(lines[1..])
  }

  lemma OneField(line: string)
    ensures !(StartsWith(line, "event:") && StartsWith(line, "data:"))
  {
    StartsWithPrefix(line, "event:");
    StartsWithPrefix(line, "data:");
    assert "event:"[0] == 'e' && "data:"[0] == 'd';
  }

  lemma {:induction false} BlockData(b: Block, lines: seq<string>)
    ensures TakeLines(b, lines).dataLines == b.dataLines + DataOf(lines)
    decreases |lines|
  {
    if lines == [] {
      assert b.dataLines + [] == b.dataLines;
    } else {
      OneField(lines[0]);
      BlockData(TakeLine(b, lines[0]), lines[1..]);
      if StartsWith(lines[0], "data:") {
        Associate(b.dataLines, [TrimStart(After(lines[0], "data:").value)], DataOf(lines[1..]));
      }
    }
  }

  lemma {:induction false} BlockKeepsEvent(b: Block, lines: seq<string>)
    requires forall i :: 0 <= i < |lines| ==> !StartsWith(lines[i], "event:")
    ensures TakeLines(b, lines).event == b.event
    decreases |lines|
  {
    if lines != [] {
      BlockKeepsEvent(TakeLine(b, lines[0]), lines[1..]);
    }
  }

  lemma {:induction false} BlockTakesEvent(b: Block, lines: seq<string>, k: nat)
    requires k < |lines| && After(lines[k], "event:").Some?
    requires forall i :: k < i < |lines| ==> !StartsWith(lines[i], "event:")
    ensures TakeLines(b, lines).event == Trim(After(lines[k], "event:").value)
    decreases |lines|
  {
    if k == 0 {
      BlockKeepsEvent(TakeLine(b, lines[0]), lines[1..]);
    } else {
      BlockTakesEvent(TakeLine(b, lines[0]), lines[1..], k - 1);
    }
  }

  lemma {:induction false} SomeData(lines: seq<string>)
    ensures DataOf(lines) == [] <==> forall i :: 0 <= i < |lines| ==> !StartsWith(lines[i], "data:")
    decreases |lines|
  {
    if lines != [] {
      SomeData(lines[1..]);
      assert lines == [lines[0]] + lines[1..];
    }
  }

  /**
   * A block gives a frame exactly if some line of it begins with "data:". The data are those lines' texts,
   * joined by newlines; the event name is on the last line that begins with "event:", and "message" without one.
   */
  lemma BlockToFrame(lines: seq<string>, k: nat)
    requires lines != [] && AllOneLine(lines)
    ensures var frame := FrameOf(Join(lines));
            && (frame.Some? <==> exists i :: 0 <= i < |lines| && StartsWith(lines[i], "data:"))
            && (frame.Some? ==> frame.value.data == Join(DataOf(lines)))
            && (frame.Some? && (forall i :: 0 <= i < |lines| ==> !StartsWith(lines[i], "event:")) ==>
                  frame.value.event == "message")
            && (frame.Some? && k < |lines| && After(lines[k], "event:").Some? &&
                (forall i :: k < i < |lines| ==> !StartsWith(lines[i], "event:")) ==>
                  frame.value.event == Trim(After(lines[k], "event:").value))
  {
    SplitJoin(lines);
    BlockData(FRESH_BLOCK, lines);
    SomeData(lines);
    assert [] + DataOf(lines) == DataOf(lines);
    if forall i :: 0 <= i < |lines| ==> !StartsWith(lines[i], "event:") {
      BlockKeepsEvent(FRESH_BLOCK, lines);
    }
    if && k < |lines| && After(lines[k], "event:").Some?
       && forall i :: k < i < |lines| ==> !StartsWith(lines[i], "event:")
    {
      BlockTakesEvent(FRESH_BLOCK, lines, k);
    }
  }

  // ----- The parser object

  datatype Parser = Parser(buffer: string, receivedBytes: nat)

  const EMPTY := Parser("", 0)

  /** What pushing a chunk returns and leaves behind. */
  function Pushed(p: Parser, chunk: string): (Parser, Result<seq<Frame>, StreamError>) {
    var received := p.receivedBytes + |chunk|;
    if received > MAX_RESPONSE_BYTES then (Parser(p.buffer, received), Err(StreamTooLong))
    else
      var r := Scan(Reading([], p.buffer), chunk);
      (Parser(r.current, received), Ok(FramesOf(r.blocks)))
  }

  method IndexOfBlank(text: string) returns (k: int)
    ensures k >= 0 ==> BlankAt(text, k) && forall j :: j < k ==> !BlankAt(text, j)
    ensures k < 0 ==> k == -1 && NoBlank(text)
  {
    k := 0;
    while k + 1 < |text|
      invariant 0 <= k
      invariant forall j :: j < k ==> !BlankAt(text, j)
    {
      if text[k] == '\n' && text[k + 1] == '\n' {
        return k;
      }
      k := k + 1;
    }
    return -1;
  }

  lemma FramesSnoc(blocks: seq<string>, block: string)
    ensures FramesOf(blocks + [block])
         == FramesOf(blocks) + (if FrameOf(block).Some? then [FrameOf(block).value] else [])
  {
    assert (blocks + [block])[..|blocks|] == blocks;
  }

  /** Reading the kept text again and then the chunk is reading on. */
  lemma ScanResumed(kept: string, chunk: string)
    requires NoBlank(kept)
    ensures Scan(Reading([], ""), kept + chunk) == Scan(Reading([], kept), chunk)
  {
    assert "" + kept == kept;
    ScanNoBlank([], "", kept);
    ScanOn(Reading([], ""), kept, chunk);
  }

  class SseParser {
    var buffer: string
    var receivedBytes: nat

    function State(): Parser
      reads this
    {
      Parser(buffer, receivedBytes)
    }

    constructor ()
      ensures State() == EMPTY
    {
      buffer, receivedBytes := "", 0;
    }

    /** Reads on where the last chunk stopped; past the limit the buffer stays as it is. */
    method Push(chunk: string) returns (r: Result<seq<Frame>, StreamError>)
      requires NoBlank(buffer)
      modifies this
      ensures NoBlank(buffer)
      ensures (State(), r) == Pushed(old(State()), chunk)
    {
      receivedBytes := receivedBytes + |chunk|;
      if receivedBytes > MAX_RESPONSE_BYTES {
        return Err(StreamTooLong);
      }
      ScanResumed(buffer, chunk);
      buffer := buffer + chunk;
      var frames := Drain();
      return Ok(frames);
    }

    /** Takes the completed blocks out of the buffer. */
    method Drain() returns (frames: seq<Frame>)
      modifies this`buffer
      ensures var r := Scan(Reading([], ""), old(buffer));
              frames == FramesOf(r.blocks) && buffer == r.current && NoBlank(buffer)
    {
      frames := [];
      ghost var blocks: seq<string> := [];
      var boundary := IndexOfBlank(buffer);
      while boundary != -1
        invariant boundary >= 0 ==> BlankAt(buffer, boundary) && forall j :: j < boundary ==> !BlankAt(buffer, j)
        invariant boundary < 0 ==> boundary == -1 && NoBlank(buffer)
        invariant Scan(Reading(blocks, ""), buffer) == Scan(Reading([], ""), old(buffer))
        invariant frames == FramesOf(blocks)
        decreases |buffer|
      {
        var rawEvent := buffer[..boundary];
        ScanFirstBlank(blocks, buffer, boundary);
        FramesSnoc(blocks, rawEvent);
        blocks := blocks + [rawEvent];
        buffer := buffer[boundary + 2..];
        var frame := ParseEventBlock(rawEvent);
        if frame.Some? {
          frames := frames + [frame.value];
        }
        boundary := IndexOfBlank(buffer);
      }
      assert "" + buffer == buffer;
      ScanNoBlank(blocks, "", buffer);
    }
  }

  // ----- Independence of the chunks

  /** The frames the pushes have returned, and the error that ended the stream, if any. */
  datatype Delivery = Delivery(frames: seq<Frame>, error: Option<StreamError>)

  /** What pushing the chunks from the k-th on delivers; the first error ends the stream. */
  function PushedAll(p: Parser, chunks: seq<string>, k: nat := 0): Delivery
    decreases |chunks| - k
  {
    if k >= |chunks| then Delivery([], None)
    else
      var (q, r) := Pushed(p, chunks[k]);
      match r
      case Err(error) => Delivery([], Some(error))
      case Ok(frames) =>
        var rest := PushedAll(q, chunks, k + 1);
        Delivery(frames + rest.frames, rest.error)
  }

  lemma {:induction false} FramesJoin(a: seq<string>, b: seq<string>)
    ensures FramesOf(a + b) == FramesOf(a) + FramesOf(b)
    decreases |b|
  {
    if b == [] {
      assert a + b == a;
    } else {
      var front, last := b[..|b| - 1], b[|b| - 1];
      FramesJoin(a, front);
      FramesSnoc(a + front, last);
      FramesSnoc(front, last);
      assert b == front + [last];
      Associate(a, front, [last]);
      Associate(FramesOf(a), FramesOf(front), if FrameOf(last).Some? then [FrameOf(last).value] else []);
    }
  }

  /** Blocks already completed stay in front. */
  lemma {:induction false} ScanAddsBlocks(blocks: seq<string>, current: string, text: string)
    ensures var r := Scan(Reading([], current), text);
            Scan(Reading(blocks, current), text) == Reading(blocks + r.blocks, r.current)
    decreases |text|
  {
    if text == "" {
      assert blocks + [] == blocks;
    } else {
      var r := Read(Reading([], current), text[0]);
      assert Read(Reading(blocks, current), text[0]) == Reading(blocks + r.blocks, r.current) by {
        assert blocks + [] == blocks;
      }
      ScanAddsBlocks(blocks + r.blocks, r.current, text[1..]);
      ScanAddsBlocks(r.blocks, r.current, text[1..]);
      Associate(blocks, r.blocks, Scan(Reading([], r.current), text[1..]).blocks);
    }
  }

  lemma ScanTwoChunks(current: string, a: string, b: string)
    ensures var r := Scan(Reading([], current), a);
            FramesOf(Scan(Reading([], current), a + b).blocks) ==
            FramesOf(r.blocks) + FramesOf(Scan(Reading([], r.current), b).blocks)
  {
    var r := Scan(Reading([], current), a);
    ScanOn(Reading([], current), a, b);
    ScanAddsBlocks(r.blocks, r.current, b);
    FramesJoin(r.blocks, Scan(Reading([], r.current), b).blocks);
  }

  /** How far the chunks from the k-th on fit in the limit when some text has been received before. */
  function Fitting(chunks: seq<string>, k: nat, received: nat): (n: nat)
    requires k <= |chunks|
    ensures k <= n <= |chunks|
    decreases |chunks| - k
  {
    if k == |chunks| || received + |chunks[k]| > MAX_RESPONSE_BYTES then k
    else Fitting(chunks, k + 1, received + |chunks[k]|)
  }

  /** The text of the chunks from the k-th to before the n-th. */
  function Between(chunks: seq<string>, k: nat, n: nat): string
    requires k <= n <= |chunks|
    decreases n - k
  {
    if k == n then "" else chunks[k] + Between(chunks, k + 1, n)
  }

  lemma {:induction false} BetweenAll(chunks: seq<string>, k: nat)
    requires k <= |chunks|
    ensures Between(chunks, k, |chunks|) == Concat(chunks, k)
    decreases |chunks| - k
  {
    if k < |chunks| {
      BetweenAll(chunks, k + 1);
    }
  }

  lemma {:induction false} FittingAll(chunks: seq<string>, k: nat, received: nat)
    requires k < |chunks|
    ensures Fitting(chunks, k, received) == |chunks| <==> received + |Concat(chunks, k)| <= MAX_RESPONSE_BYTES
    decreases |chunks| - k
  {
    if k + 1 < |chunks| {
      FittingAll(chunks, k + 1, received + |chunks[k]|);
    }
  }

  /** A chunk that fits delivers its frames, and then those of the chunks behind it. */
  lemma PushedOn(p: Parser, chunks: seq<string>, k: nat) returns (q: Parser)
    requires k < |chunks| && k < Fitting(chunks, k, p.receivedBytes)
    ensures Fitting(chunks, k, p.receivedBytes) == Fitting(chunks, k + 1, q.receivedBytes)
    ensures q.buffer == Scan(Reading([], p.buffer), chunks[k]).current
    ensures var rest := PushedAll(q, chunks, k + 1);
            PushedAll(p, chunks, k)
            == Delivery(FramesOf(Scan(Reading([], p.buffer), chunks[k]).blocks) + rest.frames, rest.error)
  {
    q := Pushed(p, chunks[k]).0;
  }

  lemma PushedNone(p: Parser, chunks: seq<string>, k: nat)
    requires k <= |chunks| && Fitting(chunks, k, p.receivedBytes) == k
    ensures PushedAll(p, chunks, k) == Delivery([], if k == |chunks| then None else Some(StreamTooLong))
  {
  }

  lemma {:induction false} ChunksFrom(p: Parser, chunks: seq<string>, k: nat)
    requires k <= |chunks|
    ensures var n := Fitting(chunks, k, p.receivedBytes);
            PushedAll(p, chunks, k) == Delivery(FramesOf(Scan(Reading([], p.buffer), Between(chunks, k, n)).blocks),
                                                if n == |chunks| then None else Some(StreamTooLong))
    decreases |chunks| - k
  {
    var n := Fitting(chunks, k, p.receivedBytes);
    if k < n {
      var q := PushedOn(p, chunks, k);
      ChunksFrom(q, chunks, k + 1);
      ScanTwoChunks(p.buffer, chunks[k], Between(chunks, k + 1, n));
    } else {
      PushedNone(p, chunks, k);
    }
  }

  /**
   * However the text is cut into chunks, the frames are those of reading it character by character. A
   * text beyond the limit is refused by the first chunk that passes it, and the frames completed before
   * that chunk have been delivered.
   */
  lemma ChunksDoNotMatter(chunks: seq<string>)
    ensures var n := Fitting(chunks, 0, 0);
            && PushedAll(EMPTY, chunks) == Delivery(FramesOf(Scan(Reading([], ""), Between(chunks, 0, n)).blocks),
                                                    if n == |chunks| then None else Some(StreamTooLong))
            && (n == |chunks| <==> |Concat(chunks)| <= 8 * 1024 * 1024)
            && (n == |chunks| ==> Between(chunks, 0, n) == Concat(chunks))
  {
    ChunksFrom(EMPTY, chunks, 0);
    BetweenAll(chunks, 0);
    if chunks != [] {
      FittingAll(chunks, 0, 0);
    }
  }

  // ----- What a server writes is what the client reads

  /** A frame as a server sends it: its event name and the lines of its data. */
  datatype Sent = Sent(event: string, dataLines: seq<string>)

  function DataFields(dataLines: seq<string>): seq<string> {
    if dataLines == [] then [] else ["data: " + dataLines[0]] + DataFields(dataLines[1..])
  }

  function Fields(f: Sent): seq<string> {
    ["event: " + f.event] + DataFields(f.dataLines)
  }

  /** The fields, one a line, and a blank line. */
  function Encoded(f: Sent): string {
    Lines(Fields(f)) + "\n"
  }

  function Stream(fs: seq<Sent>): string {
    if fs == [] then "" else Encoded(fs[0]) + Stream(fs[1..])
  }

  predicate Sendable(f: Sent) {
    OneLine(f.event) && AllOneLine(f.dataLines) && f.dataLines != []
  }

  function TrimStarts(lines: seq<string>): seq<string> {
    if lines == [] then [] else [TrimStart(lines[0])] + TrimStarts(lines[1..])
  }

  /** White space around the event name and in front of each data line is lost; nothing else is. */
  function Received(f: Sent): Frame {
    Frame(Trim(f.event), Join(TrimStarts(f.dataLines)))
  }

  function AllReceived(fs: seq<Sent>): seq<Frame> {
    if fs == [] then [] else [Received(fs[0])] + AllReceived(fs[1..])
  }

  lemma {:induction false} DataFieldsOneLine(dataLines: seq<string>)
    requires AllOneLine(dataLines)
    ensures var fields := DataFields(dataLines);
            AllOneLine(fields) && forall i :: 0 <= i < |fields| ==> fields[i] != ""
    decreases |dataLines|
  {
    if dataLines != [] {
      DataFieldsOneLine(dataLines[1..]);
    }
  }

  lemma {:induction false} LinesNoBlank(lines: seq<string>)
    requires AllOneLine(lines) && forall i :: 0 <= i < |lines| ==> lines[i] != ""
    ensures NoBlank(Lines(lines)) && (lines != [] ==> Lines(lines)[0] != '\n')
    decreases |lines|
  {
    if lines != [] {
      var line, rest := lines[0], Lines(lines[1..]);
      LinesNoBlank(lines[1..]);
      var text := line + "\n" + rest;
      forall k ensures !BlankAt(text, k) {
        assert BlankAt(text, k) && k > |line| ==> BlankAt(rest, k - |line| - 1);
      }
    }
  }

  lemma TakeEvent(b: Block, event: string)
    ensures TakeLine(b, "event: " + event) == b.(event := Trim(event))
  {
    var line := "event: " + event;
    StartsWithPrefix(line, "event:");
    assert line[6..] == " " + event;
    assert (" " + event)[1..] == event;
  }

  lemma TakeData(b: Block, data: string)
    ensures TakeLine(b, "data: " + data) == b.(dataLines := b.dataLines + [TrimStart(data)])
  {
    var line := "data: " + data;
    StartsWithPrefix(line, "data:");
    StartsWithPrefix(line, "event:");
    assert line[5..] == " " + data;
    assert (" " + data)[1..] == data;
  }

  lemma {:induction false} TakeDataFields(b: Block, dataLines: seq<string>)
    ensures TakeLines(b, DataFields(dataLines)) == b.(dataLines := b.dataLines + TrimStarts(dataLines))
    decreases |dataLines|
  {
    if dataLines == [] {
      assert b.dataLines + [] == b.dataLines;
    } else {
      TakeData(b, dataLines[0]);
      TakeDataFields(b.(dataLines := b.dataLines + [TrimStart(dataLines[0])]), dataLines[1..]);
      Associate(b.dataLines, [TrimStart(dataLines[0])], TrimStarts(dataLines[1..]));
      assert DataFields(dataLines)[1..] == DataFields(dataLines[1..]);
    }
  }

  lemma FieldsReadBack(f: Sent)
    requires Sendable(f)
    ensures FrameOf(Join(Fields(f))) == Some(Received(f))
  {
    DataFieldsOneLine(f.dataLines);
    SplitJoin(Fields(f));
    TakeEvent(FRESH_BLOCK, f.event);
    TakeDataFields(FRESH_BLOCK.(event := Trim(f.event)), f.dataLines);
    assert Fields(f)[1..] == DataFields(f.dataLines);
    assert [] + TrimStarts(f.dataLines) == TrimStarts(f.dataLines);
  }

  lemma ScanEncoded(blocks: seq<string>, f: Sent, rest: string)
    requires Sendable(f)
    ensures Scan(Reading(blocks, ""), Encoded(f) + rest) == Scan(Reading(blocks + [Join(Fields(f))], ""), rest)
  {
    DataFieldsOneLine(f.dataLines);
    LinesNoBlank(Fields(f));
    JoinLines(Fields(f));
    ScanBlock(blocks, Join(Fields(f)), rest);
    Associate(Lines(Fields(f)), "\n", rest);
  }

  lemma {:induction false} StreamScanned(blocks: seq<string>, fs: seq<Sent>)
    requires forall i :: 0 <= i < |fs| ==> Sendable(fs[i])
    ensures FramesOf(Scan(Reading(blocks, ""), Stream(fs)).blocks) == FramesOf(blocks) + AllReceived(fs)
    decreases |fs|
  {
    if fs == [] {
      assert FramesOf(blocks) + [] == FramesOf(blocks);
    } else {
      var block := Join(Fields(fs[0]));
      ScanEncoded(blocks, fs[0], Stream(fs[1..]));
      StreamScanned(blocks + [block], fs[1..]);
      FramesSnoc(blocks, block);
      FieldsReadBack(fs[0]);
      Associate(FramesOf(blocks), [Received(fs[0])], AllReceived(fs[1..]));
    }
  }

  /** Frames that a server writes arrive one for one, in order, wherever the network cuts the text. */
  lemma StreamReadBack(fs: seq<Sent>, chunks: seq<string>)
    requires forall i :: 0 <= i < |fs| ==> Sendable(fs[i])
    requires Concat(chunks) == Stream(fs) && |Stream(fs)| <= MAX_RESPONSE_BYTES
    ensures PushedAll(EMPTY, chunks) == Delivery(AllReceived(fs), None)
  {
    ChunksDoNotMatter(chunks);
    StreamScanned([], fs);
    assert [] + AllReceived(fs) == AllReceived(fs);
  }
}
