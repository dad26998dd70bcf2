/**
  Reassembling the lines of a gateway's output from arbitrary chunks, one carry-over
  text for each of its two streams.
*/
module LineAssembly {
  import opened Collections

  datatype Assembled = Assembled(lines: seq<string>, carry: string)

  /** `split(/\r?\n/)` with its last part, which no line end follows, set apart. */
  function SplitLines(text: string): Assembled
  {
    if text == "" then Assembled([], "")
    else AddChar(SplitLines(text[..|text| - 1]), text[|text| - 1])
  }

  function AddChar(before: Assembled, ch: char): Assembled
  {
    if ch == '\n' then Assembled(before.lines + [DropCarriageReturn(before.carry)], "")
    else before.(carry := before.carry + [ch])
  }

  /** A line end may be written with a carriage return before the line feed. */
  function DropCarriageReturn(line: string): string
  {
    if |line| > 0 && line[|line| - 1] == '\r' then line[..|line| - 1] else line
  }

  function CollectOutputLines(carry: string, chunk: string): Assembled
  {
    SplitLines(carry + chunk)
  }

  /** The lines and the carry after all chunks. */
  function CollectAll(chunks: seq<string>): Assembled
  {
    if chunks == [] then Assembled([], "")
    else
      var before := CollectAll(chunks[..|chunks| - 1]);
      After(before.lines, CollectOutputLines(before.carry, chunks[|chunks| - 1]))
  }

  function After(lines: seq<string>, rest: Assembled): Assembled
  {
    Assembled(lines + rest.lines, rest.carry)
  }

  /** Splitting a text in two steps: the carry of the front is split again with the rest. */
  lemma {:induction false} SplitInTwo(front: string, rest: string)
    ensures var first := SplitLines(front);
      SplitLines(front + rest) == After(first.lines, SplitLines(first.carry + rest))
    decreases rest, 1
  {
    var first := SplitLines(front);
    if rest == "" {
      CarryHasNoLine(front);
      assert front + rest == front && first.carry + rest == first.carry;
    } else {
      SplitInTwoSnoc(front, first, rest);
    }
  }

  lemma {:induction false} SplitInTwoSnoc(front: string, first: Assembled, rest: string)
    requires rest != "" && first == SplitLines(front)
    ensures SplitLines(front + rest) == After(first.lines, SplitLines(first.carry + rest))
    decreases rest, 0
  {
    var init, ch := rest[..|rest| - 1], rest[|rest| - 1];
    SplitInTwo(front, init);
    SplitLast(rest);
    ConcatenationAssociates(front, init, [ch]);
    ConcatenationAssociates(first.carry, init, [ch]);
    SplitSnoc(front + init, ch);
    SplitSnoc(first.carry + init, ch);
    AfterAddChar(first.lines, SplitLines(first.carry + init), ch);
  }

  lemma {:induction false} SplitSnoc(text: string, ch: char)
    ensures SplitLines(text + [ch]) == AddChar(SplitLines(text), ch)
  {
    assert (text + [ch])[..|text + [ch]| - 1] == text;
  }

  lemma AfterAddChar(lines: seq<string>, rest: Assembled, ch: char)
    ensures AddChar(After(lines, rest), ch) == After(lines, AddChar(rest, ch))
  {
    ConcatenationAssociates(lines, rest.lines, [DropCarriageReturn(rest.carry)]);
  }

  lemma {:induction false} NoLineFeedNoLine(text: string)
    requires '\n' !in text
    ensures SplitLines(text) == Assembled([], text)
  {
    if text != "" {
      var front, ch := text[..|text| - 1], text[|text| - 1];
      assert ch in text && '\n' !in front;
      NoLineFeedNoLine(front);
      SplitLast(text);
    }
  }

  lemma {:induction false} CarryHasNoLine(text: string)
    ensures '\n' !in SplitLines(text).carry
    ensures SplitLines(SplitLines(text).carry) == Assembled([], SplitLines(text).carry)
  {
    if text != "" {
      CarryHasNoLine(text[..|text| - 1]);
    }
    NoLineFeedNoLine(SplitLines(text).carry);
  }

  /** However the text is cut, even inside a line end, the lines and the carry are those of the whole text. */
  lemma {:induction false} ChunkingIsInvisible(chunks: seq<string>)
    ensures CollectAll(chunks) == SplitLines(Concat(chunks))
  {
    if chunks != [] {
      var front, last := chunks[..|chunks| - 1], chunks[|chunks| - 1];
      ChunkingIsInvisible(front);
      SplitLast(chunks);
      ConcatSnoc(front, last);
      SplitInTwo(Concat(front), last);
    }
  }

  // ----- what the lines are -----

  /** Lines written out with their line ends, followed by an unfinished one. */
  function WriteLines(lines: seq<string>, ends: seq<string>, carry: string): string
    requires |ends| == |lines|
  {
    if lines == [] then carry else lines[0] + ends[0] + WriteLines(lines[1..], ends[1..], carry)
  }

  predicate LineEnd(end: string) { end == "\n" || end == "\r\n" }

  /** A line as it can be read back: no line feed, and no carriage return a bare line feed would swallow. */
  predicate Line(line: string, end: string)
  {
    '\n' !in line && (end == "\n" ==> line == "" || line[|line| - 1] != '\r')
  }

  lemma {:induction false} WriteThenSplit(lines: seq<string>, ends: seq<string>, carry: string)
    requires |ends| == |lines| && '\n' !in carry
    requires forall i :: 0 <= i < |lines| ==> LineEnd(ends[i]) && Line(lines[i], ends[i])
    ensures SplitLines(WriteLines(lines, ends, carry)) == Assembled(lines, carry)
  {
    if lines == [] {
      NoLineFeedNoLine(carry);
    } else {
      var rest := WriteLines(lines[1..], ends[1..], carry);
      OneLine(lines[0], ends[0]);
      SplitInTwo(lines[0] + ends[0], rest);
      assert "" + rest == rest;
      WriteThenSplit(lines[1..], ends[1..], carry);
    }
  }

  lemma OneLine(line: string, end: string)
    requires LineEnd(end) && Line(line, end)
    ensures SplitLines(line + end) == Assembled([line], "")
  {
    var text := line + end;
    var body := text[..|text| - 1];
    assert body == if end == "\n" then line else line + ['\r'];
    NoLineFeedNoLine(body);
  }

  // ----- two streams and the final flush -----

  datatype Stream = Stdout | Stderr

  /** One value for each of the two streams. */
  datatype PerStream<T> = PerStream(stdout: T, stderr: T)
  {
    function At(s: Stream): T
    {
      if s == Stdout then stdout else stderr
    }

    function With(s: Stream, value: T): PerStream<T>
    {
      if s == Stdout then this.(stdout := value) else this.(stderr := value)
    }
  }

  datatype Event = Chunk(text: string) | Flush

  /** The lines one stream has delivered and its carry, after its chunks and the partial flushes. */
  function Deliver(events: seq<Event>): Assembled
  {
    if events == [] then Assembled([], "")
    else
      React(Deliver(events[..|events| - 1]), events[|events| - 1])
  }

  function React(before: Assembled, event: Event): Assembled
  {
    match event
    case Chunk(text) => After(before.lines, CollectOutputLines(before.carry, text))
    case Flush => if before.carry == "" then before else Assembled(before.lines + [before.carry], "")
  }

  function Chunks(texts: seq<string>): (events: seq<Event>)
    ensures |events| == |texts|
  {
    seq(|texts|, i requires 0 <= i < |texts| => Chunk(texts[i]))
  }

  lemma {:induction false} DeliverChunks(texts: seq<string>)
    ensures Deliver(Chunks(texts)) == SplitLines(Concat(texts))
  {
    ChunkingIsInvisible(texts);
    if texts != [] {
      var front := texts[..|texts| - 1];
      ChunkingIsInvisible(front);
      DeliverChunks(front);
      assert Chunks(texts)[..|texts| - 1] == Chunks(front);
    }
  }

  /** The final flush delivers an unfinished line, if there is one, and flushing again delivers nothing. */
  lemma FlushDeliversCarryOnce(texts: seq<string>)
    ensures var whole := SplitLines(Concat(texts));
      var once := Deliver(Chunks(texts) + [Flush]);
      && once == Assembled(whole.lines + (if whole.carry == "" then [] else [whole.carry]), "")
      && Deliver(Chunks(texts) + [Flush] + [Flush]) == once
  {
    DeliverChunks(texts);
  }

  /** A flush at any time delivers the carry, if there is one, and later chunks start anew. */
  lemma {:induction false} FlushThenChunks(events: seq<Event>, texts: seq<string>)
    ensures var before := Deliver(events);
      && Deliver(events + [Flush]) ==
         Assembled(if before.carry == "" then before.lines else before.lines + [before.carry], "")
      && Deliver(events + [Flush] + Chunks(texts)) ==
         After(Deliver(events + [Flush]).lines, SplitLines(Concat(texts)))
  {
    assert (events + [Flush])[..|events|] == events;
    MoreChunks(events + [Flush], texts);
    assert "" + Concat(texts) == Concat(texts);
  }

  lemma {:induction false} OneMoreChunk(before: Assembled, text: string, last: string)
    ensures var middle := After(before.lines, SplitLines(before.carry + text));
      React(middle, Chunk(last)) == After(before.lines, SplitLines(before.carry + (text + last)))
  {
    var first := SplitLines(before.carry + text);
    SplitInTwo(before.carry + text, last);
    ConcatenationAssociates(before.carry, text, last);
    ConcatenationAssociates(before.lines, first.lines, SplitLines(first.carry + last).lines);
  }

  /** Chunks after anything continue the carry. */
  lemma {:induction false} MoreChunks(events: seq<Event>, texts: seq<string>)
    ensures var before := Deliver(events);
      Deliver(events + Chunks(texts)) == After(before.lines, SplitLines(before.carry + Concat(texts)))
  {
    var before := Deliver(events);
    if texts == [] {
      assert events + Chunks(texts) == events && before.carry + "" == before.carry;
      CarryOfEvents(events);
      NoLineFeedNoLine(before.carry);
    } else {
      var front, last := texts[..|texts| - 1], texts[|texts| - 1];
      MoreChunks(events, front);
      OneMoreChunk(before, Concat(front), last);
      ChunksSnoc(events, front, last);
      SplitLast(texts);
      ConcatSnoc(front, last);
    }
  }

  lemma {:induction false} ChunksSnoc(events: seq<Event>, front: seq<string>, last: string)
    ensures Deliver(events + Chunks(front + [last])) == React(Deliver(events + Chunks(front)), Chunk(last))
  {
    var all := events + Chunks(front + [last]);
    assert all == events + Chunks(front) + [Chunk(last)];
    assert all[..|all| - 1] == events + Chunks(front);
  }

  lemma {:induction false} CarryOfEvents(events: seq<Event>)
    ensures '\n' !in Deliver(events).carry
  {
    if events != [] {
      var front, last := events[..|events| - 1], events[|events| - 1];
      CarryOfEvents(front);
      if last.Chunk? {
        CarryHasNoLine(Deliver(front).carry + last.text);
      }
    }
  }

  /** The chunks kept: the last ones, thirty if there are as many. */
  function Latest(chunks: seq<string>): seq<string>
  {
    if |chunks| > 30 then chunks[|chunks| - 30..] else chunks
  }

  /** Counted from the end, the chunks kept are those that came. */
  lemma LatestMeaning(chunks: seq<string>, i: nat)
    requires i < |chunks| && i < 30
    ensures i < |Latest(chunks)| <= 30
    ensures Latest(chunks)[|Latest(chunks)| - 1 - i] == chunks[|chunks| - 1 - i]
  {
  }

  /** What was dropped before a chunk came would be dropped after it. */
  lemma LatestOfLatest(chunks: seq<string>, text: string)
    ensures Latest(Latest(chunks) + [text]) == Latest(chunks + [text])
  {
    if |chunks| > 30 {
      assert Latest(chunks) + [text] == (chunks + [text])[|chunks| - 30..];
    }
  }

  /** What a stream's events should have led to. */
  predicate Delivered(events: seq<Event>, lines: seq<string>, carry: string)
  {
    Deliver(events) == Assembled(lines, carry)
  }

  /** The buffers of a sample: each stream's carry, the lines handed on, and the latest chunks. */
  class OutputBuffers {
    var carry: PerStream<string>
    var lines: PerStream<seq<string>>
    var output: seq<string>
    ghost var events: PerStream<seq<Event>>
    ghost var received: seq<string>

    ghost predicate Valid()
      reads this
    {
      && output == Latest(received)
      && Delivered(events.stdout, lines.stdout, carry.stdout)
      && Delivered(events.stderr, lines.stderr, carry.stderr)
    }

    constructor ()
      ensures Valid() && events == PerStream([], []) && received == []
    {
      carry := PerStream("", "");
      lines := PerStream([], []);
      output := [];
      events := PerStream([], []);
      received := [];
    }

    /** A chunk of one stream: its finished lines are handed on in order, the other stream is untouched. */
    method OnChunk(stream: Stream, text: string)
      requires Valid()
      modifies this
      ensures Valid() && events == old(events).With(stream, old(events).At(stream) + [Chunk(text)])
      ensures received == old(received) + [text] && output == Latest(received)
    {
      LatestOfLatest(received, text);
      received := received + [text];
      Remember(text);
      var parsed := CollectOutputLines(carry.At(stream), text);
      carry := carry.With(stream, parsed.carry);
      HandOn(stream, parsed.lines);
      events := events.With(stream, events.At(stream) + [Chunk(text)]);
    }

    method Remember(text: string)
      modifies this`output
      ensures output == Latest(old(output) + [text])
    {
      output := output + [text];
      if |output| > 30 {
        output := output[|output| - 30..];
      }
    }

    method HandOn(stream: Stream, finished: seq<string>)
      modifies this`lines
      ensures lines == old(lines).With(stream, old(lines).At(stream) + finished)
    {
      ghost var before := lines.At(stream);
      for i := 0 to |finished|
        invariant lines == old(lines).With(stream, lines.At(stream))
        invariant lines.At(stream) == before + finished[..i]
      {
        lines := lines.With(stream, lines.At(stream) + [finished[i]]);
      }
      assert finished[..|finished|] == finished;
    }

    method FlushOutputLineBuffers(flushPartial: bool)
      requires Valid()
      modifies this
      ensures Valid() && output == old(output) && received == old(received)
      ensures events == if flushPartial
                        then PerStream(old(events).stdout + [Flush], old(events).stderr + [Flush]) else old(events)
    {
      if !flushPartial {
        return;
      }
      FlushStream(Stdout);
      FlushStream(Stderr);
    }

    method FlushStream(stream: Stream)
      requires Valid()
      modifies this`carry, this`lines, this`events
      ensures Valid() && events == old(events).With(stream, old(events).At(stream) + [Flush])
    {
      var line := carry.At(stream);
      if line != "" {
        carry := carry.With(stream, "");
        HandOn(stream, [line]);
      }
      events := events.With(stream, events.At(stream) + [Flush]);
    }
  }
}
