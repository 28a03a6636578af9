/**
  plugins/cline/stream.go: the parser of a single-choice chat-completions stream.  Its byte loop
  frames like module Sse; JSON text is taken as parsed by a codec.
 */
module ClineStream {
  import opened Prelude
  import opened Sse

  const DEFAULT_LIMIT: nat := 0x10_0000

  datatype Choice = Choice(index: int, finish: Option<string>)

  /** A frame body: whether `error` is set, its choices, and whether it has usage. */
  datatype Body = NotJson | Body(error: bool, choices: seq<Choice>, usage: bool)

  /** `parse` reads a frame, `carriesCalls` probes it for tool calls (and says yes when it cannot). */
  datatype Codec = Codec(parse: seq<byte> -> Body, carriesCalls: seq<byte> -> bool)

  datatype StreamEvent = StreamEvent(data: seq<byte>, done: bool, successful: bool, finishReason: string)

  datatype Parser = Parser(framer: Framer, done: bool, finish: string, failed: bool)

  const FRESH: Parser := Parser(START, false, "", false)

  predicate Supported(reason: string) {
    reason == "stop" || reason == "tool_calls" || reason == "length" || reason == "content_filter"
  }

  predicate Success(reason: string) {
    reason == "stop" || reason == "tool_calls"
  }

  /** json.Unmarshal rejects the empty text. */
  function ParseFrame(codec: Codec, data: seq<byte>): Body {
    if data == [] then NotJson else codec.parse(data)
  }

  /** The finish reason after a frame, or rejection. */
  function FinishAfter(finish: string, b: Body): Option<string> {
    if b.NotJson? || b.error || (finish != "" && b.choices != []) || |b.choices| > 1 || (b.choices == [] && !b.usage)
    then None
    else if b.choices == [] then Some(finish)
    else
      var c := b.choices[0];
      if c.index != 0 then None
      else if c.finish.None? then Some(finish)
      else if Supported(c.finish.value) then Some(c.finish.value) else None
  }

  function Decode(codec: Codec, finish: string, data: seq<byte>): Option<StreamEvent> {
    if data == DONE_MARK then
      if finish == "" then None else Some(StreamEvent([], true, Success(finish), finish))
    else
      match FinishAfter(finish, ParseFrame(codec, data))
      case None => None
      case Some(reason) => Some(StreamEvent(data, false, false, reason))
  }

  function ParseByte(codec: Codec, limit: nat, p: Parser, b: byte): (Parser, seq<StreamEvent>) {
    if p.failed then (p, [])
    else if p.done then (p.(failed := true), [])
    else
      match Push(p.framer, b, limit)
      case Overflow => (p.(failed := true), [])
      case Quiet(f) => (p.(framer := f), [])
      case Frame(f, data) =>
        match Decode(codec, p.finish, data)
        case None => (p.(framer := f, failed := true), [])
        case Some(e) => (Parser(f, e.done, e.finishReason, false), [e])
  }

  function ParseBytes(codec: Codec, limit: nat, p: Parser, bytes: seq<byte>): (Parser, seq<StreamEvent>) {
    if bytes == [] then (p, [])
    else
      var (p1, before) := ParseBytes(codec, limit, p, bytes[..|bytes| - 1]);
      var (p2, last) := ParseByte(codec, limit, p1, bytes[|bytes| - 1]);
      (p2, before + last)
  }

  /** Feed: a failing chunk yields no events. */
  function Feed(codec: Codec, limit: nat, p: Parser, chunk: seq<byte>): (Parser, seq<StreamEvent>) {
    var (p', events) := ParseBytes(codec, limit, p, chunk);
    (p', if p'.failed then [] else events)
  }

  function FeedAll(codec: Codec, limit: nat, p: Parser, chunks: seq<seq<byte>>): (Parser, seq<StreamEvent>) {
    if chunks == [] then (p, [])
    else
      var (p1, before) := FeedAll(codec, limit, p, chunks[..|chunks| - 1]);
      var (p2, last) := Feed(codec, limit, p1, chunks[|chunks| - 1]);
      (p2, before + last)
  }

  /** Finish: the stream was complete. */
  predicate Complete(p: Parser) {
    !p.failed && p.done && p.framer.line == [] && !p.framer.hasData
  }

  function Whole(codec: Codec, limit: nat, text: seq<byte>): (Parser, seq<StreamEvent>) {
    ParseBytes(codec, limit, FRESH, text)
  }

  // ---- chunk independence ----

  lemma {:induction false} BytesConcat(codec: Codec, limit: nat, p: Parser, a: seq<byte>, b: seq<byte>)
    ensures var (p1, before) := ParseBytes(codec, limit, p, a);
            var (p2, last) := ParseBytes(codec, limit, p1, b);
            ParseBytes(codec, limit, p, a + b) == (p2, before + last)
  {
    hide ParseByte;
    var (p1, before) := ParseBytes(codec, limit, p, a);
    if b == [] {
      assert a + b == a && before + [] == before;
    } else {
      var init := b[..|b| - 1];
      BytesConcat(codec, limit, p, a, init);
      assert (a + b)[..|a + b| - 1] == a + init && (a + b)[|a + b| - 1] == b[|b| - 1];
      var (p2, middle) := ParseBytes(codec, limit, p1, init);
      var last := ParseByte(codec, limit, p2, b[|b| - 1]).1;
      assert before + (middle + last) == (before + middle) + last;
    }
  }

  lemma {:induction false} FailureIsSticky(codec: Codec, limit: nat, p: Parser, bytes: seq<byte>)
    requires p.failed
    ensures ParseBytes(codec, limit, p, bytes) == (p, [])
  {
    if bytes != [] {
      FailureIsSticky(codec, limit, p, bytes[..|bytes| - 1]);
      var none: seq<StreamEvent> := [];
      assert none + none == none;
    }
  }

  /** Feeding in chunks: rejected exactly when the text is, and otherwise its events and final state. */
  lemma {:induction false} ChunkedIsWhole(codec: Codec, limit: nat, chunks: seq<seq<byte>>)
    ensures var (p, events) := FeedAll(codec, limit, FRESH, chunks);
            var (q, all) := Whole(codec, limit, Concat(chunks));
            p == q && (!p.failed ==> events == all)
  {
    hide ParseByte;
    if chunks != [] {
      var init, last := chunks[..|chunks| - 1], chunks[|chunks| - 1];
      ChunkedIsWhole(codec, limit, init);
      BytesConcat(codec, limit, FRESH, Concat(init), last);
      var p := FeedAll(codec, limit, FRESH, init).0;
      if p.failed {
        FailureIsSticky(codec, limit, p, last);
      }
    }
  }

  lemma ChunkIndependence(codec: Codec, limit: nat, a: seq<seq<byte>>, b: seq<seq<byte>>)
    requires Concat(a) == Concat(b)
    ensures var (p, events) := FeedAll(codec, limit, FRESH, a);
            var (q, events') := FeedAll(codec, limit, FRESH, b);
            p == q && (!p.failed ==> events == events')
  {
    hide ParseBytes, FeedAll;
    ChunkedIsWhole(codec, limit, a);
    ChunkedIsWhole(codec, limit, b);
  }

  // ---- the events are the frames of the specification ----

  function RawOf(e: StreamEvent): seq<byte> {
    if e.done then DONE_MARK else e.data
  }

  function Raws(events: seq<StreamEvent>): seq<seq<byte>> {
    if events == [] then [] else Raws(events[..|events| - 1]) + [RawOf(events[|events| - 1])]
  }

  ghost predicate Framed(text: seq<byte>, p: Parser, events: seq<StreamEvent>) {
    p.framer == FramerAfter(text) && Raws(events) == Frames(Lines(text)) && (p.done ==> p.framer == START)
  }

  lemma FramedStep(codec: Codec, limit: nat, text: seq<byte>, p: Parser, events: seq<StreamEvent>, b: byte)
    requires Framed(text, p, events) && !p.failed && !ParseByte(codec, limit, p, b).0.failed
    ensures var (q, last) := ParseByte(codec, limit, p, b); Framed(text + [b], q, events + last)
  {
    hide Lines, FramerAfter, Frames, FinishAfter;
    PushFollowsSpec(text, b, limit);
    var (q, last) := ParseByte(codec, limit, p, b);
    if last == [] {
      assert events + [] == events && Raws(events) + [] == Raws(events);
    } else {
      assert (events + last)[..|events|] == events;
      FrameLeavesStart(p.framer, b, limit);
    }
  }

  /** An accepted text yields one event per dispatched frame, in order, the DONE mark being the terminal one. */
  lemma {:induction false} EventsAreFrames(codec: Codec, limit: nat, text: seq<byte>)
    requires !Whole(codec, limit, text).0.failed
    ensures var (p, events) := Whole(codec, limit, text);
            Raws(events) == Frames(Lines(text)) && p.framer == FramerAfter(text) && (p.done ==> p.framer == START)
  {
    hide ParseByte, Lines, FramerAfter, Frames;
    if text == [] {
      StartIsEmpty();
    } else {
      var init, b := text[..|text| - 1], text[|text| - 1];
      var (p, events) := Whole(codec, limit, init);
      FailedStays(codec, limit, p, b);
      EventsAreFrames(codec, limit, init);
      FramedStep(codec, limit, init, p, events, b);
      assert init + [b] == text;
    }
  }

  lemma FailedStays(codec: Codec, limit: nat, p: Parser, b: byte)
    ensures p.failed ==> ParseByte(codec, limit, p, b).0.failed
  {
  }

  /** Complete is exactly: accepted, and the terminal event was the last. */
  lemma CompleteEndsInDone(codec: Codec, limit: nat, text: seq<byte>)
    requires !Whole(codec, limit, text).0.failed
    ensures var (p, events) := Whole(codec, limit, text);
            && (Complete(p) <==> p.done)
            && (p.done <==> events != [] && events[|events| - 1].done)
            && (forall i :: 0 <= i < |events| - 1 ==> !events[i].done)
            && (p.done ==>
                  && p.finish == events[|events| - 1].finishReason
                  && (p.finish == "stop" || p.finish == "tool_calls" || p.finish == "length"
                      || p.finish == "content_filter")
                  && (events[|events| - 1].successful <==> p.finish == "stop" || p.finish == "tool_calls"))
  {
    hide ParseBytes;
    EventsAreFrames(codec, limit, text);
    DoneIsLast(codec, limit, text);
  }

  ghost predicate Terminated(p: Parser, events: seq<StreamEvent>) {
    && (p.done <==> events != [] && events[|events| - 1].done)
    && (forall i :: 0 <= i < |events| - 1 ==> !events[i].done)
    && (p.finish != "" ==> Supported(p.finish))
    && (p.done ==> p.finish != "" && p.finish == events[|events| - 1].finishReason
                   && events[|events| - 1].successful == Success(p.finish))
  }

  lemma {:induction false} DoneIsLast(codec: Codec, limit: nat, text: seq<byte>)
    requires !Whole(codec, limit, text).0.failed
    ensures var (p, events) := Whole(codec, limit, text); Terminated(p, events)
  {
    hide Push;
    if text != [] {
      var init, b := text[..|text| - 1], text[|text| - 1];
      FailedStays(codec, limit, Whole(codec, limit, init).0, b);
      DoneIsLast(codec, limit, init);
    }
  }
}
