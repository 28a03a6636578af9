/**
  pumpUpstreamStream of plugins/cline/executor_stream.go: content passes through, frames with tool
  calls and everything from the finish on wait for a successful terminal event and the end of the
  transport.

  What is withheld is kept as in module Relay, the size of a frame being that of its data.
 */
module ClinePump {
  import opened Prelude
  import opened Sse
  import Response
  import opened Relay
  import opened ClineStream

  const PLAIN: Response.Codec := Response.Codec(raw => Response.NotAnObject, (e: Frame) => e.raw, text => false)

  type Frame = Response.Event

  /** A data event as a frame, and whether it must wait on its own account. */
  function FrameOf(codec: Codec, e: StreamEvent): Frame {
    Response.Event(e.data, None, e.finishReason != "" || codec.carriesCalls(e.data))
  }

  predicate Shown(e: StreamEvent) {
    !e.done && e.data != []
  }

  function DataFrames(codec: Codec, events: seq<StreamEvent>): seq<Frame> {
    if events == [] then []
    else
      var e := events[|events| - 1];
      DataFrames(codec, events[..|events| - 1]) + (if Shown(e) then [FrameOf(codec, e)] else [])
  }

  predicate BadEnd(events: seq<StreamEvent>) {
    exists i :: 0 <= i < |events| && events[i].done && !events[i].successful
  }

  datatype Pumping = Pumping(parser: Parser, out: Relay)

  function TakeOne(codec: Codec, r: Relay, e: StreamEvent, emit: nat -> bool): Relay {
    if r.failed then r
    else if e.done then (if e.successful then r else r.(failed := true))
    else if e.data == [] then r
    else TakeEvent(PLAIN, r, FrameOf(codec, e), emit)
  }

  function TakeSome(codec: Codec, r: Relay, events: seq<StreamEvent>, emit: nat -> bool): Relay {
    if events == [] then r
    else TakeOne(codec, TakeSome(codec, r, events[..|events| - 1], emit), events[|events| - 1], emit)
  }

  function PumpChunk(codec: Codec, s: Pumping, chunk: Chunk, emit: nat -> bool): Pumping {
    if s.out.failed then s
    else if chunk.ReadError? then s.(out := s.out.(failed := true))
    else
      var (p, events) := Feed(codec, DEFAULT_LIMIT, s.parser, chunk.bytes);
      if p.failed then Pumping(p, s.out.(failed := true))
      else Pumping(p, TakeSome(codec, s.out, events, emit))
  }

  function PumpChunks(codec: Codec, chunks: seq<Chunk>, emit: nat -> bool): Pumping {
    if chunks == [] then Pumping(FRESH, IDLE)
    else PumpChunk(codec, PumpChunks(codec, chunks[..|chunks| - 1], emit), chunks[|chunks| - 1], emit)
  }

  /** After EOF: the parser must have finished, then what was withheld is emitted. */
  function PumpOf(codec: Codec, chunks: seq<Chunk>, emit: nat -> bool): Relay {
    var s := PumpChunks(codec, chunks, emit);
    if s.out.failed then s.out
    else if !Complete(s.parser) then s.out.(failed := true)
    else Flush(s.out, emit)
  }

  // ---- the theorems ----

  function Parsed(codec: Codec, text: seq<byte>): (Parser, seq<StreamEvent>) {
    Whole(codec, DEFAULT_LIMIT, text)
  }

  function FramesOf(codec: Codec, text: seq<byte>): seq<Frame> {
    DataFrames(codec, Parsed(codec, text).1)
  }

  /** A text the pump may commit: parsed to a successful terminal event. */
  predicate Acceptable(codec: Codec, text: seq<byte>) {
    Complete(Parsed(codec, text).0) && !BadEnd(Parsed(codec, text).1)
  }

  lemma EventsAppend(codec: Codec, events: seq<StreamEvent>, e: StreamEvent)
    ensures DataFrames(codec, events + [e]) == DataFrames(codec, events)
            + (if Shown(e) then [FrameOf(codec, e)] else [])
    ensures BadEnd(events + [e]) <==> BadEnd(events) || (e.done && !e.successful)
  {
    var all := events + [e];
    assert all[..|events|] == events && all[|events|] == e;
    if BadEnd(events) {
      var i :| 0 <= i < |events| && events[i].done && !events[i].successful;
      assert all[i] == events[i];
    }
  }

  /** Why the pump cannot go on after these events. */
  predicate Stuck(codec: Codec, events: seq<StreamEvent>, emit: nat -> bool) {
    Blocked(PLAIN, DataFrames(codec, events), emit) || BadEnd(events)
  }

  lemma TakeOneFlows(codec: Codec, r: Relay, events: seq<StreamEvent>, e: StreamEvent, emit: nat -> bool)
    requires !r.failed && Flowing(PLAIN, r, DataFrames(codec, events), emit) && !BadEnd(events)
    ensures var r' := TakeOne(codec, r, e, emit);
            && (!r'.failed ==> Flowing(PLAIN, r', DataFrames(codec, events + [e]), emit))
            && (r'.failed ==> Withheld(r', DataFrames(codec, events + [e])))
            && (r'.failed <==> Stuck(codec, events + [e], emit))
  {
    hide Passed, Waiting, Size, Blocked, DataFrames, BadEnd, TakeEvent;
    var frames := DataFrames(codec, events);
    EventsAppend(codec, events, e);
    FlowingIsNotBlocked(PLAIN, r, frames, emit);
    if Shown(e) {
      TakeEventFlows(PLAIN, r, frames, FrameOf(codec, e), emit);
      BlockedAppend(PLAIN, frames, FrameOf(codec, e), emit);
    } else {
      assert frames + [] == frames;
    }
  }

  lemma StuckAppend(codec: Codec, events: seq<StreamEvent>, e: StreamEvent, emit: nat -> bool)
    requires Stuck(codec, events, emit)
    ensures Stuck(codec, events + [e], emit)
    ensures Passed(DataFrames(codec, events)) <= Passed(DataFrames(codec, events + [e]))
  {
    hide Blocked, BadEnd, DataFrames, Passed;
    EventsAppend(codec, events, e);
    var more := if Shown(e) then [FrameOf(codec, e)] else [];
    PassedPrefix(DataFrames(codec, events), more);
    if Blocked(PLAIN, DataFrames(codec, events), emit) {
      BlockedLater(PLAIN, DataFrames(codec, events), more, emit);
    }
  }

  lemma {:induction false} TakeSomeFlows(codec: Codec, r: Relay, before: seq<StreamEvent>, events: seq<StreamEvent>,
                                         emit: nat -> bool)
    requires !r.failed && Flowing(PLAIN, r, DataFrames(codec, before), emit) && !BadEnd(before)
    ensures var r' := TakeSome(codec, r, events, emit);
            && (!r'.failed ==> Flowing(PLAIN, r', DataFrames(codec, before + events), emit))
            && (r'.failed ==> Withheld(r', DataFrames(codec, before + events)))
            && (r'.failed <==> Stuck(codec, before + events, emit))
  {
    hide Flowing, Blocked, BadEnd, DataFrames, Passed, TakeEvent;
    if events == [] {
      assert before + events == before;
      FlowingIsNotBlocked(PLAIN, r, DataFrames(codec, before), emit);
    } else {
      var init, e := events[..|events| - 1], events[|events| - 1];
      TakeSomeFlows(codec, r, before, init, emit);
      assert before + events == before + init + [e];
      var mid := TakeSome(codec, r, init, emit);
      if mid.failed {
        StuckAppend(codec, before + init, e, emit);
      } else {
        TakeOneFlows(codec, mid, before + init, e, emit);
      }
    }
  }

  /** What makes the pump fail before the end of its input. */
  predicate PumpFails(codec: Codec, chunks: seq<Chunk>, emit: nat -> bool) {
    var (p, events) := Parsed(codec, StreamText(chunks));
    !Clean(chunks) || p.failed || Stuck(codec, events, emit)
  }

  /** A prefix of the input that was read without error and accepted so far. */
  ghost predicate Accepted(codec: Codec, chunks: seq<Chunk>) {
    Clean(chunks) && !Parsed(codec, StreamText(chunks)).0.failed
  }

  /** In step with the stream, or failed with nothing out that had to wait. */
  ghost predicate PumpInStep(codec: Codec, s: Pumping, chunks: seq<Chunk>, emit: nat -> bool) {
    && (s.out.failed <==> PumpFails(codec, chunks, emit))
    && if s.out.failed then
         exists n :: 0 <= n <= |chunks| && Accepted(codec, chunks[..n])
                     && Withheld(s.out, FramesOf(codec, StreamText(chunks[..n])))
       else
         s.parser == Parsed(codec, StreamText(chunks)).0
             && Flowing(PLAIN, s.out, FramesOf(codec, StreamText(chunks)), emit)
  }

  lemma ParsedAppend(codec: Codec, text: seq<byte>, more: seq<byte>)
    ensures var (p, events) := Parsed(codec, text);
            var (q, last) := ParseBytes(codec, DEFAULT_LIMIT, p, more);
            Parsed(codec, text + more) == (q, events + last) && (p.failed ==> q.failed)
  {
    hide ParseBytes;
    BytesConcat(codec, DEFAULT_LIMIT, FRESH, text, more);
    if Parsed(codec, text).0.failed {
      FailureIsSticky(codec, DEFAULT_LIMIT, Parsed(codec, text).0, more);
    }
  }

  lemma {:induction false} StuckLater(codec: Codec, events: seq<StreamEvent>, more: seq<StreamEvent>, emit: nat -> bool)
    requires Stuck(codec, events, emit)
    ensures Stuck(codec, events + more, emit)
  {
    hide Stuck, DataFrames, Passed;
    if more == [] {
      assert events + more == events;
    } else {
      StuckLater(codec, events, more[..|more| - 1], emit);
      StuckAppend(codec, events + more[..|more| - 1], more[|more| - 1], emit);
      assert events + more[..|more| - 1] + [more[|more| - 1]] == events + more;
    }
  }

  lemma PumpChunkInStep(codec: Codec, chunks: seq<Chunk>, c: Chunk, s: Pumping, emit: nat -> bool)
    requires PumpInStep(codec, s, chunks, emit)
    ensures PumpInStep(codec, PumpChunk(codec, s, c, emit), chunks + [c], emit)
  {
    hide Flowing, Stuck, Passed, TakeSome, Clean, Bytes, StreamText, ParseBytes, Whole, DataFrames, Parsed;
    var all := chunks + [c];
    BytesAppend(chunks, c);
    var text, more := StreamText(chunks), if c.Payload? then c.bytes else [];
    ParsedAppend(codec, text, more);
    var (p, events) := Parsed(codec, text);
    var last := ParseBytes(codec, DEFAULT_LIMIT, p, more).1;
    if Stuck(codec, events, emit) {
      StuckLater(codec, events, last, emit);
    }
    assert forall n :: 0 <= n <= |chunks| ==> all[..n] == chunks[..n];
    assert all[..|all|] == all && all[..|chunks|] == chunks;
    if !s.out.failed {
      FlowingEmits(PLAIN, s.out, FramesOf(codec, text), emit);
      var s' := PumpChunk(codec, s, c, emit);
      if c.Payload? && !s'.parser.failed {
        NotStuck(codec, events, emit);
        TakeSomeFlows(codec, s.out, events, last, emit);
      } else {
        assert Withheld(s'.out, FramesOf(codec, text));
      }
    }
  }

  lemma NotStuck(codec: Codec, events: seq<StreamEvent>, emit: nat -> bool)
    requires !Stuck(codec, events, emit)
    ensures !BadEnd(events)
  {
  }

  lemma {:induction false} PumpChunksInStep(codec: Codec, chunks: seq<Chunk>, emit: nat -> bool)
    ensures PumpInStep(codec, PumpChunks(codec, chunks, emit), chunks, emit)
  {
    hide PumpInStep, PumpChunk;
    if chunks == [] {
      NothingPumped(codec, emit);
    } else {
      var init, c := chunks[..|chunks| - 1], chunks[|chunks| - 1];
      PumpChunksInStep(codec, init, emit);
      PumpChunkInStep(codec, init, c, PumpChunks(codec, init, emit), emit);
      assert init + [c] == chunks;
    }
  }

  lemma NothingPumped(codec: Codec, emit: nat -> bool)
    ensures PumpInStep(codec, Pumping(FRESH, IDLE), [], emit)
  {
  }

  lemma {:induction false} SomeStop(codec: Codec, r: Relay, events: seq<StreamEvent>, emit: nat -> bool)
    requires StopsAtFailure(r, emit)
    ensures StopsAtFailure(TakeSome(codec, r, events, emit), emit)
  {
    hide Size;
    if events != [] {
      SomeStop(codec, r, events[..|events| - 1], emit);
    }
  }

  lemma {:induction false} PumpStops(codec: Codec, chunks: seq<Chunk>, emit: nat -> bool)
    ensures StopsAtFailure(PumpChunks(codec, chunks, emit).out, emit)
  {
    hide Feed, TakeSome;
    if chunks != [] {
      var s, c := PumpChunks(codec, chunks[..|chunks| - 1], emit), chunks[|chunks| - 1];
      PumpStops(codec, chunks[..|chunks| - 1], emit);
      if c.Payload? {
        SomeStop(codec, s.out, Feed(codec, DEFAULT_LIMIT, s.parser, c.bytes).1, emit);
      }
    }
  }

  /** What may have gone out: these frames of the text as far as it was read. */
  ghost predicate OutOf(codec: Codec, out: seq<Frame>, text: seq<byte>) {
    exists n :: 0 <= n <= |text| && !Parsed(codec, text[..n]).0.failed && out <= FramesOf(codec, text[..n])
  }

  /** Nothing that must wait, nor anything behind it. */
  ghost predicate OutBeforeHold(codec: Codec, out: seq<Frame>, text: seq<byte>) {
    exists n :: 0 <= n <= |text| && !Parsed(codec, text[..n]).0.failed && out <= Passed(FramesOf(codec, text[..n]))
  }

  /** The text of the first n chunks is a prefix of the text. */
  lemma {:induction false} TextOfPrefix(chunks: seq<Chunk>, n: nat)
    requires n <= |chunks|
    ensures StreamText(chunks[..n]) <= StreamText(chunks)
  {
    hide Bytes, Concat;
    if n == |chunks| {
      assert chunks[..n] == chunks;
    } else {
      var init := chunks[..|chunks| - 1];
      TextOfPrefix(init, n);
      assert init[..n] == chunks[..n] && init + [chunks[|chunks| - 1]] == chunks;
      BytesAppend(init, chunks[|chunks| - 1]);
    }
  }

  lemma OutOfPrefix(codec: Codec, out: seq<Frame>, chunks: seq<Chunk>, n: nat)
    requires n <= |chunks| && Accepted(codec, chunks[..n])
    ensures out <= FramesOf(codec, StreamText(chunks[..n])) ==> OutOf(codec, out, StreamText(chunks))
    ensures out <= Passed(FramesOf(codec, StreamText(chunks[..n]))) ==>
              OutOf(codec, out, StreamText(chunks)) && OutBeforeHold(codec, out, StreamText(chunks))
  {
    hide StreamText, FramesOf, Passed, Clean;
    var text, part := StreamText(chunks), StreamText(chunks[..n]);
    TextOfPrefix(chunks, n);
    assert text[..|part|] == part;
    PassedIsPrefix(FramesOf(codec, part));
  }

  /** Frames of a prefix are a prefix of the frames. */
  lemma FramesGrow(codec: Codec, text: seq<byte>, n: nat)
    requires n <= |text|
    ensures FramesOf(codec, text[..n]) <= FramesOf(codec, text)
  {
    hide ParseBytes, DataFrames;
    assert text[..n] + text[n..] == text;
    ParsedAppend(codec, text[..n], text[n..]);
    var (p, events) := Parsed(codec, text[..n]);
    DataGrow(codec, events, ParseBytes(codec, DEFAULT_LIMIT, p, text[n..]).1);
  }

  lemma {:induction false} DataGrow(codec: Codec, events: seq<StreamEvent>, more: seq<StreamEvent>)
    ensures DataFrames(codec, events) <= DataFrames(codec, events + more)
  {
    hide DataFrames;
    if more == [] {
      assert events + more == events;
    } else {
      DataGrow(codec, events, more[..|more| - 1]);
      EventsAppend(codec, events + more[..|more| - 1], more[|more| - 1]);
      assert events + more[..|more| - 1] + [more[|more| - 1]] == events + more;
    }
  }

  /** What a stream of this text amounts to, read to a real end or not: its success and what went out. */
  ghost predicate Outcome(codec: Codec, text: seq<byte>, clean: bool, emit: nat -> bool, ok: bool, out: seq<Frame>) {
    var frames := FramesOf(codec, text);
    var accepted := clean && Acceptable(codec, text);
    var fits := |Rendering(PLAIN, Waiting(frames))| <= 4_194_304;
    && (ok <==> accepted && fits && forall n :: 0 <= n < |frames| ==> emit(n))
    && (ok ==> out == frames)
    && OutOf(codec, out, text) && Stops(|out|, !ok, emit)
    && (accepted && fits ==> out <= frames)
    && (!accepted || !fits ==> OutBeforeHold(codec, out, text))
    && (HasHold(out) ==> accepted && fits)
  }

  /**
    The stream succeeds exactly when it was read to a real end, its text is acceptable, the withheld
    frames fit and every emission works: nothing else, in particular no chunking, matters.  Then all
    data frames were emitted in order.  In every case what was emitted is a prefix of the frames of
    what had been read, and ends with the first emission that fails; without a real end, an
    acceptable text and room for what is withheld, it is a prefix of the frames before the first
    that carries tool calls or comes with or after the finish.
   */
  lemma PumpCommits(codec: Codec, chunks: seq<Chunk>, emit: nat -> bool)
    ensures var r := PumpOf(codec, chunks, emit);
            Outcome(codec, StreamText(chunks), Clean(chunks), emit, !r.failed, r.emitted)
  {
    hide PumpChunks, Passed, Size, StreamText, Clean, Parsed, DataFrames, Accepted, BadEnd, Stops, OutOf, OutBeforeHold;
    var s := PumpChunks(codec, chunks, emit);
    var text := StreamText(chunks);
    var frames := FramesOf(codec, text);
    SizeIs(PLAIN, Waiting(frames));
    hide Rendering;
    assert chunks[..|chunks|] == chunks;
    PumpChunksInStep(codec, chunks, emit);
    PumpStops(codec, chunks, emit);
    FailedStops(s.out, emit);
    FlushStops(s.out, emit);
    if s.out.failed {
      var n :| 0 <= n <= |chunks| && Accepted(codec, chunks[..n])
               && Withheld(s.out, FramesOf(codec, StreamText(chunks[..n])));
      var part := StreamText(chunks[..n]);
      PassedHoldsNothing(FramesOf(codec, part), s.out.emitted);
      PassedIsPrefix(FramesOf(codec, part));
      PassedIsPrefix(frames);
      OutOfPrefix(codec, s.out.emitted, chunks, n);
      TextOfPrefix(chunks, n);
      FramesGrow(codec, text, |part|);
      assert text[..|part|] == part;
    } else {
      AcceptedNow(codec, chunks, emit);
      PassedHoldsNothing(frames, s.out.emitted);
      assert s.out.emitted + s.out.held == frames;
      OutOfPrefix(codec, s.out.emitted, chunks, |chunks|);
      if Complete(s.parser) {
        FlushEmits(s.out, emit);
        OutOfPrefix(codec, Flush(s.out, emit).emitted, chunks, |chunks|);
      }
    }
  }

  lemma AcceptedNow(codec: Codec, chunks: seq<Chunk>, emit: nat -> bool)
    requires !PumpFails(codec, chunks, emit)
    ensures Accepted(codec, chunks) && !BadEnd(Parsed(codec, StreamText(chunks)).1)
  {
  }

  /** What the frames are: those of the specification, up to the DONE mark, in order. */
  lemma FramesAreTheText(codec: Codec, text: seq<byte>)
    requires Acceptable(codec, text)
    ensures var frames := Frames(Lines(text));
            && frames != [] && frames[|frames| - 1] == DONE_MARK
            && |FramesOf(codec, text)| == |frames| - 1
            && forall i :: 0 <= i < |frames| - 1 ==> FramesOf(codec, text)[i].raw == frames[i]
  {
    hide ParseBytes, Lines, Frames;
    var (p, events) := Parsed(codec, text);
    EventsAreFrames(codec, DEFAULT_LIMIT, text);
    CompleteEndsInDone(codec, DEFAULT_LIMIT, text);
    NonEmptyData(codec, DEFAULT_LIMIT, text);
    var init, e := events[..|events| - 1], events[|events| - 1];
    assert init + [e] == events;
    EventsAppend(codec, init, e);
    RawsOfData(codec, init);
    assert DataFrames(codec, init) + [] == DataFrames(codec, init);
    assert Raws(events) == Raws(init) + [DONE_MARK];
  }

  lemma {:induction false} RawsOfData(codec: Codec, events: seq<StreamEvent>)
    requires forall i :: 0 <= i < |events| ==> Shown(events[i])
    ensures |DataFrames(codec, events)| == |events| == |Raws(events)|
    ensures forall i :: 0 <= i < |events| ==> DataFrames(codec, events)[i].raw == Raws(events)[i]
  {
    if events != [] {
      RawsOfData(codec, events[..|events| - 1]);
    }
  }

  /** No data event is empty: the empty text is not JSON. */
  lemma {:induction false} NonEmptyData(codec: Codec, limit: nat, text: seq<byte>)
    ensures forall e :: e in Whole(codec, limit, text).1 ==> e.done || Shown(e)
  {
    hide Push;
    if text != [] {
      NonEmptyData(codec, limit, text[..|text| - 1]);
    }
  }
}
