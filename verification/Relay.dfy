/**
  RelayOpenCodeSSE and CollectOpenCodeSSE of plugins/opencode/response.go: text passes through,
  tool calls, usage and the finish wait for the validated end of the stream.

  The emitter is a parameter: `emit(n)` tells whether its n-th call succeeds.
 */
module Relay {
  import opened Prelude
  import opened Sse
  import opened Response
  import opened ResponseTheorems
  import opened Assembly

  datatype Chunk = Payload(bytes: seq<byte>) | ReadError

  /** The state of the relay loop.  A failed emission counts as attempted. */
  datatype Relay = Relay(decoder: Decoder, held: seq<Event>, holding: bool, emitted: seq<Event>, failed: bool)

  const IDLE: Relay := Relay(FRESH, [], false, [], false)

  function Size(codec: Codec, events: seq<Event>): nat {
    if events == [] then 0
    else Size(codec, events[..|events| - 1]) + |codec.render(events[|events| - 1])|
  }

  function Emit(r: Relay, e: Event, emit: nat -> bool): Relay {
    r.(emitted := r.emitted + [e], failed := !emit(|r.emitted|))
  }

  function TakeEvent(codec: Codec, r: Relay, e: Event, emit: nat -> bool): Relay {
    if r.failed then r
    else if r.holding || e.hold then
      var held := r.held + [e];
      if Size(codec, held) > HELD_LIMIT then r.(holding := true, failed := true)
      else r.(holding := true, held := held)
    else Emit(r, e, emit)
  }

  function TakeEvents(codec: Codec, r: Relay, events: seq<Event>, emit: nat -> bool): Relay {
    if events == [] then r
    else TakeEvent(codec, TakeEvents(codec, r, events[..|events| - 1], emit), events[|events| - 1], emit)
  }

  function TakeChunk(codec: Codec, r: Relay, chunk: Chunk, emit: nat -> bool): Relay {
    if r.failed then r
    else
      match chunk
      case ReadError => r.(failed := true)
      case Payload(bytes) =>
        var (d, events) := Feed(codec, r.decoder, bytes);
        if d.failed then r.(decoder := d, failed := true)
        else TakeEvents(codec, r.(decoder := d), events, emit)
  }

  function TakeChunks(codec: Codec, chunks: seq<Chunk>, emit: nat -> bool): Relay {
    if chunks == [] then IDLE
    else TakeChunk(codec, TakeChunks(codec, chunks[..|chunks| - 1], emit), chunks[|chunks| - 1], emit)
  }

  function Flush(r: Relay, emit: nat -> bool): Relay
    decreases |r.held|
  {
    if r.failed || r.held == [] then r
    else Flush(Emit(r.(held := r.held[1..]), r.held[0], emit), emit)
  }

  /** After the channel closed: the response must be complete, then what was held is emitted. */
  function Commit(codec: Codec, r: Relay, emit: nat -> bool): Relay {
    if r.failed then r
    else if FinishResponse(codec, r.decoder).None? then r.(failed := true)
    else Flush(r, emit)
  }

  function RelayOf(codec: Codec, chunks: seq<Chunk>, emit: nat -> bool): Relay {
    Commit(codec, TakeChunks(codec, chunks, emit), emit)
  }

  // ---- the streams the theorems speak of ----

  predicate Clean(chunks: seq<Chunk>) {
    forall i :: 0 <= i < |chunks| ==> chunks[i].Payload?
  }

  function Bytes(chunks: seq<Chunk>): seq<seq<byte>> {
    if chunks == [] then []
    else
      Bytes(chunks[..|chunks| - 1]) + (if chunks[|chunks| - 1].Payload? then [chunks[|chunks| - 1].bytes] else [])
  }

  /** The text of a stream, and the events decoded from it when nothing fails. */
  function StreamText(chunks: seq<Chunk>): seq<byte> {
    Concat(Bytes(chunks))
  }

  function StreamEvents(codec: Codec, chunks: seq<Chunk>): seq<Event> {
    FeedAll(codec, FRESH, Bytes(chunks)).1
  }

  /** The events before the first that must wait, and from it on. */
  function Passed(events: seq<Event>): (r: seq<Event>)
    ensures r <= events
  {
    if events == [] || events[0].hold then [] else [events[0]] + Passed(events[1..])
  }

  function Waiting(events: seq<Event>): (r: seq<Event>)
    ensures Passed(events) + r == events
  {
    events[|Passed(events)|..]
  }

  predicate HasHold(events: seq<Event>) {
    exists e :: e in events && e.hold
  }

  lemma HasHoldFirst(events: seq<Event>)
    requires events != []
    ensures HasHold(events) <==> events[0].hold || HasHold(events[1..])
  {
    assert events == [events[0]] + events[1..];
    if events[0].hold { assert events[0] in events; }
  }

  lemma {:induction false} PassedOfMore(events: seq<Event>, e: Event)
    ensures Passed(events + [e]) == if HasHold(events) || e.hold then Passed(events) else events + [e]
    ensures !HasHold(events) ==> Passed(events) == events
  {
    hide HasHold;
    var all := events + [e];
    if events == [] {
      assert !HasHold(events) by { NothingHeld(); }
      assert all[1..] == [];
    } else {
      PassedOfMore(events[1..], e);
      HasHoldFirst(events);
      assert all[0] == events[0] && all[1..] == events[1..] + [e];
      assert [events[0]] + (events[1..] + [e]) == all && [events[0]] + events[1..] == events;
    }
  }

  lemma NothingHeld()
    ensures !HasHold([])
  {
  }

  lemma PassedAppend(events: seq<Event>, e: Event)
    ensures Passed(events + [e]) == if HasHold(events) || e.hold then Passed(events) else events + [e]
    ensures !HasHold(events) ==> Passed(events) == events
    ensures Waiting(events + [e]) == if HasHold(events) || e.hold then Waiting(events) + [e] else []
  {
    hide HasHold, Passed;
    PassedOfMore(events, e);
    assert Passed(events) + (Waiting(events) + [e]) == events + [e];
  }

  /** The relay in the middle of a stream it has decoded so far. */
  ghost predicate Flowing(codec: Codec, r: Relay, events: seq<Event>, emit: nat -> bool) {
    && r.holding == HasHold(events)
    && r.emitted == Passed(events) && r.held == Waiting(events)
    && Size(codec, r.held) <= HELD_LIMIT
    && (forall n :: 0 <= n < |r.emitted| ==> emit(n))
  }

  /** How a failed relay left the host: some events in order, none of them one that must wait. */
  ghost predicate Withheld(r: Relay, events: seq<Event>) {
    r.failed && r.emitted <= Passed(events)
  }

  lemma {:induction false} PassedPrefix(a: seq<Event>, b: seq<Event>)
    ensures Passed(a) <= Passed(a + b)
  {
    if a == [] {
      assert Passed(a) == [];
    } else {
      PassedPrefix(a[1..], b);
      assert (a + b)[1..] == a[1..] + b;
    }
  }

  lemma TakeEventFlows(codec: Codec, r: Relay, events: seq<Event>, e: Event, emit: nat -> bool)
    requires !r.failed && Flowing(codec, r, events, emit)
    ensures var r' := TakeEvent(codec, r, e, emit);
            && (!r'.failed ==> Flowing(codec, r', events + [e], emit))
            && (r'.failed ==> Withheld(r', events + [e]))
            && (r'.failed <==> if HasHold(events) || e.hold then Size(codec, Waiting(events + [e])) > HELD_LIMIT
                               else !emit(|events|))
            && r'.decoder == r.decoder
  {
    hide Passed, Waiting, Size;
    PassedAppend(events, e);
    PassedPrefix(events, [e]);
    assert HasHold(events + [e]) <==> HasHold(events) || e.hold by {
      if e.hold { assert e in events + [e]; }
      if HasHold(events) {
        var x :| x in events && x.hold;
        assert x in events + [e];
      }
    }
  }

  /** The first event of a batch that the relay cannot take, judged on the stream alone. */
  predicate Blocked(codec: Codec, events: seq<Event>, emit: nat -> bool) {
    Size(codec, Waiting(events)) > HELD_LIMIT || exists n :: 0 <= n < |Passed(events)| && !emit(n)
  }

  lemma SizeAppend(codec: Codec, events: seq<Event>, e: Event)
    ensures Size(codec, events + [e]) == Size(codec, events) + |codec.render(e)|
  {
    assert (events + [e])[..|events|] == events;
  }

  lemma BlockedAppend(codec: Codec, events: seq<Event>, e: Event, emit: nat -> bool)
    ensures Blocked(codec, events + [e], emit)
            <==> Blocked(codec, events, emit)
                 || (if HasHold(events) || e.hold then Size(codec, Waiting(events + [e])) > HELD_LIMIT
                     else !emit(|events|))
  {
    hide Passed, Waiting, Size;
    PassedAppend(events, e);
    if HasHold(events) || e.hold {
      SizeAppend(codec, Waiting(events), e);
    } else {
      assert Waiting(events) == [] by { WaitingEmpty(events); }
      assert Size(codec, []) == 0 by { NoSize(codec); }
    }
  }

  lemma WaitingEmpty(events: seq<Event>)
    requires !HasHold(events)
    ensures Waiting(events) == []
  {
    PassedAppend(events, Event([], None, false));
  }

  /** The bytes of these events as they are emitted. */
  function Rendering(codec: Codec, events: seq<Event>): seq<byte> {
    if events == [] then [] else Rendering(codec, events[..|events| - 1]) + codec.render(events[|events| - 1])
  }

  lemma {:induction false} SizeIs(codec: Codec, events: seq<Event>)
    ensures Size(codec, events) == |Rendering(codec, events)|
  {
    if events != [] { SizeIs(codec, events[..|events| - 1]); }
  }

  lemma NoSize(codec: Codec)
    ensures Size(codec, []) == 0
  {
  }

  lemma {:induction false} TakeEventsFlow(codec: Codec, r: Relay, before: seq<Event>, events: seq<Event>,
                                          emit: nat -> bool)
    requires !r.failed && Flowing(codec, r, before, emit)
    ensures var r' := TakeEvents(codec, r, events, emit);
            && (!r'.failed ==> Flowing(codec, r', before + events, emit))
            && (r'.failed ==> Withheld(r', before + events))
            && (r'.failed <==> Blocked(codec, before + events, emit))
            && r'.decoder == r.decoder
  {
    hide Passed, Waiting, Size, Flowing, TakeEvent, Blocked;
    if events == [] {
      assert before + events == before;
      FlowingIsNotBlocked(codec, r, before, emit);
    } else {
      var init, e := events[..|events| - 1], events[|events| - 1];
      TakeEventsFlow(codec, r, before, init, emit);
      assert before + events == before + init + [e];
      var mid := TakeEvents(codec, r, init, emit);
      BlockedAppend(codec, before + init, e, emit);
      if mid.failed {
        PassedPrefix(before + init, [e]);
        FailedTakesNothing(codec, mid, e, emit);
      } else {
        TakeEventFlows(codec, mid, before + init, e, emit);
      }
    }
  }

  lemma FailedTakesNothing(codec: Codec, r: Relay, e: Event, emit: nat -> bool)
    requires r.failed
    ensures TakeEvent(codec, r, e, emit) == r
  {
  }

  lemma FlowingIsNotBlocked(codec: Codec, r: Relay, events: seq<Event>, emit: nat -> bool)
    requires Flowing(codec, r, events, emit)
    ensures !Blocked(codec, events, emit)
  {
  }

  /** The relay before the end of its input: in step with the stream, or failed with nothing unsafe out. */
  ghost predicate InStep(codec: Codec, r: Relay, chunks: seq<Chunk>, emit: nat -> bool) {
    if r.failed then
      exists n :: 0 <= n <= |chunks| && Clean(chunks[..n]) && Withheld(r, StreamEvents(codec, chunks[..n]))
    else
      && Clean(chunks) && r.decoder == FeedAll(codec, FRESH, Bytes(chunks)).0 && !r.decoder.failed
      && Flowing(codec, r, StreamEvents(codec, chunks), emit)
  }

  /** What makes the relay fail before the end of its input. */
  predicate Fails(codec: Codec, chunks: seq<Chunk>, emit: nat -> bool) {
    !Clean(chunks) || Rejects(codec, StreamText(chunks)) || Blocked(codec, StreamEvents(codec, chunks), emit)
  }

  lemma {:induction false} BlockedLater(codec: Codec, events: seq<Event>, more: seq<Event>, emit: nat -> bool)
    requires Blocked(codec, events, emit)
    ensures Blocked(codec, events + more, emit)
  {
    hide Blocked, Passed, Waiting, Size;
    if more == [] {
      assert events + more == events;
    } else {
      var init, e := more[..|more| - 1], more[|more| - 1];
      BlockedLater(codec, events, init, emit);
      BlockedAppend(codec, events + init, e, emit);
      assert events + init + [e] == events + more;
    }
  }

  lemma BytesAppend(chunks: seq<Chunk>, c: Chunk)
    ensures Bytes(chunks + [c]) == Bytes(chunks) + (if c.Payload? then [c.bytes] else [])
    ensures Clean(chunks + [c]) <==> Clean(chunks) && c.Payload?
    ensures StreamText(chunks + [c]) == StreamText(chunks) + (if c.Payload? then c.bytes else [])
  {
    var all := chunks + [c];
    assert all[..|chunks|] == chunks;
    if c.Payload? {
      assert (Bytes(chunks) + [c.bytes])[..|Bytes(chunks)|] == Bytes(chunks);
    } else {
      assert Bytes(chunks) + [] == Bytes(chunks) && StreamText(chunks) + [] == StreamText(chunks);
    }
    if Clean(all) {
      assert forall i :: 0 <= i < |chunks| ==> chunks[i] == all[i];
      assert all[|chunks|] == c;
    }
  }

  lemma FeedAppend(codec: Codec, chunks: seq<seq<byte>>, bytes: seq<byte>)
    ensures var (d, events) := FeedAll(codec, FRESH, chunks);
            var (d', last) := Feed(codec, d, bytes);
            FeedAll(codec, FRESH, chunks + [bytes]) == (d', events + last)
  {
    assert (chunks + [bytes])[..|chunks|] == chunks;
  }

  lemma {:induction false} FailureStays(codec: Codec, r: Relay, c: Chunk, emit: nat -> bool)
    requires r.failed
    ensures TakeChunk(codec, r, c, emit) == r
  {
  }

  /** One more chunk on the stream side: how the conditions of failure grow. */
  lemma FailsAppend(codec: Codec, chunks: seq<Chunk>, c: Chunk, emit: nat -> bool)
    ensures Fails(codec, chunks, emit) ==> Fails(codec, chunks + [c], emit)
    ensures !Fails(codec, chunks, emit) && c.Payload? ==>
              var d := FeedAll(codec, FRESH, Bytes(chunks)).0;
              var (d', last) := Feed(codec, d, c.bytes);
              && !d.failed
              && FeedAll(codec, FRESH, Bytes(chunks + [c])).0 == d'
              && StreamEvents(codec, chunks + [c]) == StreamEvents(codec, chunks) + last
              && (d'.failed <==> Rejects(codec, StreamText(chunks + [c])))
  {
    hide FeedAll, Feed, Rejects, Blocked, Bytes, Concat;
    BytesAppend(chunks, c);
    ChunkedIsWhole(codec, Bytes(chunks));
    ChunkedIsWhole(codec, Bytes(chunks + [c]));
    var bytes := if c.Payload? then c.bytes else [];
    RejectsLater(codec, StreamText(chunks), bytes);
    if c.Payload? {
      FeedAppend(codec, Bytes(chunks), c.bytes);
      if Blocked(codec, StreamEvents(codec, chunks), emit) {
        var last := Feed(codec, FeedAll(codec, FRESH, Bytes(chunks)).0, c.bytes).1;
        BlockedLater(codec, StreamEvents(codec, chunks), last, emit);
      }
    }
  }

  lemma RejectsLater(codec: Codec, text: seq<byte>, more: seq<byte>)
    ensures Rejects(codec, text) ==> Rejects(codec, text + more)
  {
    hide DecodeBytes;
    BytesConcat(codec, FRESH, text, more);
    if Whole(codec, text).0.failed {
      FailureIsSticky(codec, Whole(codec, text).0, more);
    }
  }

  lemma ChunkInStep(codec: Codec, chunks: seq<Chunk>, c: Chunk, r: Relay, emit: nat -> bool)
    requires InStep(codec, r, chunks, emit) && (r.failed <==> Fails(codec, chunks, emit))
    ensures var r' := TakeChunk(codec, r, c, emit);
            InStep(codec, r', chunks + [c], emit) && (r'.failed <==> Fails(codec, chunks + [c], emit))
  {
    hide Feed, FeedAll, Flowing, Blocked, Rejects, Passed, TakeEvents, Clean, Bytes, Concat;
    var all := chunks + [c];
    var r' := TakeChunk(codec, r, c, emit);
    FailsAppend(codec, chunks, c, emit);
    BytesAppend(chunks, c);
    assert forall n :: 0 <= n <= |chunks| ==> all[..n] == chunks[..n];
    assert all[..|all|] == all && all[..|chunks|] == chunks;
    if !r.failed {
      var events := StreamEvents(codec, chunks);
      FlowingEmits(codec, r, events, emit);
      if c.Payload? {
        var (d, last) := Feed(codec, r.decoder, c.bytes);
        if !d.failed {
          FlowingDecoder(codec, r, d, events, emit);
          TakeEventsFlow(codec, r.(decoder := d), events, last, emit);
        } else {
          assert Withheld(r', events);
        }
      } else {
        assert Withheld(r', events);
      }
    }
  }

  lemma FlowingEmits(codec: Codec, r: Relay, events: seq<Event>, emit: nat -> bool)
    requires Flowing(codec, r, events, emit)
    ensures r.emitted == Passed(events)
  {
  }

  lemma FlowingDecoder(codec: Codec, r: Relay, d: Decoder, events: seq<Event>, emit: nat -> bool)
    requires Flowing(codec, r, events, emit)
    ensures Flowing(codec, r.(decoder := d), events, emit)
  {
  }

  lemma {:induction false} ChunksInStep(codec: Codec, chunks: seq<Chunk>, emit: nat -> bool)
    ensures var r := TakeChunks(codec, chunks, emit);
            InStep(codec, r, chunks, emit) && (r.failed <==> Fails(codec, chunks, emit))
  {
    hide InStep, Fails, TakeChunk;
    if chunks == [] {
      IdleInStep(codec, emit);
    } else {
      var init, c := chunks[..|chunks| - 1], chunks[|chunks| - 1];
      ChunksInStep(codec, init, emit);
      ChunkInStep(codec, init, c, TakeChunks(codec, init, emit), emit);
      assert init + [c] == chunks;
    }
  }

  lemma IdleInStep(codec: Codec, emit: nat -> bool)
    ensures InStep(codec, IDLE, [], emit) && !Fails(codec, [], emit)
  {
    NoBytes(codec);
  }

  lemma {:induction false} FlushEmits(r: Relay, emit: nat -> bool)
    requires !r.failed && forall n :: 0 <= n < |r.emitted| ==> emit(n)
    ensures var r' := Flush(r, emit);
            && r.emitted <= r'.emitted <= r.emitted + r.held
            && (!r'.failed ==> r'.emitted == r.emitted + r.held)
            && (!r'.failed <==> forall n :: 0 <= n < |r.emitted| + |r.held| ==> emit(n))
    decreases |r.held|
  {
    if r.held != [] {
      var next := Emit(r.(held := r.held[1..]), r.held[0], emit);
      assert r.emitted + r.held == next.emitted + next.held;
      if emit(|r.emitted|) {
        FlushEmits(next, emit);
      } else {
        assert Flush(r, emit) == next;
        assert next.emitted == (r.emitted + r.held)[..|r.emitted| + 1];
      }
    }
  }

  /** The buffered path accepts the text of a stream exactly when the streamed path's decoder finishes on it. */
  lemma CollectOfStream(codec: Codec, chunks: seq<Chunk>)
    requires Clean(chunks)
    ensures Collect(codec, StreamText(chunks)).Some?
            <==> (!Rejects(codec, StreamText(chunks))
                  && FinishResponse(codec, FeedAll(codec, FRESH, Bytes(chunks)).0).Some?)
    ensures !Rejects(codec, StreamText(chunks)) ==>
              && Collect(codec, StreamText(chunks)) == FinishResponse(codec, FeedAll(codec, FRESH, Bytes(chunks)).0)
              && StreamEvents(codec, chunks) == Whole(codec, StreamText(chunks)).1
  {
    hide FeedAll, Feed, Bytes, Concat, Whole;
    var text := StreamText(chunks);
    OneFeed(codec, text);
    ChunkedIsWhole(codec, Bytes(chunks));
    ChunkedIsWhole(codec, [text]);
  }

  /** Emission stops at the first one that fails: all before the last attempt worked. */
  predicate Stops(attempts: nat, failed: bool, emit: nat -> bool) {
    && (forall n :: 0 <= n < attempts - 1 ==> emit(n))
    && (!failed ==> forall n :: 0 <= n < attempts ==> emit(n))
  }

  predicate StopsAtFailure(r: Relay, emit: nat -> bool) {
    Stops(|r.emitted|, r.failed, emit)
  }

  lemma {:induction false} EventsStop(codec: Codec, r: Relay, events: seq<Event>, emit: nat -> bool)
    requires StopsAtFailure(r, emit)
    ensures StopsAtFailure(TakeEvents(codec, r, events, emit), emit)
  {
    hide Size;
    if events != [] {
      EventsStop(codec, r, events[..|events| - 1], emit);
    }
  }

  lemma {:induction false} ChunksStop(codec: Codec, chunks: seq<Chunk>, emit: nat -> bool)
    ensures StopsAtFailure(TakeChunks(codec, chunks, emit), emit)
  {
    hide Feed, TakeEvents;
    if chunks != [] {
      var r, c := TakeChunks(codec, chunks[..|chunks| - 1], emit), chunks[|chunks| - 1];
      ChunksStop(codec, chunks[..|chunks| - 1], emit);
      if !r.failed && c.Payload? {
        var (d, events) := Feed(codec, r.decoder, c.bytes);
        EventsStop(codec, r.(decoder := d), events, emit);
      }
    }
  }

  lemma {:induction false} FlushStops(r: Relay, emit: nat -> bool)
    requires StopsAtFailure(r, emit)
    ensures StopsAtFailure(Flush(r, emit), emit)
    decreases |r.held|
  {
    if !r.failed && r.held != [] {
      FlushStops(Emit(r.(held := r.held[1..]), r.held[0], emit), emit);
    }
  }

  /** What may have reached the client: these events of the stream as far as some prefix of it was read. */
  ghost predicate OutOf(codec: Codec, out: seq<Event>, chunks: seq<Chunk>) {
    exists n :: 0 <= n <= |chunks| && Clean(chunks[..n]) && out <= StreamEvents(codec, chunks[..n])
  }

  /** Nothing that waits, nor anything behind it. */
  ghost predicate OutBeforeHold(codec: Codec, out: seq<Event>, chunks: seq<Chunk>) {
    exists n :: 0 <= n <= |chunks| && Clean(chunks[..n]) && out <= Passed(StreamEvents(codec, chunks[..n]))
  }

  /**
    Commit safety, and exactly when the relay succeeds, for every chunking and every emitter.

    Success needs a clean stream that the buffered path would accept, held frames within the limit
    and working emissions, and then everything was emitted in order.  In every case what was
    emitted is a prefix of the decoded events, and ends with the first emission that fails.  If the
    stream was not clean, not accepted, or held too much, it is a prefix of the events before the
    first that must wait.
   */
  lemma CommitSafety(codec: Codec, chunks: seq<Chunk>, emit: nat -> bool)
    ensures var r := RelayOf(codec, chunks, emit);
            var events := StreamEvents(codec, chunks);
            var accepted := Clean(chunks) && Collect(codec, StreamText(chunks)).Some?;
            var fits := |Rendering(codec, Waiting(events))| <= 4_194_304;
            && (!r.failed <==> accepted && fits && forall n :: 0 <= n < |events| ==> emit(n))
            && (!r.failed ==> r.emitted == events)
            && OutOf(codec, r.emitted, chunks) && StopsAtFailure(r, emit)
            && (accepted && fits ==> r.emitted <= events)
            && (!accepted || !fits ==> OutBeforeHold(codec, r.emitted, chunks))
            && (HasHold(r.emitted) ==> accepted && fits)
  {
    hide TakeChunks, FeedAll, Passed, Size, Rejects, Bytes, Concat, Collect, FinishResponse, Clean, StopsAtFailure,
         Rendering;
    SizeIs(codec, Waiting(StreamEvents(codec, chunks)));
    var r0 := TakeChunks(codec, chunks, emit);
    var events := StreamEvents(codec, chunks);
    assert chunks[..|chunks|] == chunks;
    ChunksInStep(codec, chunks, emit);
    ChunksStop(codec, chunks, emit);
    FailedStops(r0, emit);
    FlushStops(r0, emit);
    if Clean(chunks) {
      CollectOfStream(codec, chunks);
    }
    if r0.failed {
      var n :| 0 <= n <= |chunks| && Clean(chunks[..n]) && Withheld(r0, StreamEvents(codec, chunks[..n]));
      PassedHoldsNothing(StreamEvents(codec, chunks[..n]), r0.emitted);
      PassedIsPrefix(StreamEvents(codec, chunks[..n]));
      assert OutBeforeHold(codec, r0.emitted, chunks) && OutOf(codec, r0.emitted, chunks);
      PassedIsPrefix(events);
      if Clean(chunks) && Collect(codec, StreamText(chunks)).Some? {
        EventsGrow(codec, chunks, n);
      }
    } else {
      PassedHoldsNothing(events, r0.emitted);
      assert r0.emitted + r0.held == events;
      if FinishResponse(codec, r0.decoder).Some? {
        FlushEmits(r0, emit);
        assert OutOf(codec, Flush(r0, emit).emitted, chunks);
      } else {
        assert OutBeforeHold(codec, r0.emitted, chunks) && OutOf(codec, r0.emitted, chunks);
      }
    }
  }

  lemma FailedStops(r: Relay, emit: nat -> bool)
    requires StopsAtFailure(r, emit)
    ensures StopsAtFailure(r.(failed := true), emit)
  {
  }

  /** The events of a prefix of a stream that is not rejected are a prefix of its events. */
  lemma {:induction false} EventsGrow(codec: Codec, chunks: seq<Chunk>, n: nat)
    requires n <= |chunks|
    ensures StreamEvents(codec, chunks[..n]) <= StreamEvents(codec, chunks)
  {
    hide FeedAll, Feed, Bytes;
    if n == |chunks| {
      assert chunks[..n] == chunks;
    } else {
      var init, c := chunks[..|chunks| - 1], chunks[|chunks| - 1];
      EventsGrow(codec, init, n);
      assert init[..n] == chunks[..n] && init + [c] == chunks;
      BytesAppend(init, c);
      if c.Payload? {
        FeedAppend(codec, Bytes(init), c.bytes);
      } else {
        assert Bytes(init) + [] == Bytes(init);
      }
    }
  }

  lemma PassedIsPrefix(events: seq<Event>)
    ensures |Passed(events)| <= |events| && Passed(events) <= events
  {
  }

  lemma {:induction false} PassedHoldsNothing(events: seq<Event>, out: seq<Event>)
    requires out <= Passed(events)
    ensures !HasHold(out)
  {
    if out != [] {
      PassedHoldsNothing(events[1..], out[1..]);
      assert out[0] == Passed(events)[0];
    }
  }

  /**
    The two paths agree.  With a working emitter and no read error, the relay succeeds exactly when
    the buffered path does and the held frames fit; and the buffered completion is the summary of
    the very frames the relay emitted.
   */
  lemma PathsAgree(codec: Codec, chunks: seq<Chunk>, emit: nat -> bool)
    requires Clean(chunks) && forall n :: emit(n)
    ensures var r := RelayOf(codec, chunks, emit);
            var c := Collect(codec, StreamText(chunks));
            && (!r.failed <==> c.Some? && |Rendering(codec, Waiting(StreamEvents(codec, chunks)))| <= 4_194_304)
            && (!r.failed ==> CompletionOf(codec, c.value, BodiesOf(codec, r.emitted)))
  {
    hide RelayOf, StreamEvents, Collect, Rendering, Waiting, CompletionOf, BodiesOf, Clean, StreamText, Rejects, Whole;
    CommitSafety(codec, chunks, emit);
    CollectOfStream(codec, chunks);
    if Collect(codec, StreamText(chunks)).Some? {
      CollectIsSummary(codec, StreamText(chunks));
    }
  }

  // ---- the events of a text ----

  /** Usage, tool calls or a finish reason: a frame that must wait for the end of the stream. */
  predicate Waits(b: Body) {
    b.Body? && (b.usage.Usage?
                || (b.choices.Choices? && |b.choices.all| == 1
                    && (b.choices.all[0].finish.Finish?
                        || (b.choices.all[0].delta.Delta? && b.choices.all[0].delta.tools.Calls?
                            && b.choices.all[0].delta.tools.calls != []))))
  }

  /** The finish reason of a frame, if it has one. */
  function ReasonIn(b: Body): Option<string> {
    if b.Body? && b.choices.Choices? && |b.choices.all| == 1 && b.choices.all[0].finish.Finish?
    then Some(b.choices.all[0].finish.reason) else None
  }

  /** One event a frame but for DONE: its bytes, its finish in the normalized words, and whether it waits. */
  function EventsOf(codec: Codec, frames: seq<seq<byte>>): seq<Event> {
    if frames == [] then []
    else
      var before, raw := EventsOf(codec, frames[..|frames| - 1]), frames[|frames| - 1];
      if raw == [91, 68, 79, 78, 69, 93] then before
      else
        var reason := ReasonIn(codec.parse(raw));
        var said := if reason == Some("end") then Some("stop")
                    else if reason == Some("function_call") then Some("tool_calls") else None;
        before + [Event(raw, said, Waits(codec.parse(raw)))]
  }

  /** The events of a text that is not rejected, exactly. */
  lemma EventsAreExact(codec: Codec, text: seq<byte>)
    requires !Whole(codec, text).0.failed
    ensures Whole(codec, text).1 == EventsOf(codec, Frames(Lines(text)))
  {
    hide DecodeBytes, EventsOf;
    WholeFollowsFrames(codec, text);
    FramingDecodes(codec, text, Whole(codec, text).0, Whole(codec, text).1);
    FramesGiveEvents(codec, Frames(Lines(text)));
  }

  lemma {:induction false} FramesGiveEvents(codec: Codec, frames: seq<seq<byte>>)
    requires DecodeFrames(codec, frames).Some?
    ensures DecodeFrames(codec, frames).value.1 == EventsOf(codec, frames)
  {
    hide AddBody, MustWait, ParseFrame, Rewritten, Waits, ReasonIn;
    if frames != [] {
      var init, raw := frames[..|frames| - 1], frames[|frames| - 1];
      FramesGiveEvents(codec, init);
      var (r, events) := DecodeFrames(codec, init).value;
      if raw == DONE_MARK {
        assert events + [] == events;
      } else {
        TakenBody(codec, r, raw);
      }
    }
  }

  lemma TakenBody(codec: Codec, r: Reply, raw: seq<byte>)
    requires raw != DONE_MARK && AddBody(r, ParseFrame(codec, raw)).Some?
    ensures var b := codec.parse(raw);
            && ParseFrame(codec, raw) == b && MustWait(b) == Waits(b)
            && Rewritten(b) == (if ReasonIn(b) == Some("end") then Some("stop")
                                else if ReasonIn(b) == Some("function_call") then Some("tool_calls") else None)
  {
    hide AddFields, AddChoice;
  }
}
