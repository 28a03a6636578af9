/** pumpUpstreamStream of plugins/cline/executor_stream.go as the source writes it: a loop over host reads. */
module StreamPumps {
  import opened Sse
  import opened Relay
  import opened ClineStream
  import opened ClinePump
  import opened StreamParsers
  import opened HostStreamBodies
  import HostStream
  import Pump
  import Response

  /** What the pump has read and what the host still has, as one chunk sequence. */
  ghost function Input(chunks: seq<Chunk>, rest: seq<byte>, clean: bool): seq<Chunk> {
    chunks + (if rest == [] then [] else [Payload(rest)]) + (if clean then [] else [ReadError])
  }

  lemma InputIs(chunks: seq<Chunk>, rest: seq<byte>, clean: bool)
    requires Clean(chunks)
    ensures Clean(Input(chunks, rest, clean)) <==> clean
    ensures StreamText(Input(chunks, rest, clean)) == StreamText(chunks) + rest
    ensures rest == [] && clean ==> Input(chunks, rest, clean) == chunks
  {
    hide Clean, StreamText;
    var more := chunks + (if rest == [] then [] else [Payload(rest)]);
    if rest == [] {
      assert more == chunks && StreamText(chunks) + rest == StreamText(chunks);
    } else {
      BytesAppend(chunks, Payload(rest));
    }
    if clean {
      assert Input(chunks, rest, clean) == more;
    } else {
      BytesAppend(more, ReadError);
      assert StreamText(more) + [] == StreamText(more);
    }
  }

  lemma OneMoreChunk(codec: Codec, chunks: seq<Chunk>, c: Chunk, emit: nat -> bool)
    ensures PumpChunks(codec, chunks + [c], emit) == PumpChunk(codec, PumpChunks(codec, chunks, emit), c, emit)
  {
    assert (chunks + [c])[..|chunks|] == chunks;
  }

  lemma FailedInput(codec: Codec, chunks: seq<Chunk>, rest: seq<byte>, clean: bool, emit: nat -> bool)
    requires PumpChunks(codec, chunks, emit).out.failed
    ensures PumpOf(codec, Input(chunks, rest, clean), emit) == PumpChunks(codec, chunks, emit).out
  {
    hide PumpChunks;
    var more := chunks + (if rest == [] then [] else [Payload(rest)]);
    if rest == [] { assert more == chunks; } else { OneMoreChunk(codec, chunks, Payload(rest), emit); }
    if clean { assert more + [] == more; } else { OneMoreChunk(codec, more, ReadError, emit); }
  }

  /** What one stream must amount to, in terms of what the host served and nothing else. */
  ghost predicate StreamOutcome(codec: Codec, host: seq<Pump.Read>, emit: nat -> bool, ok: bool, emitted: seq<Frame>) {
    Outcome(codec, HostStream.Served(host), HostStream.CleanEnd(host), emit, ok, emitted)
  }

  lemma BrokenInput(codec: Codec, chunks: seq<Chunk>, emit: nat -> bool)
    requires !PumpChunks(codec, chunks, emit).out.failed
    ensures var r := PumpOf(codec, Input(chunks, [], false), emit);
            r.failed && r.emitted == PumpChunks(codec, chunks, emit).out.emitted
  {
    hide PumpChunks;
    OneMoreChunk(codec, chunks, ReadError, emit);
    assert chunks + [] == chunks;
  }

  /** The relay over the whole input, when the loop has stopped with this much of it read. */
  lemma OutcomeOf(codec: Codec, host: seq<Pump.Read>, chunks: seq<Chunk>, rest: seq<byte>,
                  emit: nat -> bool, ok: bool, emitted: seq<Frame>)
    requires Clean(chunks) && StreamText(chunks) + rest == HostStream.Served(host)
    requires var r := PumpOf(codec, Input(chunks, rest, HostStream.CleanEnd(host)), emit);
             ok == !r.failed && emitted == r.emitted
    ensures StreamOutcome(codec, host, emit, ok, emitted)
  {
    hide PumpOf, StreamText, Clean, Input, Outcome;
    InputIs(chunks, rest, HostStream.CleanEnd(host));
    PumpCommits(codec, Input(chunks, rest, HostStream.CleanEnd(host)), emit);
  }

  lemma NothingRead(codec: Codec, emit: nat -> bool)
    ensures PumpChunks(codec, [], emit) == Pumping(FRESH, IDLE)
    ensures Clean([]) && StreamText([]) == [] && Size(PLAIN, []) == 0
  {
  }

  /** What the loop knows between two reads. */
  ghost predicate Going(codec: Codec, host: seq<Pump.Read>, b: HostStream.Body, chunks: seq<Chunk>, s: Pumping,
      emit: nat -> bool) {
    && HostStream.Valid(b) && !b.closed
    && PumpChunks(codec, chunks, emit) == s && !s.out.failed
    && Clean(chunks) && StreamText(chunks) + HostStream.Coming(b, host) == HostStream.Served(host)
    && HostStream.WillEnd(b, host) == HostStream.CleanEnd(host)
  }

  /** A read that returned bytes: one more chunk, and so much less to come. */
  lemma ReadGoes(codec: Codec, host: seq<Pump.Read>, b: HostStream.Body, b': HostStream.Body, r: HostStream.Result,
                 chunks: seq<Chunk>, s: Pumping, emit: nat -> bool)
    requires Going(codec, host, b, chunks, s, emit) && HostStream.IsNext(b, b', r, host) && r.status.Fine?
    ensures var c := Payload(r.bytes);
            && PumpChunks(codec, chunks + [c], emit) == PumpChunk(codec, s, c, emit)
            && Clean(chunks + [c]) && StreamText(chunks + [c]) + HostStream.Coming(b', host) == HostStream.Served(host)
            && (!PumpChunk(codec, s, c, emit).out.failed
                ==> Going(codec, host, b', chunks + [c], PumpChunk(codec, s, c, emit), emit))
            && |HostStream.Coming(b', host)| < |HostStream.Coming(b, host)|
  {
    hide PumpChunk, PumpChunks, StreamText, Clean, HostStream.Coming, HostStream.WillEnd, HostStream.Served,
         HostStream.CleanEnd;
    OneMoreChunk(codec, chunks, Payload(r.bytes), emit);
    BytesAppend(chunks, Payload(r.bytes));
    assert StreamText(chunks) + (r.bytes + HostStream.Coming(b', host)) == StreamText(chunks) + r.bytes
        + HostStream.Coming(b', host);
  }

  /** How a stream that fails on a chunk, or ends, or breaks, comes out. */
  lemma FailsOut(codec: Codec, host: seq<Pump.Read>, chunks: seq<Chunk>, rest: seq<byte>, emit: nat -> bool)
    requires Clean(chunks) && StreamText(chunks) + rest == HostStream.Served(host)
    requires PumpChunks(codec, chunks, emit).out.failed
    ensures StreamOutcome(codec, host, emit, false, PumpChunks(codec, chunks, emit).out.emitted)
  {
    hide PumpOf, PumpChunks, StreamText, Clean, Input, StreamOutcome;
    FailedInput(codec, chunks, rest, HostStream.CleanEnd(host), emit);
    OutcomeOf(codec, host, chunks, rest, emit, false, PumpChunks(codec, chunks, emit).out.emitted);
  }

  lemma EndsOut(codec: Codec, host: seq<Pump.Read>, b: HostStream.Body, b': HostStream.Body, r: HostStream.Result,
                chunks: seq<Chunk>, s: Pumping, emit: nat -> bool)
    requires Going(codec, host, b, chunks, s, emit) && HostStream.IsNext(b, b', r, host) && !r.status.Fine?
    ensures r.status.Eof?
            ==> var o := PumpOf(codec, chunks, emit); StreamOutcome(codec, host, emit, !o.failed, o.emitted)
    ensures r.status.Broken? ==> StreamOutcome(codec, host, emit, false, s.out.emitted)
  {
    hide PumpOf, PumpChunks, StreamText, Clean, Input, StreamOutcome, HostStream.Coming, HostStream.WillEnd;
    var clean := HostStream.CleanEnd(host);
    assert StreamText(chunks) + [] == StreamText(chunks);
    InputIs(chunks, [], clean);
    var o := PumpOf(codec, Input(chunks, [], clean), emit);
    if r.status.Broken? {
      BrokenInput(codec, chunks, emit);
    }
    OutcomeOf(codec, host, chunks, [], emit, !o.failed, o.emitted);
  }

  /** The host bridge of one stream: how often it was closed, and whether with an empty message. */
  class StreamBridge {
    var closes: nat
    var success: bool

    constructor ()
      ensures closes == 0
    {
      closes, success := 0, false;
    }

    method Close(success: bool)
      modifies this
      ensures closes == old(closes) + 1 && this.success == success
    {
      closes, this.success := closes + 1, success;
    }
  }

  /** The end of a stream: the upstream body is closed, then the bridge. */
  method CloseBoth(body: HostStreamBody, bridge: StreamBridge, success: bool)
    requires HostStream.Valid(body.State())
    modifies body, bridge
    ensures body.closed && body.closes == 1
    ensures bridge.closes == old(bridge.closes) + 1 && bridge.success == success
  {
    body.Close();
    bridge.Close(success);
  }

  /**
    One stream.  Every exit closes the body and the bridge, and the bridge's message tells success.
    The outcome depends neither on the read size nor on how the host cut its payloads.
   */
  method PumpUpstreamStream(codec: Codec, body: HostStreamBody, bridge: StreamBridge, size: nat, emit: nat -> bool)
    returns (emitted: seq<Frame>)
    requires 0 < size && body.State() == HostStream.OPENED
    modifies body, bridge
    ensures StreamOutcome(codec, body.host, emit, bridge.success, emitted)
    ensures bridge.closes == old(bridge.closes) + 1 && body.closed && body.closes == 1
  {
    hide Feed, TakeSome, PumpChunks, Complete, Going, StreamOutcome, HostStream.ReadOnce, HostStream.Coming,
         HostStream.IsNext, HostStream.Valid, HostStream.Closed, Flush, Size, PumpChunk, PumpOf;
    var parser := new StreamParser(codec, DEFAULT_LIMIT);
    var withheld: seq<Frame>, withheldBytes := [], 0;
    emitted := [];
    var readBuf := new byte[size];
    ghost var host := body.host;
    ghost var chunks: seq<Chunk> := [];
    GoingAtFirst(codec, host, emit);
    while true
      modifies body, bridge, parser, readBuf
      invariant fresh(parser) && parser.codec == codec && parser.limit == DEFAULT_LIMIT && fresh(readBuf)
      invariant withheldBytes == Size(PLAIN, withheld) && bridge.closes == old(bridge.closes)
      invariant Going(codec, host, body.State(), chunks, Held(parser, withheld, emitted), emit)
      decreases |HostStream.Coming(body.State(), host)|
    {
      ghost var b, s := body.State(), Held(parser, withheld, emitted);
      GoingIs(codec, host, b, chunks, s, emit);
      HostStream.ReadIsNext(b, host, size);
      ghost var read := HostStream.ReadOnce(b, host, size);
      NextIsValid(b, read.0, read.1, host);
      var n, status := body.Read(readBuf);
      if status.Fine? {
        ReadGoes(codec, host, b, read.0, read.1, chunks, s, emit);
        ChunkIs(codec, s, read.1.bytes, emit);
        chunks := chunks + [Payload(read.1.bytes)];
        var events := parser.Feed(readBuf[..n]);
        if events.None? {
          FailsOut(codec, host, chunks, HostStream.Coming(read.0, host), emit);
          CloseBoth(body, bridge, false);
          return;
        }
        var taken;
        taken, withheld, withheldBytes, emitted := TakeAll(codec, withheld, withheldBytes, emitted, events.value, emit);
        if !taken {
          FailsOut(codec, host, chunks, HostStream.Coming(read.0, host), emit);
          CloseBoth(body, bridge, false);
          return;
        }
      } else {
        EndsOut(codec, host, b, read.0, read.1, chunks, s, emit);
        if status.Broken? {
          CloseBoth(body, bridge, false);
          return;
        }
        EofIs(codec, chunks, s, emit);
        emitted := AtEof(parser, body, bridge, s.out, withheld, emitted, emit);
        return;
      }
    }
  }

  /** Real EOF: the parser must have finished, then what was withheld goes out. */
  method AtEof(parser: StreamParser, body: HostStreamBody, bridge: StreamBridge, ghost r: Relay, withheld: seq<Frame>,
               emitted0: seq<Frame>, emit: nat -> bool)
    returns (emitted: seq<Frame>)
    requires HostStream.Valid(body.State()) && !r.failed && r.held == withheld && r.emitted == emitted0
    modifies parser, body, bridge
    ensures var o := if Complete(old(parser.State())) then Flush(r, emit) else r.(failed := true);
            bridge.success == !o.failed && emitted == o.emitted
    ensures bridge.closes == old(bridge.closes) + 1 && body.closed && body.closes == 1
  {
    hide Flush, HostStream.Valid;
    emitted := emitted0;
    var finished := parser.Finish();
    if !finished {
      CloseBoth(body, bridge, false);
      return;
    }
    var sent;
    sent, emitted := EmitAll(r, withheld, emitted, emit);
    if !sent {
      CloseBoth(body, bridge, false);
      return;
    }
    CloseBoth(body, bridge, true);
  }

  lemma EofIs(codec: Codec, chunks: seq<Chunk>, s: Pumping, emit: nat -> bool)
    requires PumpChunks(codec, chunks, emit) == s && !s.out.failed
    ensures PumpOf(codec, chunks, emit) == if Complete(s.parser) then Flush(s.out, emit) else s.out.(failed := true)
  {
  }

  /** The loop's variables as a state of the specification. */
  ghost function Held(parser: StreamParser, withheld: seq<Frame>, emitted: seq<Frame>): Pumping
    reads parser
  {
    Pumping(parser.State(), Relay(Response.FRESH, withheld, withheld != [], emitted, false))
  }

  lemma GoingAtFirst(codec: Codec, host: seq<Pump.Read>, emit: nat -> bool)
    ensures Going(codec, host, HostStream.OPENED, [], Pumping(FRESH, IDLE), emit)
    ensures Size(PLAIN, []) == 0
  {
    HostStream.Fresh(host);
    NothingRead(codec, emit);
  }

  lemma GoingIs(codec: Codec, host: seq<Pump.Read>, b: HostStream.Body, chunks: seq<Chunk>, s: Pumping,
                emit: nat -> bool)
    requires Going(codec, host, b, chunks, s, emit)
    ensures HostStream.Valid(b) && !b.closed && PumpChunks(codec, chunks, emit) == s && !s.out.failed
  {
  }

  lemma ChunkIs(codec: Codec, s: Pumping, bytes: seq<byte>, emit: nat -> bool)
    requires !s.out.failed
    ensures var (p, events) := Feed(codec, DEFAULT_LIMIT, s.parser, bytes);
            PumpChunk(codec, s, Payload(bytes), emit)
            == Pumping(p, if p.failed then s.out.(failed := true) else TakeSome(codec, s.out, events, emit))
  {
  }

  lemma NextIsValid(b: HostStream.Body, b': HostStream.Body, r: HostStream.Result, host: seq<Pump.Read>)
    requires HostStream.IsNext(b, b', r, host)
    ensures HostStream.Valid(b')
  {
  }

  /** The inner loop: the events of one read. */
  method TakeAll(codec: Codec, withheld0: seq<Frame>, bytes0: nat, emitted0: seq<Frame>, events: seq<StreamEvent>,
                 emit: nat -> bool)
    returns (ok: bool, withheld: seq<Frame>, withheldBytes: nat, emitted: seq<Frame>)
    requires bytes0 == Size(PLAIN, withheld0)
    ensures var r := TakeSome(codec, Relay(Response.FRESH, withheld0, withheld0 != [], emitted0, false), events, emit);
            && ok == !r.failed && emitted == r.emitted
            && (ok ==>
                  && r == Relay(Response.FRESH, withheld, withheld != [], emitted, false)
                  && withheldBytes == Size(PLAIN, withheld))
  {
    hide TakeSome, TakeEvent, Size, FrameOf;
    ok, withheld, withheldBytes, emitted := true, withheld0, bytes0, emitted0;
    TakenNothing(codec, Relay(Response.FRESH, withheld0, withheld0 != [], emitted0, false), events, emit);
    ghost var r0 := Relay(Response.FRESH, withheld0, withheld0 != [], emitted0, false);
    for i := 0 to |events|
      invariant withheldBytes == Size(PLAIN, withheld)
      invariant TakeSome(codec, r0, events[..i], emit)
                == Relay(Response.FRESH, withheld, withheld != [], emitted, false)
    {
      var event := events[i];
      TakenOne(codec, r0, events, i, emit);
      TakingStops(codec, r0, events, i + 1, emit);
      if event.done {
        if !event.successful { return false, withheld, withheldBytes, emitted; }
        continue;
      }
      if |event.data| == 0 { continue; }
      var frame := FrameOf(codec, event);
      FrameIs(codec, event);
      EventTaken(Relay(Response.FRESH, withheld, withheld != [], emitted, false), frame, emit);
      if |withheld| == 0 && event.finishReason == "" && !codec.carriesCalls(event.data) {
        var sent := emit(|emitted|);
        emitted := emitted + [frame];
        if !sent { return false, withheld, withheldBytes, emitted; }
        continue;
      }
      SizeAppend(PLAIN, withheld, frame);
      withheld := withheld + [frame];
      withheldBytes := withheldBytes + |event.data|;
      if withheldBytes > Response.HELD_LIMIT { return false, withheld, withheldBytes, emitted; }
    }
    assert events[..|events|] == events;
  }

  lemma TakenNothing(codec: Codec, r: Relay, events: seq<StreamEvent>, emit: nat -> bool)
    ensures TakeSome(codec, r, events[..0], emit) == r
  {
  }

  lemma TakenOne(codec: Codec, r: Relay, events: seq<StreamEvent>, i: nat, emit: nat -> bool)
    requires i < |events|
    ensures TakeSome(codec, r, events[..i + 1], emit)
            == TakeOne(codec, TakeSome(codec, r, events[..i], emit), events[i], emit)
  {
    assert events[..i + 1][..i] == events[..i];
  }

  lemma FrameIs(codec: Codec, e: StreamEvent)
    ensures var f := FrameOf(codec, e);
            PLAIN.render(f) == f.raw == e.data && f.hold == (e.finishReason != "" || codec.carriesCalls(e.data))
  {
  }

  lemma EventTaken(r: Relay, f: Frame, emit: nat -> bool)
    requires !r.failed
    ensures var r' := TakeEvent(PLAIN, r, f, emit);
            if r.holding || f.hold then
              && r'.emitted == r.emitted && r'.decoder == r.decoder
              && (Size(PLAIN, r.held + [f]) > Response.HELD_LIMIT <==> r'.failed)
              && (!r'.failed ==> r'.holding && r'.held == r.held + [f])
            else r' == Emit(r, f, emit)
  {
  }

  lemma {:induction false} TakingStops(codec: Codec, r: Relay, events: seq<StreamEvent>, i: nat, emit: nat -> bool)
    requires i <= |events|
    ensures TakeSome(codec, r, events[..i], emit).failed ==>
              TakeSome(codec, r, events, emit) == TakeSome(codec, r, events[..i], emit)
    decreases |events| - i
  {
    if i < |events| {
      TakingStops(codec, r, events, i + 1, emit);
      assert events[..i + 1][..i] == events[..i];
    } else {
      assert events[..i] == events;
    }
  }

  /** The commit: what was withheld goes out in order, up to the first emission that fails. */
  method EmitAll(ghost r: Relay, withheld: seq<Frame>, emitted0: seq<Frame>, emit: nat -> bool)
    returns (ok: bool, emitted: seq<Frame>)
    requires !r.failed && r.held == withheld && r.emitted == emitted0
    ensures ok == !Flush(r, emit).failed && emitted == Flush(r, emit).emitted
  {
    emitted := emitted0;
    for i := 0 to |withheld|
      invariant Flush(r, emit) == Flush(r.(held := withheld[i..], emitted := emitted), emit)
    {
      var sent := emit(|emitted|);
      emitted := emitted + [withheld[i]];
      assert withheld[i..][1..] == withheld[i + 1..];
      if !sent { return false, emitted; }
    }
    ok := true;
  }
}
