/** What the response decoder computes, whatever the chunking: framing, assembly, tool fragments. */
module ResponseTheorems {
  import opened Prelude
  import opened Sse
  import opened Response

  // ---- chunk independence ----

  /** The decoder and events after a text read in one go, with the size check set aside. */
  function Whole(codec: Codec, text: seq<byte>): (Decoder, seq<Event>) {
    DecodeBytes(codec, FRESH, text)
  }

  /** When a text is rejected, in any chunking. */
  predicate Rejects(codec: Codec, text: seq<byte>) {
    |text| > TOTAL_LIMIT || Whole(codec, text).0.failed
  }

  lemma {:induction false} BytesConcat(codec: Codec, d: Decoder, a: seq<byte>, b: seq<byte>)
    ensures var (d1, before) := DecodeBytes(codec, d, a);
            var (d2, last) := DecodeBytes(codec, d1, b);
            DecodeBytes(codec, d, a + b) == (d2, before + last)
  {
    hide DecodeByte;
    if b == [] {
      assert a + b == a;
      var (d1, before) := DecodeBytes(codec, d, a);
      assert before + [] == before;
    } else {
      var init := b[..|b| - 1];
      BytesConcat(codec, d, a, init);
      assert (a + b)[..|a + b| - 1] == a + init && (a + b)[|a + b| - 1] == b[|b| - 1];
      var (d1, before) := DecodeBytes(codec, d, a);
      var (d2, middle) := DecodeBytes(codec, d1, init);
      var last := DecodeByte(codec, d2, b[|b| - 1]).1;
      assert before + (middle + last) == (before + middle) + last;
    }
  }

  lemma ByteIgnoresTotal(codec: Codec, d: Decoder, total: nat, b: byte)
    ensures var (d', events) := DecodeByte(codec, d, b);
            d'.total == d.total && DecodeByte(codec, d.(total := total), b) == (d'.(total := total), events)
  {
    hide Push, DecodeFrame;
  }

  lemma {:induction false} BytesIgnoreTotal(codec: Codec, d: Decoder, total: nat, bytes: seq<byte>)
    ensures var (d', events) := DecodeBytes(codec, d, bytes);
            d'.total == d.total && DecodeBytes(codec, d.(total := total), bytes) == (d'.(total := total), events)
  {
    hide DecodeByte;
    if bytes != [] {
      BytesIgnoreTotal(codec, d, total, bytes[..|bytes| - 1]);
      ByteIgnoresTotal(codec, DecodeBytes(codec, d, bytes[..|bytes| - 1]).0, total, bytes[|bytes| - 1]);
    }
  }

  lemma {:induction false} FailureIsSticky(codec: Codec, d: Decoder, bytes: seq<byte>)
    requires d.failed
    ensures DecodeBytes(codec, d, bytes) == (d, [])
  {
    if bytes != [] {
      FailureIsSticky(codec, d, bytes[..|bytes| - 1]);
      assert DecodeByte(codec, d, bytes[|bytes| - 1]) == (d, []);
      var none: seq<Event> := [];
      assert none + none == none;
    }
  }

  /** A fed decoder: rejected exactly when its bytes are, and otherwise the one of the whole text. */
  lemma {:induction false} ChunkedIsWhole(codec: Codec, chunks: seq<seq<byte>>)
    ensures var (d, events) := FeedAll(codec, FRESH, chunks);
            var text := Concat(chunks);
            && (d.failed <==> Rejects(codec, text))
            && (!d.failed ==> d == Whole(codec, text).0.(total := |text|) && events == Whole(codec, text).1)
  {
    hide DecodeBytes;
    if chunks == [] {
      assert DecodeBytes(codec, FRESH, []) == (FRESH, []) by { NoBytes(codec); }
    } else {
      var init, last := chunks[..|chunks| - 1], chunks[|chunks| - 1];
      ChunkedIsWhole(codec, init);
      var before := Concat(init);
      var d := FeedAll(codec, FRESH, init).0;
      var whole := Whole(codec, before).0;
      BytesConcat(codec, FRESH, before, last);
      if whole.failed {
        FailureIsSticky(codec, whole, last);
      } else if !d.failed {
        BytesIgnoreTotal(codec, whole, |before| + |last|, last);
      }
    }
  }

  lemma NoBytes(codec: Codec)
    ensures DecodeBytes(codec, FRESH, []) == (FRESH, [])
  {
  }

  /** Chunk independence: any two splits of one text fail together, or yield the same state and events. */
  lemma ChunkIndependence(codec: Codec, a: seq<seq<byte>>, b: seq<seq<byte>>)
    requires Concat(a) == Concat(b)
    ensures var (d, events) := FeedAll(codec, FRESH, a);
            var (d', events') := FeedAll(codec, FRESH, b);
            && (d.failed <==> d'.failed)
            && (!d.failed ==> d == d' && events == events')
  {
    hide DecodeBytes, FeedAll;
    ChunkedIsWhole(codec, a);
    ChunkedIsWhole(codec, b);
  }

  lemma OneFeed(codec: Codec, text: seq<byte>)
    ensures FeedAll(codec, FRESH, [text]) == Feed(codec, FRESH, text)
    ensures Concat([text]) == text
  {
    hide Feed;
    assert [text][..0] == [];
    assert [] + Feed(codec, FRESH, text).1 == Feed(codec, FRESH, text).1;
  }

  // ---- frames ----

  function DecodeNext(codec: Codec, decoded: Option<(Reply, seq<Event>)>, raw: seq<byte>): Option<(Reply, seq<Event>)> {
    if decoded.None? then None
    else
      var next := DecodeFrame(codec, decoded.value.0, raw);
      if next.None? then None else Some((next.value.0, decoded.value.1 + next.value.1))
  }

  function DecodeFrames(codec: Codec, frames: seq<seq<byte>>): Option<(Reply, seq<Event>)> {
    if frames == [] then Some((NOTHING, []))
    else DecodeNext(codec, DecodeFrames(codec, frames[..|frames| - 1]), frames[|frames| - 1])
  }

  /** Nothing but blanks since the DONE frame: no later line can be a data line. */
  predicate OnlyBlanks(line: seq<byte>) {
    forall i :: 0 <= i < |line| ==> Blank(line[i]) && line[i] != LF
  }

  ghost predicate Framing(codec: Codec, text: seq<byte>, d: Decoder, events: seq<Event>) {
    && DecodeFrames(codec, Frames(Lines(text))) == Some((d.reply, events))
    && (!d.reply.done ==> d.framer == FramerAfter(text))
    && (d.reply.done ==> Pending(Lines(text)) == [] && OnlyBlanks(OpenLine(text))
                         && !d.framer.hasData && d.framer.line == [])
    && Bounded(d.framer, FRAME_LIMIT)
  }

  lemma BlankLineIsNotData(line: seq<byte>)
    requires OnlyBlanks(line)
    ensures StripCr(line) != [] ==> DataValue(StripCr(line)).None?
  {
    var l := StripCr(line);
    if l != [] && l[0] != COLON {
      assert l[0] == line[0];
      assert Field(l)[0] == l[0];
    }
  }

  lemma DoneFramingStep(codec: Codec, text: seq<byte>, d: Decoder, events: seq<Event>, b: byte)
    requires Framing(codec, text, d, events) && d.reply.done && Blank(b)
    ensures Framing(codec, text + [b], d, events)
  {
    hide DecodeFrames, Lines, OpenLine, Pending, Frames, DataValue, StripCr;
    LinesAppend(text, b);
    if b == LF {
      PendingAppend(Lines(text), OpenLine(text));
      BlankLineIsNotData(OpenLine(text));
      assert Frames(Lines(text)) + [] == Frames(Lines(text));
    }
  }

  lemma FramingStep(codec: Codec, text: seq<byte>, d: Decoder, events: seq<Event>, b: byte)
    requires Framing(codec, text, d, events) && !d.failed && !DecodeByte(codec, d, b).0.failed
    ensures var (d', last) := DecodeByte(codec, d, b);
            Framing(codec, text + [b], d', events + last)
  {
    hide Lines, OpenLine, Pending, Frames, Push, DecodeFrame, DecodeFrames, Bounded, Join;
    if d.reply.done {
      DoneFramingStep(codec, text, d, events, b);
      assert events + [] == events;
    } else {
      PushFollowsSpec(text, b, FRAME_LIMIT);
      PushBounded(d.framer, b, FRAME_LIMIT);
      var step := Push(d.framer, b, FRAME_LIMIT);
      if step.Quiet? {
        assert Frames(Lines(text)) + [] == Frames(Lines(text)) && events + [] == events;
      } else {
        FrameLeavesStart(d.framer, b, FRAME_LIMIT);
        OneMoreFrame(codec, Frames(Lines(text)), step.frame);
        StartOpens(text + [b]);
        DoneStays(codec, d.reply, step.frame);
      }
    }
  }

  lemma OneMoreFrame(codec: Codec, frames: seq<seq<byte>>, raw: seq<byte>)
    ensures DecodeFrames(codec, frames + [raw]) == DecodeNext(codec, DecodeFrames(codec, frames), raw)
  {
    assert (frames + [raw])[..|frames|] == frames;
  }

  lemma StartOpens(text: seq<byte>)
    requires FramerAfter(text) == START
    ensures Pending(Lines(text)) == [] && OnlyBlanks(OpenLine(text))
  {
  }

  lemma DoneStays(codec: Codec, r: Reply, raw: seq<byte>)
    requires DecodeFrame(codec, r, raw).Some?
    ensures DecodeFrame(codec, r, raw).value.0.done <==> r.done || raw == DONE_MARK
  {
    hide AddFields, AddTexts, AddTools;
  }

  /**
    The decoder is the specification: if a text is not rejected, its state and events are those of
    decoding, in order, the frames that splitting the text into lines yields.
   */
  lemma {:induction false} WholeFollowsFrames(codec: Codec, text: seq<byte>)
    requires !Whole(codec, text).0.failed
    ensures var (d, events) := Whole(codec, text); Framing(codec, text, d, events)
  {
    hide DecodeByte, Framing, FramerAfter;
    if text == [] {
      EmptyFraming(codec);
    } else {
      var init, b := text[..|text| - 1], text[|text| - 1];
      var d := Whole(codec, init).0;
      assert !d.failed by { StickyByte(codec, d, b); }
      WholeFollowsFrames(codec, init);
      FramingStep(codec, init, d, Whole(codec, init).1, b);
      assert init + [b] == text;
    }
  }

  lemma StickyByte(codec: Codec, d: Decoder, b: byte)
    ensures d.failed ==> DecodeByte(codec, d, b).0.failed
  {
  }

  lemma EmptyFraming(codec: Codec)
    ensures Framing(codec, [], FRESH, [])
  {
    StartIsEmpty();
  }

  /** Once DONE was read, the buffers are empty: the other two tests of finishResponse cannot fail. */
  lemma DoneLeavesNothing(codec: Codec, text: seq<byte>)
    requires !Whole(codec, text).0.failed && Whole(codec, text).0.reply.done
    ensures !Whole(codec, text).0.framer.hasData && Whole(codec, text).0.framer.line == []
  {
    hide DecodeBytes;
    WholeFollowsFrames(codec, text);
  }
}
