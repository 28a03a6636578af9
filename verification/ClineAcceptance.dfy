/** Which streams plugins/cline/stream.go and the pump over it accept, stated over the frames of the text. */
module ClineAcceptance {
  import opened Prelude
  import opened Sse
  import opened ClineStream
  import ClinePump
  import Response

  /** The finish reason the frames have given so far. */
  function FinishOf(codec: Codec, frames: seq<seq<byte>>): string {
    if frames == [] then ""
    else
      var before, b := FinishOf(codec, frames[..|frames| - 1]), codec.parse(frames[|frames| - 1]);
      if frames[|frames| - 1] != [91, 68, 79, 78, 69, 93] && b.Body? && |b.choices| == 1 && b.choices[0].finish.Some?
      then b.choices[0].finish.value else before
  }

  /** One choice of index zero, before the finish, with a supported reason if any; or usage alone. */
  predicate Follows(finish: string, b: Body) {
    && b.Body? && !b.error && |b.choices| <= 1
    && (b.choices == [] ==> b.usage)
    && (b.choices != [] ==>
          && finish == "" && b.choices[0].index == 0
          && (b.choices[0].finish.Some? ==>
                var reason := b.choices[0].finish.value;
                reason == "stop" || reason == "tool_calls" || reason == "length" || reason == "content_filter"))
  }

  predicate FrameOk(codec: Codec, before: seq<seq<byte>>, raw: seq<byte>) {
    if raw == [91, 68, 79, 78, 69, 93] then FinishOf(codec, before) != ""
    else raw != [] && Follows(FinishOf(codec, before), codec.parse(raw))
  }

  ghost predicate FramesOk(codec: Codec, frames: seq<seq<byte>>) {
    forall i :: 0 <= i < |frames| ==> FrameOk(codec, frames[..i], frames[i])
  }

  /** Nothing follows DONE, not even a line end; before it line and pending data stay within the limit. */
  ghost predicate ByteFits(limit: nat, before: seq<byte>, b: byte) {
    && [91, 68, 79, 78, 69, 93] !in Frames(Lines(before))
    && (b != 10 ==> |OpenLine(before)| + 1 + |Join(Pending(Lines(before)))| <= limit)
  }

  ghost predicate Fits(limit: nat, text: seq<byte>) {
    forall i :: 0 <= i < |text| ==> ByteFits(limit, text[..i], text[i])
  }

  /** The parser of an accepted text, read off its frames. */
  ghost predicate ParsedAs(codec: Codec, limit: nat, text: seq<byte>, p: Parser) {
    && p.framer == FramerAfter(text) && Bounded(p.framer, limit)
    && p.finish == FinishOf(codec, Frames(Lines(text)))
    && (p.done <==> DONE_MARK in Frames(Lines(text)))
  }

  lemma FinishAppend(codec: Codec, frames: seq<seq<byte>>, raw: seq<byte>)
    ensures FramesOk(codec, frames + [raw]) <==> FramesOk(codec, frames) && FrameOk(codec, frames, raw)
    ensures FrameOk(codec, frames, raw) <==> Decode(codec, FinishOf(codec, frames), raw).Some?
    ensures FrameOk(codec, frames, raw) ==>
              FinishOf(codec, frames + [raw]) == Decode(codec, FinishOf(codec, frames), raw).value.finishReason
    ensures DONE_MARK in frames + [raw] <==> DONE_MARK in frames || raw == DONE_MARK
  {
    var all := frames + [raw];
    assert all[..|frames|] == frames && all[|frames|] == raw;
    assert forall x :: x in all <==> x in frames || x == raw;
    assert FramesOk(codec, all) <==> FramesOk(codec, frames) && FrameOk(codec, frames, raw) by {
      hide FrameOk;
      assert forall i :: 0 <= i < |frames| ==> all[..i] == frames[..i] && all[i] == frames[i];
    }
  }

  lemma FitsAppend(limit: nat, text: seq<byte>, b: byte)
    ensures Fits(limit, text + [b]) <==> Fits(limit, text) && ByteFits(limit, text, b)
  {
    hide ByteFits;
    var all := text + [b];
    assert all[..|text|] == text && all[|text|] == b;
    assert forall i :: 0 <= i < |text| ==> all[..i] == text[..i] && all[i] == text[i];
  }

  lemma ByteAccepted(codec: Codec, limit: nat, text: seq<byte>, p: Parser, b: byte)
    requires ParsedAs(codec, limit, text, p) && !p.failed && FramesOk(codec, Frames(Lines(text)))
    ensures var q := ParseByte(codec, limit, p, b).0;
            && (!q.failed <==> ByteFits(limit, text, b) && FramesOk(codec, Frames(Lines(text + [b]))))
            && (!q.failed ==> ParsedAs(codec, limit, text + [b], q))
  {
    hide Lines, OpenLine, Pending, Frames, Join, FramesOk, FrameOk, FinishOf, Decode, Bounded;
    if !p.done {
      PushFits(limit, text, b);
      var step := Push(p.framer, b, limit);
      if step != Overflow {
        PushFollowsSpec(text, b, limit);
        PushBounded(p.framer, b, limit);
        var frames := Frames(Lines(text));
        if step.Quiet? {
          assert frames + [] == frames;
        } else {
          FinishAppend(codec, frames, step.frame);
          DecodeIs(codec, p.finish, step.frame);
        }
      }
    }
  }

  lemma DecodeIs(codec: Codec, finish: string, raw: seq<byte>)
    ensures Decode(codec, finish, raw).Some? ==> (Decode(codec, finish, raw).value.done <==> raw == DONE_MARK)
  {
  }

  lemma PushFits(limit: nat, text: seq<byte>, b: byte)
    requires Bounded(FramerAfter(text), limit)
    ensures Push(FramerAfter(text), b, limit) == Overflow
            <==> b != LF && |OpenLine(text)| + 1 + |Join(Pending(Lines(text)))| > limit
  {
    hide Lines, OpenLine, Pending, Join;
    JoinNeverOverflows(FramerAfter(text), limit);
  }

  /** A text is not rejected exactly when every byte fits and every frame follows those before it. */
  lemma {:induction false} TextAccepted(codec: Codec, limit: nat, text: seq<byte>)
    ensures var p := Whole(codec, limit, text).0;
            && (!p.failed <==> Fits(limit, text) && FramesOk(codec, Frames(Lines(text))))
            && (!p.failed ==> ParsedAs(codec, limit, text, p))
  {
    hide ParseByte, ByteFits, Fits, FramesOk, Frames, Lines, ParsedAs;
    if text == [] {
      NothingParsed(codec, limit);
    } else {
      var init, b := text[..|text| - 1], text[|text| - 1];
      assert init + [b] == text;
      TextAccepted(codec, limit, init);
      FitsAppend(limit, init, b);
      var p := Whole(codec, limit, init).0;
      FailedStays(codec, limit, p, b);
      if p.failed {
        FramesOkPrefix(codec, init, b);
      } else {
        ByteAccepted(codec, limit, init, p, b);
      }
    }
  }

  lemma NothingParsed(codec: Codec, limit: nat)
    ensures Fits(limit, []) && FramesOk(codec, Frames(Lines([]))) && ParsedAs(codec, limit, [], FRESH)
  {
    StartIsEmpty();
  }

  lemma FramesOkPrefix(codec: Codec, text: seq<byte>, b: byte)
    ensures FramesOk(codec, Frames(Lines(text + [b]))) ==> FramesOk(codec, Frames(Lines(text)))
  {
    hide Lines, OpenLine, Pending, Frames, StripCr, DataValue, Join, FramesOk;
    LinesAppend(text, b);
    if b == LF {
      PendingAppend(Lines(text), OpenLine(text));
      var frames := Frames(Lines(text));
      assert frames + [] == frames;
      FinishAppend(codec, frames, Join(Pending(Lines(text))));
    }
  }

  // ---- the events of a text ----

  /** One event a frame: DONE with its success, or the frame with the finish reason known by then. */
  function EventsOf(codec: Codec, frames: seq<seq<byte>>): seq<StreamEvent> {
    if frames == [] then []
    else
      var raw, reason := frames[|frames| - 1], FinishOf(codec, frames);
      EventsOf(codec, frames[..|frames| - 1])
      + [if raw == [91, 68, 79, 78, 69, 93]
         then StreamEvent([], true, reason == "stop" || reason == "tool_calls", reason)
         else StreamEvent(raw, false, false, reason)]
  }

  lemma EventsAppend(codec: Codec, frames: seq<seq<byte>>, raw: seq<byte>)
    requires FrameOk(codec, frames, raw)
    ensures EventsOf(codec, frames + [raw])
            == EventsOf(codec, frames) + [Decode(codec, FinishOf(codec, frames), raw).value]
  {
    FinishAppend(codec, frames, raw);
    assert (frames + [raw])[..|frames|] == frames;
  }

  /** The events of an accepted text, exactly. */
  lemma {:induction false} EventsAreExact(codec: Codec, limit: nat, text: seq<byte>)
    requires !Whole(codec, limit, text).0.failed
    ensures Whole(codec, limit, text).1 == EventsOf(codec, Frames(Lines(text)))
  {
    hide ByteFits, Fits, FramesOk, Frames, Lines, FinishOf, EventsOf, FramerAfter, FrameOk;
    if text == [] {
      StartIsEmpty();
      NoEvents(codec);
    } else {
      var init, b := text[..|text| - 1], text[|text| - 1];
      assert init + [b] == text;
      var (p, events) := Whole(codec, limit, init);
      FailedStays(codec, limit, p, b);
      EventsAreExact(codec, limit, init);
      TextAccepted(codec, limit, init);
      ByteGives(codec, limit, init, p, b);
    }
  }

  lemma NoEvents(codec: Codec)
    ensures EventsOf(codec, []) == []
  {
  }

  lemma ByteGives(codec: Codec, limit: nat, text: seq<byte>, p: Parser, b: byte)
    requires ParsedAs(codec, limit, text, p) && !p.failed && FramesOk(codec, Frames(Lines(text)))
    requires !ParseByte(codec, limit, p, b).0.failed
    ensures EventsOf(codec, Frames(Lines(text + [b])))
            == EventsOf(codec, Frames(Lines(text))) + ParseByte(codec, limit, p, b).1
  {
    hide Lines, OpenLine, Pending, Frames, Join, FramesOk, FrameOk, FinishOf, Decode, Bounded, EventsOf;
    PushFollowsSpec(text, b, limit);
    var step, frames := Push(p.framer, b, limit), Frames(Lines(text));
    if step.Quiet? {
      assert frames + [] == frames && EventsOf(codec, frames) + [] == EventsOf(codec, frames);
    } else {
      FinishAppend(codec, frames, step.frame);
      EventsAppend(codec, frames, step.frame);
    }
  }

  /** What the pump emits for these frames: as they came, withheld for tool calls or from the finish reason on. */
  function Emitted(codec: Codec, frames: seq<seq<byte>>): seq<ClinePump.Frame> {
    if frames == [] then []
    else
      var raw := frames[|frames| - 1];
      Emitted(codec, frames[..|frames| - 1])
      + (if raw == [91, 68, 79, 78, 69, 93] then []
         else [Response.Event(raw, None, codec.carriesCalls(raw) || FinishOf(codec, frames) != "")])
  }

  lemma {:induction false} EmittedAre(codec: Codec, frames: seq<seq<byte>>)
    requires FramesOk(codec, frames)
    ensures ClinePump.DataFrames(codec, EventsOf(codec, frames)) == Emitted(codec, frames)
  {
    hide FinishOf, FrameOk, ClinePump.DataFrames;
    if frames == [] {
      NoData(codec);
    } else {
      var init, raw := frames[..|frames| - 1], frames[|frames| - 1];
      assert init + [raw] == frames;
      FinishAppend(codec, init, raw);
      EmittedAre(codec, init);
      EventCount(codec, frames);
      var e := EventsOf(codec, frames)[|init|];
      assert EventsOf(codec, frames) == EventsOf(codec, init) + [e] by { EventCount(codec, init); }
      hide EventsOf;
      ClinePump.EventsAppend(codec, EventsOf(codec, init), e);
      FrameHasBytes(codec, init, raw);
    }
  }

  lemma NoData(codec: Codec)
    ensures ClinePump.DataFrames(codec, EventsOf(codec, [])) == []
  {
  }

  lemma FrameHasBytes(codec: Codec, before: seq<seq<byte>>, raw: seq<byte>)
    requires FrameOk(codec, before, raw)
    ensures raw != []
  {
  }

  lemma {:induction false} EventCount(codec: Codec, frames: seq<seq<byte>>)
    ensures |EventsOf(codec, frames)| == |frames|
  {
    if frames != [] { EventCount(codec, frames[..|frames| - 1]); }
  }

  /** The frames of an accepted text as the pump sees them, exactly. */
  lemma FramesAreExact(codec: Codec, text: seq<byte>)
    requires !ClinePump.Parsed(codec, text).0.failed
    ensures ClinePump.FramesOf(codec, text) == Emitted(codec, Frames(Lines(text)))
  {
    hide ParseBytes, Fits, FramesOk, Frames, Lines, FinishOf, EventsOf, Emitted, ClinePump.DataFrames;
    EventsAreExact(codec, DEFAULT_LIMIT, text);
    TextAccepted(codec, DEFAULT_LIMIT, text);
    EmittedAre(codec, Frames(Lines(text)));
  }

  /**
    The texts the pump may commit, exactly: every frame follows those before it, within the limit,
    the last of them DONE, and the finish reason stop or tool_calls.
   */
  lemma AcceptableIsExact(codec: Codec, text: seq<byte>)
    ensures var frames := Frames(Lines(text));
            ClinePump.Acceptable(codec, text)
            <==> && Fits(1_048_576, text) && FramesOk(codec, frames)
                 && [91, 68, 79, 78, 69, 93] in frames
                 && (FinishOf(codec, frames) == "stop" || FinishOf(codec, frames) == "tool_calls")
  {
    hide ParseBytes, Fits, FramesOk, Frames, Lines, FinishOf, FramerAfter;
    TextAccepted(codec, DEFAULT_LIMIT, text);
    var (p, events) := Whole(codec, DEFAULT_LIMIT, text);
    if !p.failed {
      CompleteEndsInDone(codec, DEFAULT_LIMIT, text);
      if p.done {
        assert ClinePump.BadEnd(events) <==> !events[|events| - 1].successful;
      }
    }
  }
}
