/**
  Which responses plugins/opencode/response.go accepts, stated over the frames of the text and
  nothing the decoder keeps: the buffered path succeeds on these and on no others.
 */
module Acceptance {
  import opened Prelude
  import opened Sse
  import opened Response
  import opened ResponseTheorems
  import opened Assembly

  // ---- one frame after those before it ----

  /** Identity fields are well typed and repeat what was last recorded under their name. */
  ghost predicate SameIdentity(before: seq<Body>, fields: map<string, Json>) {
    forall k :: (k == "id" || k == "model" || k == "created") && k in fields && !fields[k].shape.JNull? ==>
      && (if k == "created" then fields[k].shape.JInteger? else fields[k].shape.JText?)
      && (LastField(before, k).Some? ==> LastField(before, k).value.raw == fields[k].raw)
  }

  /** A fragment has an index in range and repeats the id and type its index already has. */
  predicate FragmentOk(before: seq<Call>, c: Call) {
    && c.index.Some? && 0 <= c.index.value <= 127 && !c.malformed
    && var mine := Of(before, c.index.value);
       && (c.id.Some? && LastId(mine) != "" ==> c.id.value == LastId(mine))
       && (c.kind.Some? && LastKind(mine) != "" ==> c.kind.value == LastKind(mine))
  }

  ghost predicate FragmentsOk(before: seq<Call>, calls: seq<Call>) {
    forall k :: 0 <= k < |calls| ==> FragmentOk(before + calls[..k], calls[k])
  }

  predicate TextsOk(texts: map<string, TextField>) {
    forall k :: TextKey(k) && k in texts ==> !texts[k].BadText?
  }

  ghost predicate DeltaOk(before: seq<Body>, d: Delta) {
    && !d.BadDelta?
    && (d.Delta? ==>
          && (d.role.Some? ==> d.role.value == "assistant") && !d.legacyCall && !d.tools.BadTools?
          && TextsOk(d.texts)
          && (d.tools.Calls? ==> FragmentsOk(Fragments(before), d.tools.calls)))
  }

  /** A choice comes before the finish, has index zero, and ends with a supported reason if it ends. */
  ghost predicate ChoiceOk(before: seq<Body>, c: Choice) {
    && FinishOf(before) == "" && c.index == Some(0) && !c.finish.BadFinish?
    && DeltaOk(before, c.delta)
    && (c.finish.Finish? ==> Ending(c.finish.reason) != "")
  }

  ghost predicate Follows(before: seq<Body>, b: Body) {
    && b.Body? && !b.failed && SameIdentity(before, b.fields)
    && b.choices.Choices? && |b.choices.all| <= 1 && !b.usage.BadUsage?
    && (b.choices.all == [] ==> b.usage.Usage?)
    && (b.choices.all != [] ==> ChoiceOk(before, b.choices.all[0]))
  }

  lemma FieldsFollow(metadata: map<string, Json>, before: seq<Body>, fields: map<string, Json>)
    requires forall k :: k in metadata <==> LastField(before, k).Some?
    requires forall k :: k in metadata ==> LastField(before, k) == Some(metadata[k])
    ensures AddFields(metadata, fields).Some? <==> SameIdentity(before, fields)
  {
    hide LastField;
    assert forall k :: k in IDENTITY_KEYS <==> k == "id" || k == "model" || k == "created";
    hide IDENTITY_KEYS;
  }

  lemma FragmentFollows(tools: map<int, Tool>, before: seq<Call>, c: Call)
    requires Assembled(tools, before)
    ensures AddTool(tools, c).Some? <==> FragmentOk(before, c)
  {
    hide Of, LastId, LastKind, Concatenation, SteadyIdentity;
    if c.index.Some? && 0 <= c.index.value <= MAX_TOOL_INDEX && !c.malformed {
      EmptyTool();
      var tool := if c.index.value in tools then tools[c.index.value] else NO_TOOL;
      assert tool == ToolOf(Of(before, c.index.value));
    }
  }

  lemma {:induction false} FragmentsFollow(tools: map<int, Tool>, before: seq<Call>, calls: seq<Call>)
    requires Assembled(tools, before)
    ensures AddTools(tools, calls).Some? <==> FragmentsOk(before, calls)
  {
    hide Assembled, FragmentOk, AddTool;
    if calls != [] {
      var init, last := calls[..|calls| - 1], calls[|calls| - 1];
      FragmentsFollow(tools, before, init);
      assert forall k :: 0 <= k < |init| ==> init[..k] == calls[..k] && init[k] == calls[k];
      if AddTools(tools, init).Some? {
        AddToolsAssemble(tools, before, init);
        FragmentFollows(AddTools(tools, init).value, before + init, last);
        assert calls[..|init|] == init;
      }
    }
  }

  lemma ChoiceFollows(r: Reply, before: seq<Body>, c: Choice)
    requires Summarizes(r, before)
    ensures AddChoice(r, c).Some? <==> ChoiceOk(before, c)
  {
    if c.finish.Finish? { EndingIs(c.finish.reason); }
    hide AddTexts, AddTools, Normalized, Supported, Ending, FinishOf, Fragments, Pieces, LastField, LastUsage,
         Assembled,
         Concatenation, FragmentsOk,
         TextsOk;
    if c.delta.Delta? {
      TextsFollow(r.text, c.delta.texts);
      AddToolsKeepsNone(r.tools);
      if c.delta.tools.Calls? {
        FragmentsFollow(r.tools, Fragments(before), c.delta.tools.calls);
      }
    }
  }

  lemma TextsFollow(text: map<string, string>, texts: map<string, TextField>)
    ensures AddTexts(text, texts).Some? <==> TextsOk(texts)
  {
    forall k ensures k in TEXT_KEYS <==> TextKey(k) { TextKeys(k); }
    hide TEXT_KEYS, TextKey;
  }

  /** A decoder that has summarized the frames before takes exactly the frames that follow them. */
  lemma BodyFollows(r: Reply, before: seq<Body>, b: Body)
    requires Summarizes(r, before)
    ensures AddBody(r, b).Some? <==> Follows(before, b)
  {
    hide AddFields, AddChoice, ChoiceOk, SameIdentity, FinishOf, Fragments, Pieces, LastField, LastUsage, Assembled,
         Concatenation;
    if b.Body? {
      FieldsFollow(r.metadata, before, b.fields);
      if AddFields(r.metadata, b.fields).Some? && b.choices.Choices? && |b.choices.all| == 1 {
        var m := AddFields(r.metadata, b.fields).value;
        var r' := r.(metadata := m, usage := if b.usage.Usage? then Some(b.usage.usage) else r.usage);
        ChoiceFollows(r, before, b.choices.all[0]);
        ChoiceIgnores(r, r', b.choices.all[0]);
      }
    }
  }

  lemma ChoiceIgnores(r: Reply, r': Reply, c: Choice)
    requires r' == r.(metadata := r'.metadata, usage := r'.usage)
    ensures AddChoice(r, c).Some? <==> AddChoice(r', c).Some?
  {
    hide AddTexts, AddTools, Normalized, Supported;
  }

  // ---- the frames of a text ----

  /** The frames but for the DONE mark, as parsed. */
  function BodiesIn(codec: Codec, frames: seq<seq<byte>>): seq<Body> {
    if frames == [] then []
    else
      BodiesIn(codec, frames[..|frames| - 1])
      + (if frames[|frames| - 1] == DONE_MARK then [] else [ParseFrame(codec, frames[|frames| - 1])])
  }

  ghost predicate FrameOk(codec: Codec, before: seq<seq<byte>>, raw: seq<byte>) {
    if raw == [91, 68, 79, 78, 69, 93] then FinishOf(BodiesIn(codec, before)) != ""
    else raw != [] && Follows(BodiesIn(codec, before), codec.parse(raw))
  }

  lemma FrameIsBody(codec: Codec, before: seq<seq<byte>>, raw: seq<byte>)
    requires raw != DONE_MARK
    ensures FrameOk(codec, before, raw) <==> Follows(BodiesIn(codec, before), ParseFrame(codec, raw))
  {
    hide BodiesIn;
  }

  /** Every frame follows those before it, and DONE comes after a finish reason. */
  ghost predicate FramesOk(codec: Codec, frames: seq<seq<byte>>) {
    forall i :: 0 <= i < |frames| ==> FrameOk(codec, frames[..i], frames[i])
  }

  lemma BodiesAppendFrame(codec: Codec, frames: seq<seq<byte>>, raw: seq<byte>)
    ensures BodiesIn(codec, frames + [raw])
            == BodiesIn(codec, frames) + (if raw == DONE_MARK then [] else [ParseFrame(codec, raw)])
    ensures FramesOk(codec, frames + [raw]) <==> FramesOk(codec, frames) && FrameOk(codec, frames, raw)
  {
    hide FrameOk;
    var all := frames + [raw];
    assert all[..|frames|] == frames && all[|frames|] == raw;
    assert forall i :: 0 <= i < |frames| ==> all[..i] == frames[..i] && all[i] == frames[i];
  }

  /** What decoding a sequence of frames leaves: its summary, and whether DONE was among them. */
  ghost predicate Decoded(codec: Codec, frames: seq<seq<byte>>, r: Reply, events: seq<Event>) {
    && BodiesOf(codec, events) == BodiesIn(codec, frames)
    && Summarizes(r, BodiesIn(codec, frames)) && (r.done <==> DONE_MARK in frames)
  }

  lemma NoFramesDecoded(codec: Codec)
    ensures FramesOk(codec, []) && Decoded(codec, [], NOTHING, [])
  {
    EmptySummary();
    NoBodies(codec);
  }

  lemma SummaryFinish(r: Reply, bodies: seq<Body>)
    requires Summarizes(r, bodies)
    ensures r.finish == FinishOf(bodies)
  {
  }

  lemma DoneDecoded(codec: Codec, frames: seq<seq<byte>>, r: Reply, events: seq<Event>)
    requires Decoded(codec, frames, r, events)
    ensures r.finish == FinishOf(BodiesIn(codec, frames))
    ensures Decoded(codec, frames + [DONE_MARK], r.(done := true), events)
  {
    hide Summarizes, BodiesOf, FinishOf, BodiesIn, FrameOk, FramesOk;
    SummaryFinish(r, BodiesIn(codec, frames));
    SummaryOfDone(r, BodiesIn(codec, frames));
    BodiesAppendFrame(codec, frames, DONE_MARK);
    assert BodiesIn(codec, frames) + [] == BodiesIn(codec, frames);
    assert (frames + [DONE_MARK])[|frames|] == DONE_MARK;
  }

  lemma BodyDecoded(codec: Codec, frames: seq<seq<byte>>, r: Reply, events: seq<Event>, raw: seq<byte>, e: Event)
    requires Decoded(codec, frames, r, events) && raw != DONE_MARK && e.raw == raw
    ensures AddBody(r, ParseFrame(codec, raw)).Some? <==> Follows(BodiesIn(codec, frames), ParseFrame(codec, raw))
    ensures AddBody(r, ParseFrame(codec, raw)).Some? ==>
              Decoded(codec, frames + [raw], AddBody(r, ParseFrame(codec, raw)).value, events + [e])
  {
    hide Summarizes, AddBody, BodiesOf, Follows, BodiesIn, FrameOk, FramesOk, ParseFrame;
    var bodies, b := BodiesIn(codec, frames), ParseFrame(codec, raw);
    BodyFollows(r, bodies, b);
    BodiesAppendFrame(codec, frames, raw);
    if AddBody(r, b).Some? {
      BodiesAppend(codec, events, e);
      SummaryStep(r, bodies, b);
      BodyParts(r, b);
      assert DONE_MARK in frames + [raw] <==> DONE_MARK in frames by {
        assert forall x :: x in frames + [raw] <==> x in frames || x == raw;
      }
    }
  }

  /** Decoding accepts exactly these frames, and leaves their summary. */
  lemma {:induction false} FramesAccepted(codec: Codec, frames: seq<seq<byte>>)
    ensures DecodeFrames(codec, frames).Some? <==> FramesOk(codec, frames)
    ensures DecodeFrames(codec, frames).Some? ==>
              var (r, events) := DecodeFrames(codec, frames).value; Decoded(codec, frames, r, events)
  {
    hide Decoded, AddBody, Follows, FinishOf, ParseFrame, MustWait, Rewritten, FramesOk, BodiesIn;
    if frames == [] {
      NoFramesDecoded(codec);
    } else {
      var init, raw := frames[..|frames| - 1], frames[|frames| - 1];
      assert init + [raw] == frames;
      FramesAccepted(codec, init);
      BodiesAppendFrame(codec, init, raw);
      if DecodeFrames(codec, init).Some? {
        var (r, events) := DecodeFrames(codec, init).value;
        assert events + [] == events;
        if raw == DONE_MARK {
          DoneDecoded(codec, init, r, events);
        } else {
          var body := ParseFrame(codec, raw);
          FrameIsBody(codec, init, raw);
          BodyDecoded(codec, init, r, events, raw, Event(raw, Rewritten(body), MustWait(body)));
        }
      }
    }
  }

  // ---- the bytes of a text ----

  /** The next byte fits: a blank after DONE, and before it a line and pending data within the limit. */
  ghost predicate ByteFits(before: seq<byte>, b: byte) {
    if [91, 68, 79, 78, 69, 93] in Frames(Lines(before)) then b == 32 || b == 9 || b == 13 || b == 10
    else b != 10 ==> |OpenLine(before)| + 1 + |Join(Pending(Lines(before)))| <= 1_048_576
  }

  ghost predicate Fits(text: seq<byte>) {
    forall i :: 0 <= i < |text| ==> ByteFits(text[..i], text[i])
  }

  ghost predicate TextOk(codec: Codec, text: seq<byte>) {
    Fits(text) && FramesOk(codec, Frames(Lines(text)))
  }

  lemma FitsAppend(text: seq<byte>, b: byte)
    ensures Fits(text + [b]) <==> Fits(text) && ByteFits(text, b)
  {
    hide ByteFits;
    var all := text + [b];
    assert all[..|text|] == text && all[|text|] == b;
    assert forall i :: 0 <= i < |text| ==> all[..i] == text[..i] && all[i] == text[i];
  }

  /** Blanks after DONE dispatch nothing more. */
  lemma BlankAfterDone(codec: Codec, text: seq<byte>, d: Decoder, events: seq<Event>, b: byte)
    requires Framing(codec, text, d, events) && d.reply.done
    ensures Frames(Lines(text + [b])) == Frames(Lines(text)) || b == LF
    ensures Blank(b) ==> Frames(Lines(text + [b])) == Frames(Lines(text))
  {
    hide Lines, OpenLine, Pending, Frames, DataValue, StripCr, DecodeFrames;
    LinesAppend(text, b);
    if b == LF {
      PendingAppend(Lines(text), OpenLine(text));
      assert Frames(Lines(text)) + [] == Frames(Lines(text));
    }
  }

  /** Before DONE the decoder takes a byte exactly when it fits and the frame it completes, if any, follows. */
  lemma ByteAccepted(codec: Codec, text: seq<byte>, d: Decoder, events: seq<Event>, b: byte)
    requires Framing(codec, text, d, events) && !d.failed
    ensures !DecodeByte(codec, d, b).0.failed
            <==> ByteFits(text, b) && FramesOk(codec, Frames(Lines(text + [b])))
  {
    hide Lines, OpenLine, Pending, Frames, Join, DecodeFrame, DecodeFrames, FramesOk, Decoded;
    FramesAccepted(codec, Frames(Lines(text)));
    DecodedDone(codec, Frames(Lines(text)), d.reply, events);
    if d.reply.done {
      BlankAfterDone(codec, text, d, events, b);
    } else {
      PushFits(text, b);
      var step := Push(d.framer, b, FRAME_LIMIT);
      if step != Overflow {
        PushFollowsSpec(text, b, FRAME_LIMIT);
        if step.Quiet? {
          assert Frames(Lines(text)) + [] == Frames(Lines(text));
        } else {
          OneMoreFrame(codec, Frames(Lines(text)), step.frame);
          FramesAccepted(codec, Frames(Lines(text)) + [step.frame]);
        }
      }
    }
  }

  lemma DecodedDone(codec: Codec, frames: seq<seq<byte>>, r: Reply, events: seq<Event>)
    requires Decoded(codec, frames, r, events)
    ensures r.done <==> DONE_MARK in frames
  {
  }

  /** The framer overflows exactly when a byte of a line does not fit. */
  lemma PushFits(text: seq<byte>, b: byte)
    requires Bounded(FramerAfter(text), FRAME_LIMIT)
    ensures Push(FramerAfter(text), b, FRAME_LIMIT) == Overflow
            <==> b != LF && |OpenLine(text)| + 1 + |Join(Pending(Lines(text)))| > FRAME_LIMIT
  {
    hide Lines, OpenLine, Pending, Join;
    JoinNeverOverflows(FramerAfter(text), FRAME_LIMIT);
  }

  /** A text is not rejected exactly when every byte fits and every frame follows. */
  lemma {:induction false} TextAccepted(codec: Codec, text: seq<byte>)
    ensures !Whole(codec, text).0.failed <==> TextOk(codec, text)
  {
    hide DecodeByte, ByteFits, Fits, FramesOk, Framing, Frames, Lines;
    if text == [] {
      NothingOk(codec);
    } else {
      var init, b := text[..|text| - 1], text[|text| - 1];
      assert init + [b] == text;
      TextAccepted(codec, init);
      FitsAppend(init, b);
      var (d, events) := Whole(codec, init);
      StickyByte(codec, d, b);
      if d.failed {
        FramesOkPrefix(codec, init, b);
      } else {
        WholeFollowsFrames(codec, init);
        ByteAccepted(codec, init, d, events, b);
      }
    }
  }

  lemma NothingOk(codec: Codec)
    ensures TextOk(codec, [])
  {
    StartIsEmpty();
  }

  lemma FramesOkPrefix(codec: Codec, text: seq<byte>, b: byte)
    ensures FramesOk(codec, Frames(Lines(text + [b]))) ==> FramesOk(codec, Frames(Lines(text)))
  {
    hide Lines, OpenLine, Pending, Frames, StripCr, DataValue, Join, FramesOk;
    LinesAppend(text, b);
    if b == LF {
      PendingAppend(Lines(text), OpenLine(text));
      var frames := Frames(Lines(text));
      assert frames + [] == frames;
      BodiesAppendFrame(codec, frames, Join(Pending(Lines(text))));
    }
  }

  /**
    The responses that are accepted, exactly: within the size limits, every frame a valid successor
    of those before it, DONE after a finish of stop or tool_calls and nothing but blanks after DONE,
    tool calls when the finish says so, and every assembled call complete, under distinct ids.
   */
  lemma CollectIsExact(codec: Codec, text: seq<byte>)
    ensures var frames := Frames(Lines(text));
            var bodies := BodiesIn(codec, frames);
            var calls := ToolsInOrder(Fragments(bodies), 0);
            Collect(codec, text).Some?
            <==> && |text| <= 8_388_608 && Fits(text) && FramesOk(codec, frames)
                 && [91, 68, 79, 78, 69, 93] in frames
                 && (FinishOf(bodies) == "stop"
                     || (FinishOf(bodies) == "tool_calls" && exists i :: Of(Fragments(bodies), i) != []))
                 && CompleteCalls(codec, calls)
  {
    CallableIsComplete(codec, ToolsInOrder(Fragments(BodiesIn(codec, Frames(Lines(text)))), 0));
    hide CompleteCalls, DecodeBytes, FramesOk, Fits, Frames, Lines, DecodeFrames, Decoded, BodiesIn, AllCallable,
         ToolsInOrder,
         ToolsFrom,
         Fragments, FinishOf, FeedAll, Feed;
    OneFeed(codec, text);
    ChunkedIsWhole(codec, [text]);
    TextAccepted(codec, text);
    var (d, events) := Whole(codec, text);
    if !d.failed {
      WholeFollowsFrames(codec, text);
      FramingDecodes(codec, text, d, events);
      FramesAccepted(codec, Frames(Lines(text)));
      DecodedTools(codec, Frames(Lines(text)), d.reply, events);
      if d.reply.done { DoneLeavesNothing(codec, text); }
    }
  }

  lemma DecodedTools(codec: Codec, frames: seq<seq<byte>>, r: Reply, events: seq<Event>)
    requires Decoded(codec, frames, r, events)
    ensures var bodies := BodiesIn(codec, frames);
            && r.finish == FinishOf(bodies) && (r.done <==> DONE_MARK in frames)
            && ToolsFrom(r.tools, 0) == ToolsInOrder(Fragments(bodies), 0)
            && (r.tools == map[] <==> !exists i :: Of(Fragments(bodies), i) != [])
  {
    hide ToolsFrom, ToolsInOrder, Fragments, BodiesIn, FinishOf, Pieces, LastField, Of, ToolOf, SteadyIdentity,
         Concatenation, LastUsage;
    var calls := Fragments(BodiesIn(codec, frames));
    AssembledInOrder(r.tools, calls, 0);
    if r.tools != map[] {
      var i := SomeKey(r.tools);
      assert Of(calls, i) != [];
    }
  }

  lemma SomeKey(tools: map<int, Tool>) returns (i: int)
    requires tools != map[]
    ensures i in tools
  {
    var item :| item in tools.Items;
    i := item.0;
  }
}
