/**
  What the decoder assembles, stated field by field over the frames of the stream, independently
  of the order in which the decoder builds it and of the functions it is built with.
 */
module Assembly {
  import opened Prelude
  import Text
  import opened Sse
  import opened Response
  import opened ResponseTheorems

  function BodiesOf(codec: Codec, events: seq<Event>): seq<Body> {
    seq(|events|, i requires 0 <= i < |events| => ParseFrame(codec, events[i].raw))
  }

  /** Everything said under one key, in order. */
  function Pieces(bodies: seq<Body>, key: string): seq<string> {
    if bodies == [] then []
    else
      var b := bodies[|bodies| - 1];
      Pieces(bodies[..|bodies| - 1], key)
      + (if Speaks(b) && TextKey(key) && key in TheDelta(b).texts && TheDelta(b).texts[key].Said?
         then [TheDelta(b).texts[key].text] else [])
  }

  predicate TextKey(key: string) {
    || key == "content" || key == "refusal" || key == "reasoning_content" || key == "reasoning"
    || key == "reasoning_text"
  }

  predicate Speaks(b: Body) {
    b.Body? && b.choices.Choices? && |b.choices.all| == 1 && b.choices.all[0].delta.Delta?
  }

  function TheDelta(b: Body): Delta
    requires Speaks(b)
    ensures TheDelta(b).Delta?
  {
    b.choices.all[0].delta
  }

  function Concatenation(pieces: seq<string>): string {
    if pieces == [] then "" else Concatenation(pieces[..|pieces| - 1]) + pieces[|pieces| - 1]
  }

  /** All tool fragments of the stream, in order. */
  function Fragments(bodies: seq<Body>): seq<Call> {
    if bodies == [] then []
    else
      var b := bodies[|bodies| - 1];
      Fragments(bodies[..|bodies| - 1])
      + (if Speaks(b) && TheDelta(b).tools.Calls? then TheDelta(b).tools.calls else [])
  }

  /** The fragments of one tool index. */
  function Of(calls: seq<Call>, i: int): seq<Call> {
    if calls == [] then []
    else
      Of(calls[..|calls| - 1], i) + (if calls[|calls| - 1].index == Some(i) then [calls[|calls| - 1]] else [])
  }

  /** The name and argument texts that fragments carry, in order. */
  function NamePieces(calls: seq<Call>): seq<string> {
    if calls == [] then []
    else
      var c := calls[|calls| - 1];
      NamePieces(calls[..|calls| - 1]) + (if c.name.Some? then [c.name.value] else [])
  }

  function ArgumentPieces(calls: seq<Call>): seq<string> {
    if calls == [] then []
    else
      var c := calls[|calls| - 1];
      ArgumentPieces(calls[..|calls| - 1]) + (if c.arguments.Some? then [c.arguments.value] else [])
  }

  function LastId(calls: seq<Call>): string {
    if calls == [] then ""
    else if calls[|calls| - 1].id.Some? then calls[|calls| - 1].id.value
    else LastId(calls[..|calls| - 1])
  }

  function LastKind(calls: seq<Call>): string {
    if calls == [] then ""
    else if calls[|calls| - 1].kind.Some? then calls[|calls| - 1].kind.value
    else LastKind(calls[..|calls| - 1])
  }

  /** The tool that the fragments of one index amount to: last identity, and all pieces from left to right. */
  function ToolOf(calls: seq<Call>): Tool {
    Tool(LastId(calls), LastKind(calls), Concatenation(NamePieces(calls)), Concatenation(ArgumentPieces(calls)))
  }

  /** An identity field that is null says nothing. */
  predicate Kept(key: string, value: Json) {
    !((key == "id" || key == "model" || key == "created") && value.shape == JNull)
  }

  function LastField(bodies: seq<Body>, key: string): Option<Json> {
    if bodies == [] then None
    else
      var b := bodies[|bodies| - 1];
      if b.Body? && key in b.fields && Kept(key, b.fields[key]) then Some(b.fields[key])
      else LastField(bodies[..|bodies| - 1], key)
  }

  function LastUsage(bodies: seq<Body>): Option<Json> {
    if bodies == [] then None
    else if bodies[|bodies| - 1].Body? && bodies[|bodies| - 1].usage.Usage? then Some(bodies[|bodies| - 1].usage.usage)
    else LastUsage(bodies[..|bodies| - 1])
  }

  /** What a finish reason means for the response; nothing, if it is not supported. */
  function Ending(reason: string): string {
    if reason == "stop" || reason == "end" then "stop"
    else if reason == "tool_calls" || reason == "function_call" then "tool_calls"
    else if reason == "length" || reason == "content_filter" then reason
    else ""
  }

  function FinishOf(bodies: seq<Body>): string {
    if bodies == [] then ""
    else
      var b := bodies[|bodies| - 1];
      if b.Body? && b.choices.Choices? && |b.choices.all| == 1 && b.choices.all[0].finish.Finish?
      then Ending(b.choices.all[0].finish.reason)
      else FinishOf(bodies[..|bodies| - 1])
  }

  /** Identifiers never change: every non-empty one given for an index is the tool's. */
  ghost predicate SteadyIdentity(calls: seq<Call>, t: Tool) {
    forall k :: 0 <= k < |calls| ==>
      && (calls[k].id.Some? && calls[k].id.value != "" ==> calls[k].id.value == t.id)
      && (calls[k].kind.Some? && calls[k].kind.value != "" ==> calls[k].kind.value == t.kind)
  }

  ghost predicate Assembled(tools: map<int, Tool>, calls: seq<Call>) {
    && (forall i :: i in tools <==> Of(calls, i) != [])
    && (forall i :: i in tools ==> 0 <= i <= 127 && tools[i] == ToolOf(Of(calls, i))
                                   && SteadyIdentity(Of(calls, i), tools[i]))
  }

  ghost predicate Summarizes(r: Reply, bodies: seq<Body>) {
    && (forall k :: k in r.text <==> Pieces(bodies, k) != [])
    && (forall k :: k in r.text ==> r.text[k] == Concatenation(Pieces(bodies, k)))
    && Assembled(r.tools, Fragments(bodies))
    && (forall k :: k in r.metadata <==> LastField(bodies, k).Some?)
    && (forall k :: k in r.metadata ==> LastField(bodies, k) == Some(r.metadata[k]))
    && r.usage == LastUsage(bodies)
    && r.finish == FinishOf(bodies)
  }

  lemma OfAppend(calls: seq<Call>, c: Call, i: int)
    ensures Of(calls + [c], i) == Of(calls, i) + (if c.index == Some(i) then [c] else [])
  {
    assert (calls + [c])[..|calls|] == calls;
  }

  lemma ToolAppend(calls: seq<Call>, c: Call)
    ensures ToolOf(calls + [c]) == Tool(if c.id.Some? then c.id.value else LastId(calls),
                                        if c.kind.Some? then c.kind.value else LastKind(calls),
                                        Added(Concatenation(NamePieces(calls)), c.name),
                                        Added(Concatenation(ArgumentPieces(calls)), c.arguments))
  {
    assert (calls + [c])[..|calls|] == calls;
    MorePieces(NamePieces(calls), c.name);
    MorePieces(ArgumentPieces(calls), c.arguments);
  }

  lemma MorePieces(pieces: seq<string>, more: Option<string>)
    ensures Concatenation(pieces + (if more.Some? then [more.value] else [])) == Added(Concatenation(pieces), more)
  {
    if more.Some? {
      assert (pieces + [more.value])[..|pieces|] == pieces;
    } else {
      assert pieces + [] == pieces && Concatenation(pieces) + "" == Concatenation(pieces);
    }
  }

  lemma AddToolAssembles(tools: map<int, Tool>, calls: seq<Call>, c: Call)
    requires Assembled(tools, calls) && AddTool(tools, c).Some?
    ensures Assembled(AddTool(tools, c).value, calls + [c])
  {
    hide Of, LastId, LastKind, Concatenation, Added, NamePieces, ArgumentPieces;
    var i := c.index.value;
    var next := AddTool(tools, c).value;
    forall j ensures Of(calls + [c], j) == if j == i then Of(calls, j) + [c] else Of(calls, j) {
      OfAppend(calls, c, j);
      assert Of(calls, j) + [] == Of(calls, j);
    }
    var mine := Of(calls, i);
    ToolAppend(mine, c);
    if i !in tools {
      EmptyTool();
    }
    assert ToolOf(mine) == if i in tools then tools[i] else NO_TOOL;
    assert next[i] == ToolOf(mine + [c]);
    SteadyAppend(mine, c, next[i]);
  }

  lemma EmptyTool()
    ensures ToolOf([]) == NO_TOOL
  {
  }

  lemma SteadyAppend(calls: seq<Call>, c: Call, t: Tool)
    requires SteadyIdentity(calls, ToolOf(calls))
    requires SetOnce(LastId(calls), c.id) == Some(t.id) && SetOnce(LastKind(calls), c.kind) == Some(t.kind)
    requires forall k ::
               0 <= k < |calls| && calls[k].id.Some? && calls[k].id.value != "" ==>
                 calls[k].id.value == LastId(calls)
    requires forall k ::
               0 <= k < |calls| && calls[k].kind.Some? && calls[k].kind.value != "" ==>
                 calls[k].kind.value == LastKind(calls)
    ensures SteadyIdentity(calls + [c], t)
  {
    hide LastId, LastKind, Concatenation, NamePieces, ArgumentPieces;
    forall k | 0 <= k < |calls| + 1
      ensures var f := (calls + [c])[k];
              && (f.id.Some? && f.id.value != "" ==> f.id.value == t.id)
              && (f.kind.Some? && f.kind.value != "" ==> f.kind.value == t.kind)
    {
      if k < |calls| {
        assert (calls + [c])[k] == calls[k];
      }
    }
  }

  lemma {:induction false} AddToolsAssemble(tools: map<int, Tool>, before: seq<Call>, calls: seq<Call>)
    requires Assembled(tools, before) && AddTools(tools, calls).Some?
    ensures Assembled(AddTools(tools, calls).value, before + calls)
  {
    hide Assembled, AddTool;
    if calls == [] {
      assert before + calls == before;
    } else {
      var init, last := calls[..|calls| - 1], calls[|calls| - 1];
      AddToolsAssemble(tools, before, init);
      AddToolAssembles(AddTools(tools, init).value, before + init, last);
      assert before + init + [last] == before + calls;
    }
  }

  lemma {:induction false} AddToolsKeepsNone(tools: map<int, Tool>)
    ensures AddTools(tools, []) == Some(tools)
  {
  }

  // ---- one frame ----

  lemma PiecesAppend(bodies: seq<Body>, b: Body, key: string)
    ensures Pieces(bodies + [b], key) == Pieces(bodies, key) + Spoken(b, key)
    ensures Concatenation(Pieces(bodies + [b], key))
            == Concatenation(Pieces(bodies, key)) + (if Spoken(b, key) == [] then "" else Spoken(b, key)[0])
  {
    assert (bodies + [b])[..|bodies|] == bodies;
    var before := Pieces(bodies, key);
    if Spoken(b, key) != [] {
      assert (before + Spoken(b, key))[..|before|] == before;
    } else {
      assert before + [] == before && Concatenation(before) + "" == Concatenation(before);
    }
  }

  function Spoken(b: Body, key: string): (r: seq<string>)
    ensures |r| <= 1
  {
    if Speaks(b) && TextKey(key) && key in TheDelta(b).texts && TheDelta(b).texts[key].Said?
    then [TheDelta(b).texts[key].text] else []
  }

  lemma FragmentsAppend(bodies: seq<Body>, b: Body)
    ensures Fragments(bodies + [b]) == Fragments(bodies) + CallsOf(b)
  {
    assert (bodies + [b])[..|bodies|] == bodies;
  }

  function CallsOf(b: Body): seq<Call> {
    if Speaks(b) && TheDelta(b).tools.Calls? then TheDelta(b).tools.calls else []
  }

  lemma LastAppend(bodies: seq<Body>, b: Body, key: string)
    requires b.Body?
    ensures LastField(bodies + [b], key)
            == if key in b.fields && Kept(key, b.fields[key]) then Some(b.fields[key]) else LastField(bodies, key)
    ensures LastUsage(bodies + [b]) == if b.usage.Usage? then Some(b.usage.usage) else LastUsage(bodies)
    ensures FinishOf(bodies + [b])
            == if b.choices.Choices? && |b.choices.all| == 1 && b.choices.all[0].finish.Finish?
               then Ending(b.choices.all[0].finish.reason) else FinishOf(bodies)
  {
    assert (bodies + [b])[..|bodies|] == bodies;
  }

  /** What one accepted frame does to each part of the reply. */
  lemma BodyParts(r: Reply, b: Body)
    requires AddBody(r, b).Some?
    ensures var r' := AddBody(r, b).value;
            && b.Body? && b.choices.Choices?
            && AddFields(r.metadata, b.fields) == Some(r'.metadata)
            && r'.usage == (if b.usage.Usage? then Some(b.usage.usage) else r.usage)
            && AddTools(r.tools, CallsOf(b)) == Some(r'.tools)
            && r'.done == r.done
            && r'.finish == (if |b.choices.all| == 1 && b.choices.all[0].finish.Finish?
                             then Ending(b.choices.all[0].finish.reason) else r.finish)
            && (if Speaks(b) then AddTexts(r.text, TheDelta(b).texts) == Some(r'.text) else r'.text == r.text)
  {
    hide AddFields, AddTexts, AddTools, Supported, Normalized, Ending;
    AddToolsKeepsNone(r.tools);
    if |b.choices.all| == 1 && b.choices.all[0].finish.Finish? {
      EndingIs(b.choices.all[0].finish.reason);
    }
  }

  lemma EndingIs(reason: string)
    ensures Supported(Normalized(reason)) <==> Ending(reason) != ""
    ensures Supported(Normalized(reason)) ==> Normalized(reason) == Ending(reason)
  {
  }

  lemma TextsStep(text: map<string, string>, bodies: seq<Body>, b: Body, next: map<string, string>)
    requires forall k :: k in text <==> Pieces(bodies, k) != []
    requires forall k :: k in text ==> text[k] == Concatenation(Pieces(bodies, k))
    requires if Speaks(b) then AddTexts(text, TheDelta(b).texts) == Some(next) else next == text
    ensures forall k :: k in next <==> Pieces(bodies + [b], k) != []
    ensures forall k :: k in next ==> next[k] == Concatenation(Pieces(bodies + [b], k))
  {
    hide Pieces, Concatenation, Speaks, TheDelta;
    forall k
      ensures k in next <==> Pieces(bodies + [b], k) != []
      ensures k in next ==> next[k] == Concatenation(Pieces(bodies + [b], k))
    {
      PiecesAppend(bodies, b, k);
      SpokenIn(b, k);
      NoPieces();
      if Speaks(b) {
        AddTextsAt(text, TheDelta(b).texts, k);
      }
    }
  }

  lemma NoPieces()
    ensures Concatenation([]) == ""
  {
  }

  lemma SpokenIn(b: Body, k: string)
    ensures Spoken(b, k) == if Speaks(b) && TextKey(k) && k in TheDelta(b).texts && TheDelta(b).texts[k].Said?
                            then [TheDelta(b).texts[k].text] else []
  {
  }

  lemma TextKeys(key: string)
    ensures key in TEXT_KEYS <==> TextKey(key)
  {
  }

  lemma AddTextsAt(text: map<string, string>, texts: map<string, TextField>, k: string)
    requires AddTexts(text, texts).Some?
    ensures var next := AddTexts(text, texts).value;
            var says := TextKey(k) && k in texts && texts[k].Said?;
            && (k in next <==> k in text || says)
            && (k in next ==> next[k] == (if k in text then text[k] else "") + (if says then texts[k].text else ""))
  {
    var next := AddTexts(text, texts).value;
    TextKeys(k);
    hide TEXT_KEYS, TextKey;
    assert Says(texts, k) <==> k in TEXT_KEYS && k in texts && texts[k].Said?;
    hide Says;
    assert k in next ==> next[k] == Extended(text, texts, k);
  }

  lemma FieldsStep(metadata: map<string, Json>, bodies: seq<Body>, b: Body, next: map<string, Json>)
    requires forall k :: k in metadata <==> LastField(bodies, k).Some?
    requires forall k :: k in metadata ==> LastField(bodies, k) == Some(metadata[k])
    requires b.Body? && AddFields(metadata, b.fields) == Some(next)
    ensures forall k :: k in next <==> LastField(bodies + [b], k).Some?
    ensures forall k :: k in next ==> LastField(bodies + [b], k) == Some(next[k])
  {
    hide LastField, WellTyped;
    forall k
      ensures k in next <==> LastField(bodies + [b], k).Some?
      ensures k in next ==> LastField(bodies + [b], k) == Some(next[k])
    {
      LastAppend(bodies, b, k);
    }
  }

  lemma SummaryStep(r: Reply, bodies: seq<Body>, b: Body)
    requires Summarizes(r, bodies) && AddBody(r, b).Some?
    ensures Summarizes(AddBody(r, b).value, bodies + [b])
  {
    hide AddBody, AddFields, AddTexts, AddTools, Assembled, Pieces, LastField, LastUsage, FinishOf, Concatenation,
         Fragments,
         Ending, Speaks,
         TheDelta, CallsOf;
    BodyParts(r, b);
    var r' := AddBody(r, b).value;
    TextsStep(r.text, bodies, b, r'.text);
    FieldsStep(r.metadata, bodies, b, r'.metadata);
    FragmentsAppend(bodies, b);
    AddToolsAssemble(r.tools, Fragments(bodies), CallsOf(b));
    LastAppend(bodies, b, "");
  }

  /** The DONE mark changes no part of the summary. */
  lemma SummaryOfDone(r: Reply, bodies: seq<Body>)
    requires Summarizes(r, bodies)
    ensures Summarizes(r.(done := true), bodies)
  {
  }

  lemma EmptySummary()
    ensures Summarizes(NOTHING, [])
  {
  }

  lemma BodiesAppend(codec: Codec, events: seq<Event>, e: Event)
    ensures BodiesOf(codec, events + [e]) == BodiesOf(codec, events) + [ParseFrame(codec, e.raw)]
  {
  }

  /** The reply after any frames is the summary of the events they produced. */
  lemma {:induction false} DecodedIsSummary(codec: Codec, frames: seq<seq<byte>>)
    requires DecodeFrames(codec, frames).Some?
    ensures var (r, events) := DecodeFrames(codec, frames).value; Summarizes(r, BodiesOf(codec, events))
  {
    hide Summarizes, AddBody, BodiesOf;
    if frames == [] {
      EmptySummary();
      NoBodies(codec);
    } else {
      var init, raw := frames[..|frames| - 1], frames[|frames| - 1];
      DecodedIsSummary(codec, init);
      var (r, events) := DecodeFrames(codec, init).value;
      if raw == DONE_MARK {
        SummaryOfDone(r, BodiesOf(codec, events));
        assert events + [] == events;
      } else {
        var e := DecodeFrame(codec, r, raw).value.1[0];
        BodiesAppend(codec, events, e);
        SummaryStep(r, BodiesOf(codec, events), ParseFrame(codec, raw));
      }
    }
  }

  lemma NoBodies(codec: Codec)
    ensures BodiesOf(codec, []) == []
  {
  }

  // ---- the completion ----

  /** A completion as the summary of the frames it was assembled from. */
  ghost predicate CompletionOf(codec: Codec, c: Completion, bodies: seq<Body>) {
    && (forall k :: k in c.text <==> Pieces(bodies, k) != [])
    && (forall k :: k in c.text ==> c.text[k] == Concatenation(Pieces(bodies, k)))
    && (forall k :: k in c.metadata <==> LastField(bodies, k).Some?)
    && (forall k :: k in c.metadata ==> LastField(bodies, k) == Some(c.metadata[k]))
    && c.usage == LastUsage(bodies)
    && c.finish == FinishOf(bodies) && (c.finish == "stop" || c.finish == "tool_calls")
    && c.calls == ToolsInOrder(Fragments(bodies), 0)
    && CompleteCalls(codec, c.calls)
    && SteadyCalls(Fragments(bodies))
  }

  /** Calls that can be executed: identified, of type function, named, with an object for arguments; no id twice. */
  ghost predicate CompleteCalls(codec: Codec, calls: seq<Tool>) {
    && (forall i :: 0 <= i < |calls| ==>
          && calls[i].id != "" && calls[i].kind == "function"
          && Text.Trim(calls[i].name) != "" && codec.isObject(calls[i].arguments))
    && (forall i, j :: 0 <= i < j < |calls| ==> calls[i].id != calls[j].id)
  }

  lemma CallableIsComplete(codec: Codec, calls: seq<Tool>)
    ensures AllCallable(codec, calls) <==> CompleteCalls(codec, calls)
  {
  }

  /** Every fragment has an index in range, and the identity of an index never changes. */
  ghost predicate SteadyCalls(calls: seq<Call>) {
    forall i :: Of(calls, i) != [] ==> 0 <= i <= 127 && SteadyIdentity(Of(calls, i), ToolOf(Of(calls, i)))
  }

  lemma AssembledIsSteady(tools: map<int, Tool>, calls: seq<Call>)
    requires Assembled(tools, calls)
    ensures SteadyCalls(calls)
  {
    hide Of, ToolOf, SteadyIdentity;
  }

  /** One tool per index that has fragments, in index order. */
  function ToolsInOrder(calls: seq<Call>, i: int): seq<Tool>
    decreases 127 + 1 - i
  {
    if i > 127 then []
    else (if Of(calls, i) == [] then [] else [ToolOf(Of(calls, i))]) + ToolsInOrder(calls, i + 1)
  }

  lemma {:induction false} AssembledInOrder(tools: map<int, Tool>, calls: seq<Call>, i: int)
    requires Assembled(tools, calls) && 0 <= i
    ensures ToolsFrom(tools, i) == ToolsInOrder(calls, i)
    decreases MAX_TOOL_INDEX + 1 - i
  {
    hide Of, ToolOf;
    if i <= MAX_TOOL_INDEX {
      AssembledInOrder(tools, calls, i + 1);
    }
  }

  /**
    The completion of a text, if there is one, is the summary of its frames: concatenated texts,
    one tool per index with its fragments concatenated, the last metadata and usage, the
    normalized finish reason.
   */
  lemma CollectIsSummary(codec: Codec, text: seq<byte>)
    requires Collect(codec, text).Some?
    ensures CompletionOf(codec, Collect(codec, text).value, BodiesOf(codec, Whole(codec, text).1))
  {
    hide DecodeFrames, Summarizes, AllCallable, ToolsFrom, DecodeBytes, BodiesOf;
    OneFeed(codec, text);
    ChunkedIsWhole(codec, [text]);
    WholeFollowsFrames(codec, text);
    var (d, events) := Whole(codec, text);
    FramingDecodes(codec, text, d, events);
    DecodedIsSummary(codec, Frames(Lines(text)));
    SummaryToCompletion(codec, d.reply, Collect(codec, text).value, BodiesOf(codec, events));
  }

  lemma FramingDecodes(codec: Codec, text: seq<byte>, d: Decoder, events: seq<Event>)
    requires Framing(codec, text, d, events)
    ensures DecodeFrames(codec, Frames(Lines(text))) == Some((d.reply, events))
  {
  }

  lemma SummaryToCompletion(codec: Codec, r: Reply, c: Completion, bodies: seq<Body>)
    requires Summarizes(r, bodies)
    requires c == Completion(r.finish, r.text, ToolsFrom(r.tools, 0), r.metadata, r.usage)
    requires (c.finish == "stop" || c.finish == "tool_calls") && AllCallable(codec, c.calls)
    ensures CompletionOf(codec, c, bodies)
  {
    CallableIsComplete(codec, c.calls);
    hide CompleteCalls, AllCallable, ToolsFrom, ToolsInOrder, Assembled, Pieces, LastField, LastUsage, FinishOf,
         Concatenation, Fragments,
         SteadyCalls;
    AssembledInOrder(r.tools, Fragments(bodies), 0);
    AssembledIsSteady(r.tools, Fragments(bodies));
  }

  // ---- interleaving ----

  lemma {:induction false} SameFragmentsSameTools(a: seq<Call>, b: seq<Call>, i: int)
    requires forall j :: Of(a, j) == Of(b, j)
    ensures ToolsInOrder(a, i) == ToolsInOrder(b, i)
    decreases MAX_TOOL_INDEX + 1 - i
  {
    hide Of, ToolOf;
    if i <= MAX_TOOL_INDEX {
      SameFragmentsSameTools(a, b, i + 1);
    }
  }

  /** Two responses whose fragments agree index by index carry the same tool calls, however interleaved. */
  lemma InterleavingDoesNotMatter(codec: Codec, a: seq<byte>, b: seq<byte>)
    requires Collect(codec, a).Some? && Collect(codec, b).Some?
    requires forall i ::
               Of(Fragments(BodiesOf(codec, Whole(codec, a).1)), i)
               == Of(Fragments(BodiesOf(codec, Whole(codec, b).1)), i)
    ensures Collect(codec, a).value.calls == Collect(codec, b).value.calls
  {
    hide Collect, Whole, BodiesOf, Fragments, Of, ToolsInOrder, Pieces, LastField;
    CollectIsSummary(codec, a);
    CollectIsSummary(codec, b);
    SameFragmentsSameTools(Fragments(BodiesOf(codec, Whole(codec, a).1)),
        Fragments(BodiesOf(codec, Whole(codec, b).1)), 0);
  }
}
