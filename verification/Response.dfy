/**
  plugins/opencode/response.go as functions on values: the frames of a chat-completions stream,
  the decoder, and the completion it assembles.

  JSON text is taken as parsed: a codec maps the bytes of a frame to its fields and renders an
  event as the SSE frame that is emitted.  Everything is proved for every codec.
 */
module Response {
  import opened Prelude
  import Text
  import opened Sse

  const FRAME_LIMIT: nat := 0x10_0000
  const TOTAL_LIMIT: nat := 0x80_0000
  const HELD_LIMIT: nat := 0x40_0000
  const MAX_TOOL_INDEX: int := 127

  // ---- what a frame says ----

  datatype Shape = JNull | JText | JInteger | JOther

  /** A JSON value: its bytes, and what kind json.Unmarshal finds. */
  datatype Json = Json(raw: seq<byte>, shape: Shape)

  /** One element of delta.tool_calls; id and type may be present and empty (JSON null decodes to ""). */
  datatype Call = Call(
    index: Option<int>, malformed: bool, id: Option<string>, kind: Option<string>,
    name: Option<string>, arguments: Option<string>)

  datatype TextField = NullText | BadText | Said(text: string)

  datatype Tools = NoTools | BadTools | Calls(calls: seq<Call>)

  datatype Delta =
    | NoDelta
    | BadDelta
    | Delta(role: Option<string>, texts: map<string, TextField>, tools: Tools, legacyCall: bool)

  datatype Finish = NoFinish | BadFinish | Finish(reason: string)

  datatype Choice = Choice(index: Option<int>, delta: Delta, finish: Finish)

  datatype Choices = BadChoices | Choices(all: seq<Choice>)

  datatype Usage = NoUsage | BadUsage | Usage(usage: Json)

  /** A frame body: `fields` are the keys other than choices, usage, error and object. */
  datatype Body =
    | NotAnObject
    | Body(failed: bool, fields: map<string, Json>, choices: Choices, usage: Usage)

  /** An emitted event: the frame, the finish reason written into it if normalized, and whether it must wait. */
  datatype Event = Event(raw: seq<byte>, rewritten: Option<string>, hold: bool)

  datatype Codec = Codec(parse: seq<byte> -> Body, render: Event -> seq<byte>, isObject: string -> bool)

  // ---- what the decoder accumulates ----

  datatype Tool = Tool(id: string, kind: string, name: string, arguments: string)

  datatype Reply = Reply(
    done: bool, finish: string, metadata: map<string, Json>, text: map<string, string>,
    tools: map<int, Tool>, usage: Option<Json>)

  const NO_TOOL: Tool := Tool("", "", "", "")
  const NOTHING: Reply := Reply(false, "", map[], map[], map[], None)

  const IDENTITY_KEYS: set<string> := {"id", "model", "created"}
  const TEXT_KEYS: set<string> := {"content", "refusal", "reasoning_content", "reasoning", "reasoning_text"}

  predicate WellTyped(key: string, value: Json) {
    || value.shape == JNull
    || (key == "created" && value.shape == JInteger)
    || (key != "created" && value.shape == JText)
  }

  /** Null identity fields are skipped; everything else is recorded. */
  predicate Recorded(key: string, value: Json) {
    key in IDENTITY_KEYS ==> value.shape != JNull
  }

  /** The loop over the frame's other fields, whose order is random and does not matter. */
  function AddFields(prior: map<string, Json>, fields: map<string, Json>): Option<map<string, Json>> {
    if exists k :: k in IDENTITY_KEYS && k in fields &&
                   (!WellTyped(k, fields[k]) || (Recorded(k, fields[k]) && k in prior && prior[k].raw != fields[k].raw))
    then None
    else Some(prior + map k | k in fields && Recorded(k, fields[k]) :: fields[k])
  }

  function SetOnce(prior: string, given: Option<string>): Option<string> {
    match given
    case None => Some(prior)
    case Some(t) => if prior != "" && prior != t then None else Some(t)
  }

  function Added(prior: string, more: Option<string>): string {
    prior + (if more.Some? then more.value else "")
  }

  function AddTool(tools: map<int, Tool>, call: Call): Option<map<int, Tool>> {
    if call.index.None? || !(0 <= call.index.value <= MAX_TOOL_INDEX) || call.malformed then None
    else
      var i := call.index.value;
      var tool := if i in tools then tools[i] else NO_TOOL;
      match (SetOnce(tool.id, call.id), SetOnce(tool.kind, call.kind))
      case (Some(id), Some(kind)) =>
        Some(tools[i := Tool(id, kind, Added(tool.name, call.name), Added(tool.arguments, call.arguments))])
      case _ => None
  }

  function AddTools(tools: map<int, Tool>, calls: seq<Call>): Option<map<int, Tool>> {
    if calls == [] then Some(tools)
    else
      match AddTools(tools, calls[..|calls| - 1])
      case None => None
      case Some(t) => AddTool(t, calls[|calls| - 1])
  }

  predicate Says(texts: map<string, TextField>, key: string) {
    key in TEXT_KEYS && key in texts && texts[key].Said?
  }

  function Extended(prior: map<string, string>, texts: map<string, TextField>, key: string): string {
    (if key in prior then prior[key] else "") + (if Says(texts, key) then texts[key].text else "")
  }

  function AddTexts(prior: map<string, string>, texts: map<string, TextField>): Option<map<string, string>> {
    if exists k :: k in TEXT_KEYS && k in texts && texts[k].BadText? then None
    else Some(map k | k in prior.Keys + (set t | t in texts && Says(texts, t)) :: Extended(prior, texts, k))
  }

  function AddDelta(r: Reply, delta: Delta): Option<Reply> {
    match delta
    case NoDelta => Some(r)
    case BadDelta => None
    case Delta(role, texts, tools, legacyCall) =>
      if (role.Some? && role.value != "assistant") || legacyCall || tools.BadTools? then None
      else
        match (AddTexts(r.text, texts), AddTools(r.tools, if tools.Calls? then tools.calls else []))
        case (Some(text), Some(all)) => Some(r.(text := text, tools := all))
        case _ => None
  }

  function Normalized(reason: string): string {
    if reason == "end" then "stop" else if reason == "function_call" then "tool_calls" else reason
  }

  predicate Supported(reason: string) {
    reason == "stop" || reason == "tool_calls" || reason == "length" || reason == "content_filter"
  }

  predicate CarriesCalls(delta: Delta) {
    delta.Delta? && delta.tools.Calls? && delta.tools.calls != []
  }

  function AddChoice(r: Reply, c: Choice): Option<Reply> {
    if r.finish != "" || c.index != Some(0) || c.finish.BadFinish? then None
    else
      match AddDelta(r, c.delta)
      case None => None
      case Some(r') =>
        if c.finish.NoFinish? then Some(r')
        else if !Supported(Normalized(c.finish.reason)) then None
        else Some(r'.(finish := Normalized(c.finish.reason)))
  }

  /** Frames that must not reach the host before the stream has been validated to its end. */
  predicate MustWait(b: Body) {
    b.Body? && (b.usage.Usage?
        || (b.choices.Choices? && exists c :: c in b.choices.all && (CarriesCalls(c.delta) || c.finish.Finish?)))
  }

  function Rewritten(b: Body): Option<string> {
    if b.Body? && b.choices.Choices? && |b.choices.all| == 1 && b.choices.all[0].finish.Finish?
       && Normalized(b.choices.all[0].finish.reason) != b.choices.all[0].finish.reason
    then Some(Normalized(b.choices.all[0].finish.reason)) else None
  }

  function AddBody(r: Reply, b: Body): Option<Reply> {
    if b.NotAnObject? || b.failed then None
    else
      match AddFields(r.metadata, b.fields)
      case None => None
      case Some(metadata) =>
        if b.choices.BadChoices? || |b.choices.all| > 1 || b.usage.BadUsage?
           || (b.choices.all == [] && b.usage.NoUsage?)
        then None
        else
          var r' := r.(metadata := metadata, usage := if b.usage.Usage? then Some(b.usage.usage) else r.usage);
          if b.choices.all == [] then Some(r') else AddChoice(r', b.choices.all[0])
  }

  /** json.Unmarshal rejects the empty text. */
  function ParseFrame(codec: Codec, raw: seq<byte>): Body {
    if raw == [] then NotAnObject else codec.parse(raw)
  }

  /** decode: the DONE mark, or one frame added to the reply and passed on. */
  function DecodeFrame(codec: Codec, r: Reply, raw: seq<byte>): Option<(Reply, seq<Event>)> {
    if raw == DONE_MARK then (if r.finish == "" then None else Some((r.(done := true), [])))
    else
      var body := ParseFrame(codec, raw);
      match AddBody(r, body)
      case None => None
      case Some(r') => Some((r', [Event(raw, Rewritten(body), MustWait(body))]))
  }

  // ---- the byte loop ----

  datatype Decoder = Decoder(framer: Framer, reply: Reply, total: nat, failed: bool)

  const FRESH: Decoder := Decoder(START, NOTHING, 0, false)

  predicate Blank(b: byte) {
    b == SPACE || b == TAB || b == CR || b == LF
  }

  function DecodeByte(codec: Codec, d: Decoder, b: byte): (Decoder, seq<Event>) {
    if d.failed then (d, [])
    else if d.reply.done then (if Blank(b) then (d, []) else (d.(failed := true), []))
    else
      match Push(d.framer, b, FRAME_LIMIT)
      case Overflow => (d.(failed := true), [])
      case Quiet(f) => (d.(framer := f), [])
      case Frame(f, raw) =>
        match DecodeFrame(codec, d.reply, raw)
        case None => (d.(framer := f, failed := true), [])
        case Some((r, events)) => (d.(framer := f, reply := r), events)
  }

  function DecodeBytes(codec: Codec, d: Decoder, bytes: seq<byte>): (Decoder, seq<Event>) {
    if bytes == [] then (d, [])
    else
      var (d1, before) := DecodeBytes(codec, d, bytes[..|bytes| - 1]);
      var (d2, last) := DecodeByte(codec, d1, bytes[|bytes| - 1]);
      (d2, before + last)
  }

  /** feed: the total is checked for the whole chunk first, and a failing chunk yields no events. */
  function Feed(codec: Codec, d: Decoder, chunk: seq<byte>): (Decoder, seq<Event>) {
    if d.failed then (d, [])
    else
      var counted := d.(total := d.total + |chunk|);
      if counted.total > TOTAL_LIMIT then (counted.(failed := true), [])
      else
        var (d', events) := DecodeBytes(codec, counted, chunk);
        (d', if d'.failed then [] else events)
  }

  function FeedAll(codec: Codec, d: Decoder, chunks: seq<seq<byte>>): (Decoder, seq<Event>) {
    if chunks == [] then (d, [])
    else
      var (d1, before) := FeedAll(codec, d, chunks[..|chunks| - 1]);
      var (d2, last) := Feed(codec, d1, chunks[|chunks| - 1]);
      (d2, before + last)
  }

  // ---- the end of the response ----

  datatype Completion = Completion(
    finish: string, text: map<string, string>, calls: seq<Tool>, metadata: map<string, Json>, usage: Option<Json>)

  /** The tools from index i on, in index order. */
  function ToolsFrom(tools: map<int, Tool>, i: int): seq<Tool>
    decreases MAX_TOOL_INDEX + 1 - i
  {
    if i > MAX_TOOL_INDEX then []
    else (if i in tools then [tools[i]] else []) + ToolsFrom(tools, i + 1)
  }

  predicate Callable(codec: Codec, t: Tool) {
    t.id != "" && t.kind == "function" && Text.Trim(t.name) != "" && codec.isObject(t.arguments)
  }

  predicate AllCallable(codec: Codec, tools: seq<Tool>) {
    && (forall i :: 0 <= i < |tools| ==> Callable(codec, tools[i]))
    && (forall i, j :: 0 <= i < j < |tools| ==> tools[i].id != tools[j].id)
  }

  function FinishResponse(codec: Codec, d: Decoder): Option<Completion> {
    var r := d.reply;
    if d.failed || !r.done || d.framer.hasData || d.framer.line != [] then None
    else if r.finish != "stop" && r.finish != "tool_calls" then None
    else if r.finish == "tool_calls" && r.tools == map[] then None
    else if !AllCallable(codec, ToolsFrom(r.tools, 0)) then None
    else Some(Completion(r.finish, r.text, ToolsFrom(r.tools, 0), r.metadata, r.usage))
  }

  function Collect(codec: Codec, body: seq<byte>): Option<Completion> {
    FinishResponse(codec, Feed(codec, FRESH, body).0)
  }
}
