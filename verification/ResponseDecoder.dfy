/**
  The response decoder and the two paths over it as plugins/opencode/response.go writes them:
  fields that change per byte and per frame, and loops that grow what is held.  Each method is
  proved against its specification in Response and Relay.
 */
module ResponseDecoders {
  import opened Prelude
  import Text
  import opened Sse
  import opened Response
  import opened ResponseTheorems
  import opened Relay

  class ResponseDecoder {
    const codec: Codec
    var line: seq<byte>
    var data: seq<byte>
    var hasData: bool
    var done: bool
    var total: nat
    var finish: string
    var failed: bool
    var metadata: map<string, Json>
    var text: map<string, string>
    var tools: map<int, Tool>
    var usage: Option<Json>

    ghost function Parsed(): Reply
      reads this
    {
      Reply(done, finish, metadata, text, tools, usage)
    }

    ghost function State(): Decoder
      reads this
    {
      Decoder(Framer(line, data, hasData), Parsed(), total, failed)
    }

    /** No operation leaves a tool under an index that addTool refuses, unless the response failed. */
    ghost predicate Valid()
      reads this
    {
      failed || InRange(tools)
    }

    constructor (codec: Codec)
      ensures this.codec == codec && State() == FRESH && Valid()
    {
      this.codec := codec;
      line, data, hasData, done, total, finish, failed := [], [], false, false, 0, "", false;
      metadata, text, tools, usage := map[], map[], map[], None;
    }

    /** Fails for good, or leaves the state and the events of the specification; no events on failure. */
    method Feed(chunk: seq<byte>) returns (events: Option<seq<Event>>)
      modifies this
      ensures var (d, all) := Response.Feed(codec, old(State()), chunk);
              && events == (if d.failed then None else Some(all))
              && failed == d.failed
              && (!d.failed ==> State() == d)
      ensures old(Valid()) ==> Valid()
    {
      hide DecodeBytes, DecodeByte;
      if failed { return None; }
      total := total + |chunk|;
      if total > TOTAL_LIMIT {
        failed := true;
        return None;
      }
      ghost var start := State();
      var out: seq<Event> := [];
      NothingDecoded(codec, start, chunk);
      for i := 0 to |chunk|
        invariant !failed && DecodeBytes(codec, start, chunk[..i]) == (State(), out)
      {
        DecodedSoFar(codec, start, chunk, i);
        var e := FeedByte(chunk[i]);
        if failed { return None; }
        out := out + e;
      }
      assert chunk[..|chunk|] == chunk;
      if old(Valid()) { BytesInRange(codec, start, chunk); }
      return Some(out);
    }

    /** The body of the byte loop. */
    method FeedByte(b: byte) returns (events: seq<Event>)
      requires !failed
      modifies this
      ensures var (d, all) := DecodeByte(codec, old(State()), b);
              failed == d.failed && (!d.failed ==> State() == d && events == all)
    {
      hide DecodeFrame;
      events := [];
      if done {
        failed := b != SPACE && b != TAB && b != CR && b != LF;
        return;
      }
      if b != LF {
        line := line + [b];
        failed := |line| + |data| > FRAME_LIMIT;
        return;
      }
      var l := StripCr(line);
      line := [];
      if l == [] {
        if !hasData { return; }
        var raw := data;
        data, hasData := [], false;
        events := Decode(raw);
        return;
      }
      if l[0] == COLON || Field(l) != DATA { return; }
      if hasData { data := data + [LF]; }
      data, hasData := data + Value(l), true;
      failed := |data| > FRAME_LIMIT;
    }

    /** One frame. */
    method Decode(raw: seq<byte>) returns (events: seq<Event>)
      requires !failed
      modifies this
      ensures var d := DecodeFrame(codec, old(Parsed()), raw);
              && failed == d.None?
              && (d.Some? ==> Parsed() == d.value.0 && events == d.value.1)
      ensures line == old(line) && data == old(data) && hasData == old(hasData) && total == old(total)
    {
      hide AddFields, AddChoice, MustWait, Rewritten;
      events := [];
      if raw == DONE_MARK {
        if finish == "" { failed := true; } else { done := true; }
        return;
      }
      var body := ParseFrame(codec, raw);
      if body.NotAnObject? || body.failed {
        failed := true;
        return;
      }
      AddMetadata(body.fields);
      if failed { return; }
      if body.choices.BadChoices? || |body.choices.all| > 1 || body.usage.BadUsage? {
        failed := true;
        return;
      }
      var hold, normalized := body.usage.Usage?, false;
      if hold { usage := Some(body.usage.usage); }
      if body.choices.all == [] && !hold {
        failed := true;
        return;
      }
      if body.choices.all != [] {
        var waits;
        waits, normalized := TakeChoice(body.choices.all[0]);
        if failed { return; }
        hold := hold || waits;
      }
      FlagsAre(body, hold, normalized);
      // The finish now recorded replaces the one in the frame.
      events := [Event(raw, if normalized then Some(finish) else None, hold)];
    }

    /** The loop over the other fields of a frame, in whatever order the map yields them. */
    method AddMetadata(fields: map<string, Json>)
      requires !failed
      modifies this`failed, this`metadata
      ensures var all := AddFields(old(metadata), fields);
              failed == all.None? && (all.Some? ==> metadata == all.value)
    {
      hide AddFields, WellTyped, Recorded;
      ghost var prior := metadata;
      ghost var seen: map<string, Json> := map[];
      NoFields(prior);
      var left := fields.Keys;
      while left != {}
        invariant left <= fields.Keys && seen.Keys == fields.Keys - left && Part(seen, fields)
        invariant !failed && AddFields(prior, seen) == Some(metadata)
      {
        var key :| key in left;
        left := left - {key};
        var value := fields[key];
        OneField(prior, seen, key, value);
        seen := seen[key := value];
        FieldsStop(prior, seen, fields);
        if key in IDENTITY_KEYS {
          if value.shape == JNull { continue; }
          if !WellTyped(key, value) || (key in metadata && metadata[key].raw != value.raw) {
            failed := true;
            return;
          }
        }
        metadata := metadata[key := value];
      }
      assert seen == fields;
    }

    /** One choice; whether its frame must wait on its account, and whether its finish was normalized. */
    method TakeChoice(c: Choice) returns (hold: bool, normalized: bool)
      requires !failed
      modifies this
      ensures var r := AddChoice(old(Parsed()), c);
              failed == r.None? && (r.Some? ==> Parsed() == r.value)
      ensures !failed ==> hold == (CarriesCalls(c.delta) || c.finish.Finish?)
      ensures !failed ==> normalized == (c.finish.Finish? && Normalized(c.finish.reason) != c.finish.reason)
      ensures !failed && c.finish.Finish? ==> finish == Normalized(c.finish.reason)
      ensures line == old(line) && data == old(data) && hasData == old(hasData) && total == old(total)
    {
      hide AddTexts, AddTools;
      hold, normalized := false, false;
      if finish != "" || c.index != Some(0) || c.delta.BadDelta? {
        failed := true;
        return;
      }
      if c.delta.Delta? {
        if (c.delta.role.Some? && c.delta.role.value != "assistant") || c.delta.legacyCall || c.delta.tools.BadTools? {
          failed := true;
          return;
        }
        TakeTexts(c.delta.texts);
        if failed { return; }
        if c.delta.tools.Calls? && |c.delta.tools.calls| > 0 { hold := true; }
        TakeTools(if c.delta.tools.Calls? then c.delta.tools.calls else []);
        if failed { return; }
      }
      if c.finish.BadFinish? {
        failed := true;
        return;
      }
      if c.finish.Finish? {
        finish := c.finish.reason;
        if finish == "end" {
          finish, normalized := "stop", true;
        } else if finish == "function_call" {
          finish, normalized := "tool_calls", true;
        }
        if finish != "stop" && finish != "tool_calls" && finish != "length" && finish != "content_filter" {
          failed := true;
          return;
        }
        hold := true;
      }
    }

    /** The text keys of a delta, in whatever order the map yields them. */
    method TakeTexts(texts: map<string, TextField>)
      requires !failed
      modifies this`failed, this`text
      ensures var all := AddTexts(old(text), texts);
              failed == all.None? && (all.Some? ==> text == all.value)
    {
      hide AddTexts;
      ghost var prior := text;
      ghost var seen: map<string, TextField> := map[];
      NoTexts(prior);
      var left := texts.Keys;
      while left != {}
        invariant left <= texts.Keys && seen.Keys == texts.Keys - left && Part(seen, texts)
        invariant !failed && AddTexts(prior, seen) == Some(text)
      {
        var key :| key in left;
        left := left - {key};
        OneText(prior, seen, key, texts[key]);
        seen := seen[key := texts[key]];
        TextsStop(prior, seen, texts);
        if key !in TEXT_KEYS || texts[key].NullText? { continue; }
        if texts[key].BadText? {
          failed := true;
          return;
        }
        text := text[key := (if key in text then text[key] else "") + texts[key].text];
      }
      assert seen == texts;
    }

    method TakeTools(calls: seq<Call>)
      requires !failed
      modifies this`failed, this`tools
      ensures var all := AddTools(old(tools), calls);
              failed == all.None? && (all.Some? ==> tools == all.value)
    {
      ghost var prior := tools;
      for i := 0 to |calls|
        invariant !failed && AddTools(prior, calls[..i]) == Some(tools)
      {
        hide AddTool;
        assert calls[..i + 1][..i] == calls[..i];
        AddingStops(prior, calls, i + 1);
        TakeTool(calls[i]);
        if failed { return; }
      }
      assert calls[..|calls|] == calls;
    }

    method TakeTool(call: Call)
      requires !failed
      modifies this`failed, this`tools
      ensures var all := AddTool(old(tools), call);
              failed == all.None? && (all.Some? ==> tools == all.value)
    {
      if call.index.None? || call.index.value < 0 || call.index.value > MAX_TOOL_INDEX || call.malformed {
        failed := true;
        return;
      }
      ToolTaken(tools, call);
      hide AddTool;
      var i := call.index.value;
      var tool := if i in tools then tools[i] else NO_TOOL;
      if call.id.Some? {
        if tool.id != "" && tool.id != call.id.value {
          failed := true;
          return;
        }
        tool := tool.(id := call.id.value);
      }
      if call.kind.Some? {
        if tool.kind != "" && tool.kind != call.kind.value {
          failed := true;
          return;
        }
        tool := tool.(kind := call.kind.value);
      }
      assert tool.name + "" == tool.name && tool.arguments + "" == tool.arguments;
      if call.name.Some? { tool := tool.(name := tool.name + call.name.value); }
      if call.arguments.Some? { tool := tool.(arguments := tool.arguments + call.arguments.value); }
      tools := tools[i := tool];
    }

    /** The completed response, or failure for good. */
    method FinishResponse() returns (c: Option<Completion>)
      requires Valid()
      modifies this`failed
      ensures c == Response.FinishResponse(codec, old(State()))
      ensures c.None? ==> failed
    {
      c := None;
      if failed { return; }
      if !done || hasData || line != [] || (finish != "stop" && finish != "tool_calls")
         || (finish == "tool_calls" && tools == map[]) {
        failed := true;
        return;
      }
      var indices := SortedIndices(tools);
      var calls := FinishedCalls(codec, tools, indices);
      if calls.None? {
        failed := true;
        return;
      }
      return Some(Completion(finish, text, calls.value, metadata, usage));
    }
  }

  /** The loop over the sorted indices, with its id set. */
  method FinishedCalls(codec: Codec, tools: map<int, Tool>, indices: seq<int>) returns (calls: Option<seq<Tool>>)
    requires InRange(tools) && Listing(tools, indices, 0)
    ensures var all := ToolsFrom(tools, 0); calls == if AllCallable(codec, all) then Some(all) else None
  {
    hide AllCallable, Callable, Listing, ToolsFrom, InRange, IdsOf, Text.Trim;
    ghost var all := ToolsFrom(tools, 0);
    InIndexOrder(tools, indices, 0);
    NoCalls(codec);
    var taken: seq<Tool>, ids: set<string> := [], {};
    for i := 0 to |indices|
      invariant taken == all[..i] && AllCallable(codec, taken) && ids == IdsOf(taken)
    {
      var tool := tools[indices[i]];
      OneCall(codec, all, i);
      if tool.id == "" || tool.id in ids || tool.kind != "function" || Text.Trim(tool.name) == ""
         || !codec.isObject(tool.arguments) { return None; }
      taken, ids := taken + [tool], ids + {tool.id};
    }
    assert taken == all;
    return Some(taken);
  }

  // ---- the two loops over a map: no order of its keys matters ----

  ghost function IdsOf(calls: seq<Tool>): set<string> {
    set t | t in calls :: t.id
  }

  lemma NoCalls(codec: Codec)
    ensures AllCallable(codec, []) && IdsOf([]) == {}
  {
  }

  // ---- the indices, collected in arbitrary order and sorted ----

  ghost predicate InRange(tools: map<int, Tool>) {
    forall i :: i in tools ==> 0 <= i <= MAX_TOOL_INDEX
  }

  ghost predicate Increasing(indices: seq<int>) {
    forall i, j :: 0 <= i < j < |indices| ==> indices[i] < indices[j]
  }

  /** The indices of the tools from the first one on, sorted. */
  ghost predicate Listing(tools: map<int, Tool>, indices: seq<int>, first: int) {
    && Increasing(indices)
    && (forall k :: 0 <= k < |indices| ==> indices[k] in tools && first <= indices[k])
    && (forall i :: i in tools && first <= i ==> i in indices)
  }

  method SortedIndices(tools: map<int, Tool>) returns (indices: seq<int>)
    ensures InRange(tools) ==> Listing(tools, indices, 0)
  {
    indices := [];
    var rest := tools.Items;
    while rest != {}
      invariant rest <= tools.Items && Increasing(indices)
      invariant forall item :: item in rest ==> item.0 !in indices
      invariant forall i :: i in indices ==> i in tools
      invariant forall i :: i in tools ==> i in indices || (i, tools[i]) in rest
      decreases |rest|
    {
      var item :| item in rest;
      forall other | other in rest - {item} ensures other.0 != item.0 {
        assert other.1 == tools[other.0] && item.1 == tools[item.0];
      }
      indices := Inserted(indices, item.0);
      rest := rest - {item};
    }
    assert forall k :: 0 <= k < |indices| ==> indices[k] in indices;
  }

  /** One insertion into the sorted front. */
  method Inserted(indices: seq<int>, index: int) returns (all: seq<int>)
    requires Increasing(indices) && index !in indices
    ensures Increasing(all)
    ensures forall i :: i in all <==> i in indices || i == index
  {
    var n := 0;
    while n < |indices| && indices[n] < index
      invariant 0 <= n <= |indices|
      invariant forall i :: 0 <= i < n ==> indices[i] < index
    {
      n := n + 1;
    }
    hide Increasing;
    all := indices[..n] + [index] + indices[n..];
    assert indices == indices[..n] + indices[n..];
    InsertedIncreases(indices, n, index);
  }

  lemma InsertedIncreases(indices: seq<int>, n: nat, index: int)
    requires Increasing(indices) && n <= |indices| && index !in indices
    requires forall i :: 0 <= i < n ==> indices[i] < index
    requires n < |indices| ==> index <= indices[n]
    ensures Increasing(indices[..n] + [index] + indices[n..])
  {
    var all := indices[..n] + [index] + indices[n..];
    assert n < |indices| ==> indices[n] in indices;
    forall i, j | 0 <= i < j < |all| ensures all[i] < all[j] {
      assert all[j] == if j < n then indices[j] else if j == n then index else indices[j - 1];
      assert all[i] == if i < n then indices[i] else if i == n then index else indices[i - 1];
      if i == n && j > n + 1 { assert indices[n] < indices[j - 1]; }
    }
  }

  lemma {:induction false} InIndexOrder(tools: map<int, Tool>, indices: seq<int>, first: int)
    requires InRange(tools) && Listing(tools, indices, first) && first <= MAX_TOOL_INDEX + 1
    ensures |ToolsFrom(tools, first)| == |indices|
    ensures forall k :: 0 <= k < |indices| ==> indices[k] in tools && ToolsFrom(tools, first)[k] == tools[indices[k]]
    decreases MAX_TOOL_INDEX + 1 - first
  {
    hide Listing, ToolsFrom, InRange;
    NextIndex(tools, indices, first);
    TakenFrom(tools, first);
    if first > MAX_TOOL_INDEX {
    } else if first in tools {
      var rest := ToolsFrom(tools, first + 1);
      InIndexOrder(tools, indices[1..], first + 1);
      forall k | 0 <= k < |indices| ensures ([tools[first]] + rest)[k] == tools[indices[k]] {
        if k > 0 { assert indices[k] == indices[1..][k - 1]; }
      }
    } else {
      InIndexOrder(tools, indices, first + 1);
    }
  }

  lemma TakenFrom(tools: map<int, Tool>, first: int)
    ensures first > MAX_TOOL_INDEX ==> ToolsFrom(tools, first) == []
    ensures first <= MAX_TOOL_INDEX ==>
              ToolsFrom(tools, first) == (if first in tools then [tools[first]] else []) + ToolsFrom(tools, first + 1)
  {
  }

  lemma NextIndex(tools: map<int, Tool>, indices: seq<int>, first: int)
    requires InRange(tools) && Listing(tools, indices, first)
    ensures first > MAX_TOOL_INDEX ==> indices == []
    ensures first in tools ==> indices != [] && indices[0] == first && Listing(tools, indices[1..], first + 1)
    ensures first !in tools ==> Listing(tools, indices, first + 1)
    ensures forall k :: 0 <= k < |indices| ==> indices[k] in tools
  {
    if indices != [] { assert indices[0] in tools; }
    if first in tools {
      var k :| 0 <= k < |indices| && indices[k] == first;
      assert indices[0] >= first == indices[k];
      forall i | i in tools && first + 1 <= i ensures i in indices[1..] {
        var j :| 0 <= j < |indices| && indices[j] == i;
        assert indices[1..][j - 1] == i;
      }
    }
  }

  lemma {:induction false} ToolsInRange(tools: map<int, Tool>, calls: seq<Call>)
    requires InRange(tools) && AddTools(tools, calls).Some?
    ensures InRange(AddTools(tools, calls).value)
  {
    if calls != [] { ToolsInRange(tools, calls[..|calls| - 1]); }
  }

  lemma FrameInRange(codec: Codec, r: Reply, raw: seq<byte>)
    requires InRange(r.tools) && DecodeFrame(codec, r, raw).Some?
    ensures InRange(DecodeFrame(codec, r, raw).value.0.tools)
  {
    hide InRange, AddTools, AddFields, AddTexts, Rewritten, MustWait;
    if raw != DONE_MARK {
      var b := ParseFrame(codec, raw);
      if b.choices.all != [] && b.choices.all[0].delta.Delta? {
        var tools := b.choices.all[0].delta.tools;
        ToolsInRange(r.tools, if tools.Calls? then tools.calls else []);
      }
    }
  }

  lemma {:induction false} BytesInRange(codec: Codec, d: Decoder, bytes: seq<byte>)
    requires InRange(d.reply.tools)
    ensures var after := DecodeBytes(codec, d, bytes).0; !after.failed ==> InRange(after.reply.tools)
  {
    hide InRange, DecodeFrame, Push;
    if bytes != [] {
      var init, b := bytes[..|bytes| - 1], bytes[|bytes| - 1];
      BytesInRange(codec, d, init);
      var mid := DecodeBytes(codec, d, init).0;
      match Push(mid.framer, b, FRAME_LIMIT)
      case Frame(f, raw) =>
        if !mid.failed && DecodeFrame(codec, mid.reply, raw).Some? { FrameInRange(codec, mid.reply, raw); }
      case _ =>
    }
  }

  /** One more tool keeps the calls valid exactly when it is callable under a new id. */
  lemma OneCall(codec: Codec, all: seq<Tool>, i: nat)
    requires i < |all| && AllCallable(codec, all[..i])
    ensures all[..i + 1] == all[..i] + [all[i]] && IdsOf(all[..i + 1]) == IdsOf(all[..i]) + {all[i].id}
    ensures var t := all[i];
            var good := t.id !in IdsOf(all[..i]) && t.id != "" && t.kind == "function" && Text.Trim(t.name) != ""
                        && codec.isObject(t.arguments);
            && (good ==> AllCallable(codec, all[..i + 1]))
            && (!good ==> !AllCallable(codec, all))
  {
    hide Callable;
    var t, calls, more := all[i], all[..i], all[..i + 1];
    CallableIs(codec, t);
    if t.id in IdsOf(calls) {
      var u :| u in calls && u.id == t.id;
      var k :| 0 <= k < |calls| && calls[k] == u;
      assert all[k].id == all[i].id;
    } else {
      assert forall k :: 0 <= k < |calls| ==> calls[k].id in IdsOf(calls);
    }
    assert forall x :: x in more <==> x in calls || x == t;
  }

  lemma CallableIs(codec: Codec, t: Tool)
    ensures Callable(codec, t)
            <==> t.id != "" && t.kind == "function" && Text.Trim(t.name) != "" && codec.isObject(t.arguments)
  {
  }

  ghost predicate Part<V>(a: map<string, V>, b: map<string, V>) {
    forall k :: k in a ==> k in b && b[k] == a[k]
  }

  lemma NoFields(prior: map<string, Json>)
    ensures AddFields(prior, map[]) == Some(prior)
  {
    var none: map<string, Json> := map[];
    assert prior + (map k | k in none && Recorded(k, none[k]) :: none[k]) == prior;
  }

  lemma OneRecorded(prior: map<string, Json>, seen: map<string, Json>, key: string, value: Json)
    requires key !in seen
    ensures var more := seen[key := value];
            var acc := prior + map k | k in seen && Recorded(k, seen[k]) :: seen[k];
            prior + (map k | k in more && Recorded(k, more[k]) :: more[k])
            == if Recorded(key, value) then acc[key := value] else acc
  {
    hide Recorded;
    var more := seen[key := value];
    var added := map k | k in more && Recorded(k, more[k]) :: more[k];
    var before := map k | k in seen && Recorded(k, seen[k]) :: seen[k];
    assert added == if Recorded(key, value) then before[key := value] else before;
  }

  lemma OneField(prior: map<string, Json>, seen: map<string, Json>, key: string, value: Json)
    requires key !in seen && AddFields(prior, seen).Some?
    ensures var acc := AddFields(prior, seen).value;
            AddFields(prior, seen[key := value])
            == if key in IDENTITY_KEYS && value.shape == JNull then Some(acc)
               else if key in IDENTITY_KEYS && (!WellTyped(key, value) || (key in acc && acc[key].raw != value.raw))
               then None
               else Some(acc[key := value])
  {
    hide WellTyped, IDENTITY_KEYS, Recorded;
    RecordedIs(key, value);
    OneRecorded(prior, seen, key, value);
    var acc, more := AddFields(prior, seen).value, seen[key := value];
    assert key in acc <==> key in prior;
    assert key in acc ==> acc[key] == prior[key];
    assert forall k :: k in seen ==> more[k] == seen[k];
  }

  lemma RecordedIs(key: string, value: Json)
    ensures Recorded(key, value) <==> !(key in IDENTITY_KEYS && value.shape == JNull)
    ensures value.shape == JNull ==> WellTyped(key, value)
  {
  }

  lemma FieldsStop(prior: map<string, Json>, seen: map<string, Json>, fields: map<string, Json>)
    requires Part(seen, fields)
    ensures AddFields(prior, seen).None? ==> AddFields(prior, fields).None?
  {
    hide WellTyped, Recorded;
    if AddFields(prior, seen).None? {
      var k :| k in IDENTITY_KEYS && k in seen
               && (!WellTyped(k, seen[k]) || (Recorded(k, seen[k]) && k in prior && prior[k].raw != seen[k].raw));
      assert fields[k] == seen[k];
    }
  }

  lemma NoTexts(prior: map<string, string>)
    ensures AddTexts(prior, map[]) == Some(prior)
  {
    var none: map<string, TextField> := map[];
    forall k ensures !Says(none, k) {}
    hide Says;
    assert forall k :: k in prior ==> Extended(prior, none, k) == prior[k] + "" == prior[k];
    var all := AddTexts(prior, none).value;
    assert all == prior;
  }

  lemma OneExtended(prior: map<string, string>, seen: map<string, TextField>, key: string, field: TextField)
    requires key !in seen
    ensures var more := seen[key := field];
            && (forall k :: k != key
                  ==> Says(more, k) == Says(seen, k) && Extended(prior, more, k) == Extended(prior, seen, k))
            && !Says(seen, key) && Says(more, key) == (key in TEXT_KEYS && field.Said?)
            && Extended(prior, seen, key) == (if key in prior then prior[key] else "")
            && Extended(prior, more, key) == Extended(prior, seen, key) + (if Says(more, key) then field.text else "")
  {
    hide TEXT_KEYS;
    var before := if key in prior then prior[key] else "";
    assert before + "" == before;
  }

  lemma OneText(prior: map<string, string>, seen: map<string, TextField>, key: string, field: TextField)
    requires key !in seen && AddTexts(prior, seen).Some?
    ensures var acc := AddTexts(prior, seen).value;
            AddTexts(prior, seen[key := field])
            == if key !in TEXT_KEYS || field.NullText? then Some(acc)
               else if field.BadText? then None
               else Some(acc[key := (if key in acc then acc[key] else "") + field.text])
  {
    hide TEXT_KEYS, Says, Extended;
    var acc, more := AddTexts(prior, seen).value, seen[key := field];
    OneExtended(prior, seen, key, field);
    if key in TEXT_KEYS && field.BadText? {
      assert more[key].BadText?;
    } else {
      var all := AddTexts(prior, more).value;
      if Says(more, key) {
        assert all == acc[key := (if key in acc then acc[key] else "") + field.text];
      } else {
        assert Extended(prior, more, key) == Extended(prior, seen, key);
        assert all == acc;
      }
    }
  }

  lemma TextsStop(prior: map<string, string>, seen: map<string, TextField>, texts: map<string, TextField>)
    requires Part(seen, texts)
    ensures AddTexts(prior, seen).None? ==> AddTexts(prior, texts).None?
  {
    if AddTexts(prior, seen).None? {
      var k :| k in TEXT_KEYS && k in seen && seen[k].BadText?;
      assert texts[k] == seen[k];
    }
  }

  lemma DecodedSoFar(codec: Codec, d: Decoder, chunk: seq<byte>, i: nat)
    requires i < |chunk|
    ensures var (d1, before) := DecodeBytes(codec, d, chunk[..i]);
            var (d2, last) := DecodeByte(codec, d1, chunk[i]);
            && DecodeBytes(codec, d, chunk[..i + 1]) == (d2, before + last)
            && (d2.failed ==> DecodeBytes(codec, d, chunk).0.failed)
  {
    hide DecodeByte;
    assert chunk[..i + 1][..i] == chunk[..i];
    assert chunk[..i + 1] + chunk[i + 1..] == chunk;
    BytesConcat(codec, d, chunk[..i + 1], chunk[i + 1..]);
    var d2 := DecodeBytes(codec, d, chunk[..i + 1]).0;
    if d2.failed {
      FailureIsSticky(codec, d2, chunk[i + 1..]);
    }
  }

  /** The flags collected branch by branch are those the commit rests on. */
  lemma FlagsAre(b: Body, hold: bool, normalized: bool)
    requires b.Body? && b.choices.Choices? && |b.choices.all| <= 1
    requires var c := b.choices.all;
             && hold == (b.usage.Usage? || (c != [] && (CarriesCalls(c[0].delta) || c[0].finish.Finish?)))
             && normalized == (c != [] && c[0].finish.Finish? && Normalized(c[0].finish.reason) != c[0].finish.reason)
    ensures hold == MustWait(b)
    ensures Rewritten(b) == if normalized then Some(Normalized(b.choices.all[0].finish.reason)) else None
  {
  }

  lemma NothingDecoded(codec: Codec, d: Decoder, chunk: seq<byte>)
    ensures DecodeBytes(codec, d, chunk[..0]) == (d, [])
  {
    assert chunk[..0] == [];
  }

  lemma ToolTaken(tools: map<int, Tool>, call: Call)
    requires call.index.Some? && 0 <= call.index.value <= MAX_TOOL_INDEX && !call.malformed
    ensures var tool := if call.index.value in tools then tools[call.index.value] else NO_TOOL;
            var id, kind := SetOnce(tool.id, call.id), SetOnce(tool.kind, call.kind);
            AddTool(tools, call)
            == if id.None? || kind.None? then None
               else Some(tools[call.index.value := Tool(id.value, kind.value, Added(tool.name, call.name),
                   Added(tool.arguments, call.arguments))])
  {
  }

  lemma {:induction false} AddingStops(tools: map<int, Tool>, calls: seq<Call>, i: nat)
    requires i <= |calls|
    ensures AddTools(tools, calls[..i]).None? ==> AddTools(tools, calls).None?
    decreases |calls| - i
  {
    if i < |calls| {
      AddingStops(tools, calls, i + 1);
      assert calls[..i + 1][..i] == calls[..i];
    } else {
      assert calls[..i] == calls;
    }
  }

  // ---- the two paths ----

  /** RelayOpenCodeSSE over a chunk sequence; `emit(n)` tells whether the n-th emission succeeds. */
  method RelayOpenCodeSSE(codec: Codec, chunks: seq<Chunk>, emit: nat -> bool)
    returns (ok: bool, emitted: seq<Event>)
    ensures ok == !RelayOf(codec, chunks, emit).failed
    ensures emitted == RelayOf(codec, chunks, emit).emitted
  {
    hide Feed, TakeEvents, Response.FinishResponse;
    var p := new ResponseDecoder(codec);
    var held: seq<Event>, heldBytes, holding := [], 0, false;
    ok, emitted := true, [];
    assert chunks[..0] == [];
    for i := 0 to |chunks|
      invariant p.codec == codec && p.Valid() && heldBytes == Size(codec, held)
      invariant TakeChunks(codec, chunks[..i], emit) == Relay(p.State(), held, holding, emitted, false)
    {
      ghost var r := TakeChunks(codec, chunks[..i], emit);
      assert chunks[..i + 1][..i] == chunks[..i];
      RelayStops(codec, chunks, i + 1, emit);
      if chunks[i].ReadError? { return false, emitted; }
      var events := p.Feed(chunks[i].bytes);
      if events.None? { return false, emitted; }
      ok, held, heldBytes, holding, emitted :=
        TakeAll(codec, p.State(), held, heldBytes, holding, emitted, events.value, emit);
      if !ok { return; }
    }
    assert chunks[..|chunks|] == chunks;
    ghost var r := TakeChunks(codec, chunks, emit);
    var response := p.FinishResponse();
    if response.None? { return false, emitted; }
    for i := 0 to |held|
      invariant Flush(r, emit) == Flush(r.(held := held[i..], emitted := emitted), emit)
    {
      var sent := emit(|emitted|);
      emitted := emitted + [held[i]];
      assert held[i..][1..] == held[i + 1..];
      if !sent { return false, emitted; }
    }
  }

  /** The inner loop: what the events of one chunk do to the withheld frames. */
  method TakeAll(codec: Codec, ghost d: Decoder, held0: seq<Event>, heldBytes0: nat, holding0: bool,
                 emitted0: seq<Event>, events: seq<Event>, emit: nat -> bool)
    returns (ok: bool, held: seq<Event>, heldBytes: nat, holding: bool, emitted: seq<Event>)
    requires heldBytes0 == Size(codec, held0)
    ensures var r := TakeEvents(codec, Relay(d, held0, holding0, emitted0, false), events, emit);
            && ok == !r.failed && emitted == r.emitted
            && (ok ==> r == Relay(d, held, holding, emitted, false) && heldBytes == Size(codec, held))
  {
    ok, held, heldBytes, holding, emitted := true, held0, heldBytes0, holding0, emitted0;
    ghost var r0 := Relay(d, held0, holding0, emitted0, false);
    for i := 0 to |events|
      invariant heldBytes == Size(codec, held)
      invariant TakeEvents(codec, r0, events[..i], emit) == Relay(d, held, holding, emitted, false)
    {
      assert events[..i + 1][..i] == events[..i];
      TakingStops(codec, r0, events, i + 1, emit);
      holding := holding || events[i].hold;
      if holding {
        SizeAppend(codec, held, events[i]);
        heldBytes := heldBytes + |codec.render(events[i])|;
        if heldBytes > HELD_LIMIT { return false, held, heldBytes, holding, emitted; }
        held := held + [events[i]];
      } else {
        var sent := emit(|emitted|);
        emitted := emitted + [events[i]];
        if !sent { return false, held, heldBytes, holding, emitted; }
      }
    }
    assert events[..|events|] == events;
  }

  lemma {:induction false} TakingStops(codec: Codec, r: Relay, events: seq<Event>, i: nat, emit: nat -> bool)
    requires i <= |events|
    ensures TakeEvents(codec, r, events[..i], emit).failed ==>
              TakeEvents(codec, r, events, emit) == TakeEvents(codec, r, events[..i], emit)
    decreases |events| - i
  {
    if i < |events| {
      TakingStops(codec, r, events, i + 1, emit);
      assert events[..i + 1][..i] == events[..i];
    } else {
      assert events[..i] == events;
    }
  }

  lemma {:induction false} RelayStops(codec: Codec, chunks: seq<Chunk>, i: nat, emit: nat -> bool)
    requires i <= |chunks|
    ensures TakeChunks(codec, chunks[..i], emit).failed ==>
              RelayOf(codec, chunks, emit) == TakeChunks(codec, chunks[..i], emit)
    decreases |chunks| - i
  {
    hide Feed, TakeEvents, Response.FinishResponse, Flush, TakeChunk;
    if i < |chunks| {
      RelayStops(codec, chunks, i + 1, emit);
      assert chunks[..i + 1][..i] == chunks[..i];
      if TakeChunks(codec, chunks[..i], emit).failed {
        FailureStays(codec, TakeChunks(codec, chunks[..i], emit), chunks[i], emit);
      }
    } else {
      assert chunks[..i] == chunks;
    }
  }

  /** CollectOpenCodeSSE. */
  method CollectOpenCodeSSE(codec: Codec, body: seq<byte>) returns (c: Option<Completion>)
    ensures c == Collect(codec, body)
  {
    hide Feed;
    var p := new ResponseDecoder(codec);
    var events := p.Feed(body);
    if events.None? { return None; }
    c := p.FinishResponse();
  }
}
