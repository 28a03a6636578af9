/** The StreamParser of plugins/cline/stream.go as the source writes it: fields that change per byte. */
module StreamParsers {
  import opened Prelude
  import opened Sse
  import opened ClineStream

  class StreamParser {
    const codec: Codec
    const limit: nat
    var line: seq<byte>
    var frame: seq<byte>
    var hasData: bool
    var done: bool
    var finish: string
    var failed: bool

    ghost function State(): Parser
      reads this
    {
      Parser(Framer(line, frame, hasData), done, finish, failed)
    }

    /** NewStreamParserWithSize; NewStreamParser passes DEFAULT_LIMIT. */
    constructor (codec: Codec, size: int)
      ensures this.codec == codec && limit == (if size <= 0 then 1_048_576 else size) && State() == FRESH
    {
      this.codec, limit := codec, if size <= 0 then DEFAULT_LIMIT else size;
      line, frame, hasData, done, finish, failed := [], [], false, false, "", false;
    }

    method Feed(chunk: seq<byte>) returns (events: Option<seq<StreamEvent>>)
      modifies this
      ensures var (p, all) := ClineStream.Feed(codec, limit, old(State()), chunk);
              && events == (if p.failed then None else Some(all))
              && failed == p.failed
              && (!p.failed ==> State() == p)
    {
      hide ParseBytes, ParseByte;
      ghost var start := State();
      if failed {
        FailureIsSticky(codec, limit, start, chunk);
        return None;
      }
      var out: seq<StreamEvent> := [];
      NothingParsed(codec, limit, start, chunk);
      for i := 0 to |chunk|
        invariant !failed && ParseBytes(codec, limit, start, chunk[..i]) == (State(), out)
      {
        ParsedSoFar(codec, limit, start, chunk, i);
        var e := FeedByte(chunk[i]);
        if failed { return None; }
        out := out + e;
      }
      assert chunk[..|chunk|] == chunk;
      return Some(out);
    }

    /** The body of the byte loop. */
    method FeedByte(b: byte) returns (events: seq<StreamEvent>)
      requires !failed
      modifies this
      ensures var (p, all) := ParseByte(codec, limit, old(State()), b);
              failed == p.failed && (!p.failed ==> State() == p && events == all)
    {
      hide ClineStream.Decode;
      events := [];
      if done {
        failed := true;
        return;
      }
      if b != LF {
        line := line + [b];
        failed := |line| + |frame| > limit;
        return;
      }
      var l := StripCr(line);
      line := [];
      if l == [] {
        if !hasData { return; }
        var data := frame;
        frame, hasData := [], false;
        var event := Decode(data);
        if event.Some? { events := [event.value]; }
        return;
      }
      if l[0] == COLON || Field(l) != DATA { return; }
      if hasData { frame := frame + [LF]; }
      frame, hasData := frame + Value(l), true;
      failed := |frame| > limit;
    }

    method Decode(data: seq<byte>) returns (event: Option<StreamEvent>)
      requires !failed && !done
      modifies this`finish, this`done, this`failed
      ensures event == ClineStream.Decode(codec, old(finish), data)
      ensures failed == event.None?
      ensures event.Some? ==> done == event.value.done && finish == event.value.finishReason
    {
      event := None;
      if data == DONE_MARK {
        if finish == "" {
          failed := true;
          return;
        }
        done := true;
        return Some(StreamEvent([], true, finish == "stop" || finish == "tool_calls", finish));
      }
      var body := ParseFrame(codec, data);
      if body.NotJson? || body.error || (finish != "" && body.choices != []) || |body.choices| > 1
         || (body.choices == [] && !body.usage) {
        failed := true;
        return;
      }
      if body.choices != [] {
        var choice := body.choices[0];
        if choice.index != 0 || (choice.finish.Some? && !Supported(choice.finish.value)) {
          failed := true;
          return;
        }
        if choice.finish.Some? { finish := choice.finish.value; }
      }
      event := Some(StreamEvent(data, false, false, finish));
    }

    /** Must be called on EOF; a truncated stream is never a success. */
    method Finish() returns (ok: bool)
      modifies this`failed
      ensures ok == Complete(old(State())) && failed == !ok
    {
      if !failed && (!done || |line| > 0 || hasData) { failed := true; }
      ok := !failed;
    }
  }

  lemma NothingParsed(codec: Codec, limit: nat, p: Parser, chunk: seq<byte>)
    ensures ParseBytes(codec, limit, p, chunk[..0]) == (p, [])
  {
    assert chunk[..0] == [];
  }

  lemma ParsedSoFar(codec: Codec, limit: nat, p: Parser, chunk: seq<byte>, i: nat)
    requires i < |chunk|
    ensures var (p1, before) := ParseBytes(codec, limit, p, chunk[..i]);
            var (p2, last) := ParseByte(codec, limit, p1, chunk[i]);
            && ParseBytes(codec, limit, p, chunk[..i + 1]) == (p2, before + last)
            && (p2.failed ==> ParseBytes(codec, limit, p, chunk).0.failed)
  {
    hide ParseByte;
    assert chunk[..i + 1][..i] == chunk[..i];
    assert chunk[..i + 1] + chunk[i + 1..] == chunk;
    BytesConcat(codec, limit, p, chunk[..i + 1], chunk[i + 1..]);
    var p2 := ParseBytes(codec, limit, p, chunk[..i + 1]).0;
    if p2.failed {
      FailureIsSticky(codec, limit, p2, chunk[i + 1..]);
    }
  }
}
