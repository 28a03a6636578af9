/**
  The byte-level framing shared by plugins/opencode/response.go (feed) and
  plugins/cline/stream.go (Feed), and its specification: section 9.2.6 of the WHATWG HTML
  standard restricted to LF and CRLF line ends, no byte order mark, and the `data` field.
 */
module Sse {
  import opened Prelude

  newtype byte = x: int | 0 <= x < 256

  const LF: byte := 10
  const CR: byte := 13
  const SPACE: byte := 32
  const TAB: byte := 9
  const COLON: byte := 58
  const DATA: seq<byte> := [100, 97, 116, 97]
  const DONE_MARK: seq<byte> := [91, 68, 79, 78, 69, 93]

  /** The buffers of a parser between two bytes. */
  datatype Framer = Framer(line: seq<byte>, data: seq<byte>, hasData: bool)

  datatype Framed = Overflow | Quiet(next: Framer) | Frame(next: Framer, frame: seq<byte>)

  const START: Framer := Framer([], [], false)

  function StripCr(line: seq<byte>): seq<byte> {
    if line != [] && line[|line| - 1] == CR then line[..|line| - 1] else line
  }

  /** bytes.Cut at the first colon: the field name, and the value without one leading space. */
  function Field(line: seq<byte>): (r: seq<byte>)
    ensures |r| <= |line|
  {
    if line == [] || line[0] == COLON then [] else [line[0]] + Field(line[1..])
  }

  function Value(line: seq<byte>): (r: seq<byte>)
    ensures |Field(line)| + |r| <= |line|
  {
    if line == [] then []
    else if line[0] == COLON then (if |line| > 1 && line[1] == SPACE then line[2..] else line[1..])
    else Value(line[1..])
  }

  /** The value a line contributes to the event, if it is a data line. */
  function DataValue(line: seq<byte>): Option<seq<byte>> {
    if line == [] || line[0] == COLON || Field(line) != DATA then None else Some(Value(line))
  }

  function Joined(data: seq<byte>, hasData: bool, value: seq<byte>): seq<byte> {
    (if hasData then data + [LF] else data) + value
  }

  /** One byte of the feed loop. */
  function Push(f: Framer, b: byte, limit: nat): Framed {
    if b != LF then
      if |f.line| + 1 + |f.data| > limit then Overflow else Quiet(f.(line := f.line + [b]))
    else
      var line := StripCr(f.line);
      if line == [] then
        if f.hasData then Frame(START, f.data) else Quiet(f.(line := []))
      else
        match DataValue(line)
        case None => Quiet(f.(line := []))
        case Some(value) =>
          var data := Joined(f.data, f.hasData, value);
          if |data| > limit then Overflow else Quiet(Framer([], data, true))
  }

  /** The text that a sequence of chunks carries. */
  function Concat(chunks: seq<seq<byte>>): seq<byte> {
    if chunks == [] then [] else Concat(chunks[..|chunks| - 1]) + chunks[|chunks| - 1]
  }

  /** Buffers that passed the size check of every byte. */
  predicate Bounded(f: Framer, limit: nat) {
    |f.line| + |f.data| <= limit && (!f.hasData ==> f.data == [])
  }

  /**
    The second size check, after joining a data line, never fires: the line that carried the value
    was longer than what it adds to the frame.
   */
  lemma JoinNeverOverflows(f: Framer, limit: nat)
    requires Bounded(f, limit)
    ensures Push(f, LF, limit) != Overflow
  {
    var line := StripCr(f.line);
    assert |line| <= |f.line|;
    if DataValue(line).Some? {
      assert |Field(line)| == |DATA|;
    }
  }

  lemma PushBounded(f: Framer, b: byte, limit: nat)
    requires Bounded(f, limit) && Push(f, b, limit) != Overflow
    ensures Bounded(Push(f, b, limit).next, limit)
  {
    if b == LF {
      JoinNeverOverflows(f, limit);
      var line := StripCr(f.line);
      if DataValue(line).Some? {
        assert |Field(line)| == |DATA|;
      }
    }
  }

  lemma FrameLeavesStart(f: Framer, b: byte, limit: nat)
    requires Push(f, b, limit).Frame?
    ensures Push(f, b, limit).next == START
  {
  }

  // ---- the specification ----

  /** The lines of a text that an LF ends, without it. */
  function Lines(text: seq<byte>): seq<seq<byte>> {
    if text == [] then []
    else
      var init, last := text[..|text| - 1], text[|text| - 1];
      if last == LF then Lines(init) + [OpenLine(init)] else Lines(init)
  }

  /** What follows the last LF. */
  function OpenLine(text: seq<byte>): seq<byte> {
    if text == [] || text[|text| - 1] == LF then []
    else OpenLine(text[..|text| - 1]) + [text[|text| - 1]]
  }

  /** The data values since the last blank line. */
  function Pending(lines: seq<seq<byte>>): seq<seq<byte>> {
    if lines == [] then []
    else
      var before, line := Pending(lines[..|lines| - 1]), StripCr(lines[|lines| - 1]);
      if line == [] then []
      else
        match DataValue(line)
        case None => before
        case Some(value) => before + [value]
  }

  function Join(values: seq<seq<byte>>): seq<byte> {
    if values == [] then []
    else if |values| == 1 then values[0]
    else Join(values[..|values| - 1]) + [LF] + values[|values| - 1]
  }

  /** A blank line dispatches the values collected since the previous one, joined by LF, if any. */
  function Frames(lines: seq<seq<byte>>): seq<seq<byte>> {
    if lines == [] then []
    else
      var init := lines[..|lines| - 1];
      if StripCr(lines[|lines| - 1]) == [] && Pending(init) != [] then Frames(init) + [Join(Pending(init))]
      else Frames(init)
  }

  /** The buffers a parser must hold after reading a text. */
  function FramerAfter(text: seq<byte>): Framer {
    var pending := Pending(Lines(text));
    Framer(OpenLine(text), Join(pending), pending != [])
  }

  lemma JoinOne(values: seq<seq<byte>>, v: seq<byte>)
    ensures Join(values + [v]) == Joined(Join(values), values != [], v)
  {
    assert (values + [v])[..|values|] == values;
  }

  lemma LinesAppend(text: seq<byte>, b: byte)
    ensures Lines(text + [b]) == if b == LF then Lines(text) + [OpenLine(text)] else Lines(text)
    ensures OpenLine(text + [b]) == if b == LF then [] else OpenLine(text) + [b]
  {
    assert (text + [b])[..|text|] == text;
  }

  lemma PendingAppend(lines: seq<seq<byte>>, line: seq<byte>)
    ensures var l := StripCr(line);
            && Pending(lines + [line]) == (if l == [] then []
                                           else if DataValue(l).None? then Pending(lines)
                                           else Pending(lines) + [DataValue(l).value])
            && Frames(lines + [line]) == Frames(lines)
                + (if l == [] && Pending(lines) != [] then [Join(Pending(lines))] else [])
  {
    assert (lines + [line])[..|lines|] == lines;
  }

  /** Each byte keeps the buffers what the specification says, and dispatches exactly its frames. */
  lemma PushFollowsSpec(text: seq<byte>, b: byte, limit: nat)
    requires Push(FramerAfter(text), b, limit) != Overflow
    ensures var step := Push(FramerAfter(text), b, limit);
            && step.next == FramerAfter(text + [b])
            && Frames(Lines(text + [b])) == Frames(Lines(text)) + (if step.Frame? then [step.frame] else [])
  {
    hide Lines, OpenLine, Pending, Frames, DataValue, StripCr;
    LinesAppend(text, b);
    if b == LF {
      var lines, line := Lines(text), OpenLine(text);
      PendingAppend(lines, line);
      var l := StripCr(line);
      if l != [] && DataValue(l).Some? {
        JoinOne(Pending(lines), DataValue(l).value);
      }
    }
  }

  lemma StartIsEmpty()
    ensures FramerAfter([]) == START && Frames(Lines([])) == []
  {
  }

  // ---- what a line is, and what it says, byte by byte ----

  function Ended(lines: seq<seq<byte>>): seq<byte> {
    if lines == [] then [] else Ended(lines[..|lines| - 1]) + lines[|lines| - 1] + [10]
  }

  /** The lines of a text, each with its LF, and the open line after them are the text; no line holds an LF. */
  lemma {:induction false} LinesAre(text: seq<byte>)
    ensures text == Ended(Lines(text)) + OpenLine(text)
    ensures 10 !in OpenLine(text) && forall i :: 0 <= i < |Lines(text)| ==> 10 !in Lines(text)[i]
  {
    if text != [] {
      var init, last := text[..|text| - 1], text[|text| - 1];
      LinesAre(init);
      LinesAppend(init, last);
      assert text == init + [last];
      if last == 10 {
        assert (Lines(init) + [OpenLine(init)])[..|Lines(init)|] == Lines(init);
      }
    }
  }

  /** One CR before the LF belongs to the line end; no other byte does. */
  lemma StripCrIs(line: seq<byte>)
    ensures StripCr(line + [13]) == line
    ensures line == [] || line[|line| - 1] != 13 ==> StripCr(line) == line
  {
  }

  lemma {:induction false} FieldIs(line: seq<byte>) returns (rest: seq<byte>)
    ensures line == Field(line) + rest && 58 !in Field(line)
    ensures rest == [] || rest[0] == 58
    ensures Value(line) == (if rest == [] then [] else if |rest| > 1 && rest[1] == 32 then rest[2..] else rest[1..])
  {
    if line == [] || line[0] == COLON {
      rest := line;
    } else {
      rest := FieldIs(line[1..]);
    }
  }

  lemma {:induction false} FieldOf(name: seq<byte>, rest: seq<byte>)
    requires 58 !in name && (rest == [] || rest[0] == 58)
    ensures Field(name + rest) == name
    ensures Value(name + rest)
            == (if rest == [] then [] else if |rest| > 1 && rest[1] == 32 then rest[2..] else rest[1..])
  {
    if name == [] {
      assert name + rest == rest;
    } else {
      assert (name + rest)[1..] == name[1..] + rest;
      FieldOf(name[1..], rest);
    }
  }

  lemma DataLineForms(line: seq<byte>)
    requires DataValue(line).Some?
    ensures var v := DataValue(line).value;
            || line == [100, 97, 116, 97, 58, 32] + v
            || (line == [100, 97, 116, 97, 58] + v && (v == [] || v[0] != 32))
            || (line == [100, 97, 116, 97] && v == [])
  {
    var name: seq<byte> := [100, 97, 116, 97];
    var rest := FieldIs(line);
    assert line == name + rest;
    if rest == [] {
      assert line == name;
    } else if |rest| > 1 && rest[1] == 32 {
      assert rest == [58, 32] + rest[2..];
    } else {
      assert rest == [58] + rest[1..];
    }
  }

  /** The lines that carry data, and the value each carries: at most one space after the colon is dropped. */
  lemma DataLineIs(line: seq<byte>, v: seq<byte>)
    ensures DataValue(line) == Some(v)
            <==> || line == [100, 97, 116, 97, 58, 32] + v
                 || (line == [100, 97, 116, 97, 58] + v && (v == [] || v[0] != 32))
                 || (line == [100, 97, 116, 97] && v == [])
  {
    hide DataValue;
    var name: seq<byte> := [100, 97, 116, 97];
    if DataValue(line) == Some(v) { DataLineForms(line); }
    if line == [100, 97, 116, 97, 58, 32] + v {
      assert line == name + ([58, 32] + v) && ([58, 32] + v)[2..] == v;
      DataOf([58, 32] + v);
    }
    if line == [100, 97, 116, 97, 58] + v && (v == [] || v[0] != 32) {
      assert line == name + ([58] + v) && ([58] + v)[1..] == v;
      DataOf([58] + v);
    }
    if line == name && v == [] {
      assert line == name + [];
      DataOf([]);
    }
  }

  lemma DataOf(rest: seq<byte>)
    requires rest == [] || rest[0] == 58
    ensures DataValue([100, 97, 116, 97] + rest)
            == Some(if rest == [] then [] else if |rest| > 1 && rest[1] == 32 then rest[2..] else rest[1..])
  {
    hide Field, Value;
    FieldOf([100, 97, 116, 97], rest);
  }

  // ---- writing frames, and reading them back ----

  /** The bytes of a frame as an event carries them: every line of it behind "data: ". */
  function Quoted(frame: seq<byte>): seq<byte> {
    if frame == [] then [100, 97, 116, 97, 58, 32]
    else
      var init, last := frame[..|frame| - 1], frame[|frame| - 1];
      Quoted(init) + (if last == 10 then [10, 100, 97, 116, 97, 58, 32] else [last])
  }

  /** Frames as a server writes them, each ended by a blank line. */
  function Written(frames: seq<seq<byte>>): seq<byte> {
    if frames == [] then []
    else Written(frames[..|frames| - 1]) + Quoted(frames[|frames| - 1]) + [10, 10]
  }

  lemma {:induction false} AppendPart(text: seq<byte>, part: seq<byte>)
    requires 10 !in part
    ensures Lines(text + part) == Lines(text) && OpenLine(text + part) == OpenLine(text) + part
  {
    hide Lines, OpenLine;
    if part == [] {
      assert text + part == text && OpenLine(text) + part == OpenLine(text);
    } else {
      var init, last := part[..|part| - 1], part[|part| - 1];
      AppendPart(text, init);
      LinesAppend(text + init, last);
      assert text + part == (text + init) + [last];
      assert OpenLine(text) + part == OpenLine(text) + init + [last];
    }
  }

  /** The end of a data line. */
  lemma EndLine(text: seq<byte>, v: seq<byte>)
    requires OpenLine(text) == [100, 97, 116, 97, 58, 32] + v && 13 !in v
    ensures Pending(Lines(text + [10])) == Pending(Lines(text)) + [v]
    ensures Frames(Lines(text + [10])) == Frames(Lines(text)) && OpenLine(text + [10]) == []
  {
    hide Lines, OpenLine, Pending, Frames, DataValue;
    LinesAppend(text, 10);
    var line := OpenLine(text);
    assert line[|line| - 1] == if v == [] then 32 else v[|v| - 1];
    DataLineIs(line, v);
    PendingAppend(Lines(text), line);
    assert Frames(Lines(text)) + [] == Frames(Lines(text));
  }

  /** In the middle of an event: the lines of the frame so far are pending, its last line is open. */
  ghost predicate Midway(text: seq<byte>, frame: seq<byte>, before: seq<seq<byte>>) {
    && OpenLine(text) == [100, 97, 116, 97, 58, 32] + OpenLine(frame)
    && Pending(Lines(text)) == Lines(frame) && Frames(Lines(text)) == before && 13 !in OpenLine(frame)
  }

  lemma QuotedByte(text: seq<byte>, frame: seq<byte>, before: seq<seq<byte>>, b: byte)
    requires Midway(text, frame, before) && b != 10 && b != 13
    ensures Midway(text + [b], frame + [b], before)
  {
    hide Lines, OpenLine, Pending, Frames;
    LinesAppend(text, b);
    LinesAppend(frame, b);
    assert [100, 97, 116, 97, 58, 32] + OpenLine(frame) + [b] == [100, 97, 116, 97, 58, 32] + (OpenLine(frame) + [b]);
  }

  lemma QuotedLf(text: seq<byte>, frame: seq<byte>, before: seq<seq<byte>>)
    requires Midway(text, frame, before)
    ensures Midway(text + [10, 100, 97, 116, 97, 58, 32], frame + [10], before)
  {
    hide Lines, OpenLine, Pending, Frames;
    LinesAppend(frame, 10);
    EndLine(text, OpenLine(frame));
    var mark: seq<byte> := [100, 97, 116, 97, 58, 32];
    AppendPart(text + [10], mark);
    assert text + [10, 100, 97, 116, 97, 58, 32] == text + [10] + mark;
    assert [] + mark == mark + [];
  }

  lemma QuotedNothing(text: seq<byte>)
    requires OpenLine(text) == [] && Pending(Lines(text)) == []
    ensures Midway(text + Quoted([]), [], Frames(Lines(text)))
  {
    hide Pending, Frames;
    var mark: seq<byte> := [100, 97, 116, 97, 58, 32];
    AppendPart(text, mark);
    assert [] + mark == mark + OpenLine([]);
  }

  lemma QuotedMore(frame: seq<byte>, b: byte)
    ensures Quoted(frame + [b]) == Quoted(frame) + (if b == 10 then [10, 100, 97, 116, 97, 58, 32] else [b])
  {
    assert (frame + [b])[..|frame|] == frame;
  }

  lemma {:induction false} QuotedReads(text: seq<byte>, frame: seq<byte>)
    requires OpenLine(text) == [] && Pending(Lines(text)) == [] && 13 !in frame
    ensures Midway(text + Quoted(frame), frame, Frames(Lines(text)))
  {
    if frame == [] {
      QuotedNothing(text);
    } else {
      var init, last := frame[..|frame| - 1], frame[|frame| - 1];
      hide *;
      QuotedReads(text, init);
      QuotedMore(init, last);
      var t := text + Quoted(init);
      assert init + [last] == frame;
      Grouped(text, Quoted(init), if last == 10 then [10, 100, 97, 116, 97, 58, 32] else [last]);
      if last == 10 {
        QuotedLf(t, init, Frames(Lines(text)));
      } else {
        QuotedByte(t, init, Frames(Lines(text)), last);
      }
    }
  }

  lemma Grouped(a: seq<byte>, b: seq<byte>, c: seq<byte>)
    ensures a + b + c == a + (b + c)
  {
  }

  lemma {:induction false} JoinedLines(frame: seq<byte>)
    ensures Join(Lines(frame) + [OpenLine(frame)]) == frame
  {
    if frame == [] {
      assert Lines(frame) + [OpenLine(frame)] == [[]];
    } else {
      var init, last := frame[..|frame| - 1], frame[|frame| - 1];
      JoinedLines(init);
      hide Join;
      LinesAppend(init, last);
      assert init + [last] == frame;
      JoinOne(Lines(init), OpenLine(init));
      if last == 10 {
        JoinOne(Lines(init) + [OpenLine(init)], []);
      } else {
        JoinOne(Lines(init), OpenLine(frame));
      }
    }
  }

  /** The two line ends after an event dispatch its frame. */
  lemma Dispatched(text: seq<byte>, frame: seq<byte>, before: seq<seq<byte>>)
    requires Midway(text, frame, before)
    ensures var t := text + [10, 10];
            OpenLine(t) == [] && Pending(Lines(t)) == [] && Frames(Lines(t)) == before + [frame]
  {
    hide Lines, OpenLine, Pending, Frames, Join;
    EndLine(text, OpenLine(frame));
    LinesAppend(text + [10], 10);
    PendingAppend(Lines(text + [10]), []);
    JoinedLines(frame);
    assert StripCr([]) == [];
    assert text + [10, 10] == text + [10] + [10];
  }

  /** Reading back: any frames without CR, written as events, are exactly the frames of the text. */
  lemma {:induction false} WrittenReadsBack(frames: seq<seq<byte>>)
    requires forall i :: 0 <= i < |frames| ==> 13 !in frames[i]
    ensures Frames(Lines(Written(frames))) == frames
    ensures OpenLine(Written(frames)) == [] && Pending(Lines(Written(frames))) == []
  {
    if frames != [] {
      hide Lines, OpenLine, Pending, Frames, Join, Midway, Quoted;
      var init, frame := frames[..|frames| - 1], frames[|frames| - 1];
      WrittenReadsBack(init);
      QuotedReads(Written(init), frame);
      Dispatched(Written(init) + Quoted(frame), frame, init);
      assert frames == init + [frame];
    }
  }
}
