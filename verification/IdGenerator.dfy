/** The stateful generator of plugins/opencode/sessionid.go, proved against module SessionId. */
module IdGenerators {
  import opened Prelude
  import opened SessionId

  /** v >> 8*j on an unsigned word. */
  function ShiftBytes(v: nat, j: nat): nat {
    if j == 0 then v else ShiftBytes(v / 256, j - 1)
  }

  function ByteAt(v: nat, i: nat): Byte
    requires i < 6
  {
    ShiftBytes(v, 5 - i) % 256
  }

  lemma NibblesOfByte(v: nat)
    ensures v / 16 / 16 == v / 256
    ensures v / 16 % 16 == v % 256 / 16
    ensures v % 16 == v % 256 % 16
  {
  }

  lemma TwoDigits(v: nat, n: nat)
    ensures Hex(v, n + 2) == Hex(v / 256, n) + [HEX_DIGITS[v % 256 / 16], HEX_DIGITS[v % 256 % 16]]
  {
    NibblesOfByte(v);
    assert Hex(v, n + 2) == Hex(v / 16, n + 1) + [HEX_DIGITS[v % 16]];
  }

  lemma {:induction false} BytesSpellHex(v: nat, j: nat, k: nat)
    requires k < j
    ensures Hex(v, 2 * j)[2 * k] == HEX_DIGITS[ShiftBytes(v, j - 1 - k) % 256 / 16]
    ensures Hex(v, 2 * j)[2 * k + 1] == HEX_DIGITS[ShiftBytes(v, j - 1 - k) % 256 % 16]
  {
    TwoDigits(v, 2 * (j - 1));
    if k < j - 1 {
      BytesSpellHex(v / 256, j - 1, k);
    }
  }

  /** n digits do not see multiples of 16^n. */
  lemma {:induction false} HexIgnoresCarry(v: nat, n: nat)
    ensures Hex(v + Pow16(n), n) == Hex(v, n)
  {
    if n > 0 {
      var p := Pow16(n - 1);
      assert (v + 16 * p) / 16 == v / 16 + p && (v + 16 * p) % 16 == v % 16;
      HexIgnoresCarry(v / 16, n - 1);
    }
  }

  /** Twelve digits only see the low 48 bits. */
  lemma {:induction false} LowBitsOnly(v: nat)
    ensures Hex(v, TIME_DIGITS) == Hex(v % TIME_SPAN, TIME_DIGITS)
  {
    hide Hex;
    if v >= TIME_SPAN {
      TimeFits();
      LowBitsOnly(v - TIME_SPAN);
      HexIgnoresCarry(v - TIME_SPAN, TIME_DIGITS);
    }
  }

  /** The word the generator computes spells the time part. */
  lemma WordIsTimePart(descending: bool, g: Generator, word: nat)
    requires word == if descending then WORD - 1 - Packed(g.lastTimestamp, g.counter)
             else Packed(g.lastTimestamp, g.counter)
    ensures Hex(word, TIME_DIGITS) == TimePart(descending, g)
  {
    hide Hex, Packed;
    LowBitsOnly(word);
  }

  class IdGenerator {
    var lastTimestamp: int
    var counter: int

    constructor ()
      ensures State() == Generator(0, 0)
    {
      lastTimestamp, counter := 0, 0;
    }

    function State(): Generator
      reads this
    {
      Generator(lastTimestamp, counter)
    }

    /** The six big-endian bytes of the packed instant, spelled as twelve hex digits. */
    method IdentifierTimeParts(descending: bool, timestamp: int) returns (time: string)
      modifies this
      ensures State() == Advance(old(State()), timestamp)
      ensures time == TimePart(descending, State())
    {
      hide TimePart, ByteAt, Packed;
      if timestamp != lastTimestamp {
        lastTimestamp, counter := timestamp, 0;
      }
      counter := counter + 1;
      var value: nat := Packed(timestamp, counter);
      if descending {
        value := WORD - 1 - value;
      }
      var out := new Byte[6];
      for index := 0 to 6
        modifies out
        invariant forall i :: 0 <= i < index ==> out[i] == ByteAt(value, i)
      {
        out[index] := ByteAt(value, index);
      }
      var hex := new char[12];
      for i := 0 to 6
        modifies hex
        invariant forall k :: 0 <= k < i ==> hex[2 * k] == HEX_DIGITS[out[k] / 16]
        invariant forall k :: 0 <= k < i ==> hex[2 * k + 1] == HEX_DIGITS[out[k] % 16]
      {
        hex[2 * i] := HEX_DIGITS[out[i] / 16];
        hex[2 * i + 1] := HEX_DIGITS[out[i] % 16];
      }
      time := hex[..];
      DigitsAreTimePart(value, out[..], time);
      WordIsTimePart(descending, State(), value);
    }

    /** SessionID.create: "ses_", the descending time part, fourteen random characters. */
    method NewSessionId(timestamp: int, now: int, random: Option<seq<Byte>>) returns (id: Option<string>)
      requires random.Some? ==> |random.value| == TAIL_LENGTH
      modifies this
      ensures State() == Advance(old(State()), if timestamp <= 0 then now else timestamp)
      ensures id == match random
                    case None => None
                    case Some(bytes) => Some(SessionIdOf(State(), bytes))
      ensures id.Some? ==> ValidSessionId(id.value)
    {
      var at := if timestamp <= 0 then now else timestamp;
      var time := IdentifierTimeParts(true, at);
      match random
      case None => id := None;
      case Some(bytes) =>
        MintedIsValid(State(), bytes);
        var tail := RandomTail(bytes);
        id := Some("ses_" + time + tail);
    }
  }

  method RandomTail(bytes: seq<Byte>) returns (tail: string)
    ensures tail == Tail(bytes)
  {
    var out := new char[|bytes|];
    for i := 0 to |bytes|
      invariant out[..i] == Tail(bytes[..i])
    {
      out[i] := ALPHABET[bytes[i] % 62];
      assert bytes[..i + 1][..i] == bytes[..i];
      assert out[..i + 1] == out[..i] + [out[i]];
    }
    tail := out[..];
    assert bytes[..|bytes|] == bytes && out[..|bytes|] == tail;
  }

  lemma DigitsAreTimePart(value: nat, bytes: seq<Byte>, time: string)
    requires |bytes| == 6 && |time| == 12
    requires forall i :: 0 <= i < 6 ==> bytes[i] == ByteAt(value, i)
    requires forall k :: 0 <= k < 6 ==> time[2 * k] == HEX_DIGITS[bytes[k] / 16]
    requires forall k :: 0 <= k < 6 ==> time[2 * k + 1] == HEX_DIGITS[bytes[k] % 16]
    ensures time == Hex(value, TIME_DIGITS)
  {
    var spelled := Hex(value, TIME_DIGITS);
    forall k | 0 <= k < 6
      ensures time[2 * k] == spelled[2 * k] && time[2 * k + 1] == spelled[2 * k + 1]
    {
      BytesSpellHex(value, 6, k);
    }
    forall i | 0 <= i < 12 ensures time[i] == spelled[i] {
      assert i == 2 * (i / 2) || i == 2 * (i / 2) + 1;
    }
  }
}
