/**
  plugins/opencode/sessionid.go and session.go: the descending session identifier.

  The generator packs `timestamp * 4096 + counter` into a uint64, inverts it and keeps the low
  48 bits as twelve lower-case hex digits, so that later identifiers sort first.  The theorems
  say exactly when they do.
 */
module SessionId {
  import opened Text

  type Byte = x: int | 0 <= x < 256

  const HEX_DIGITS: string := "0123456789abcdef"
  const ALPHABET: string := "0123456789" + "ABCDEFGHIJKLMNOPQRSTUVWXYZ" + "abcdefghijklmnopqrstuvwxyz"

  const IDS_PER_MS: int := 0x1000
  const TIME_SPAN: int := 0x1_0000_0000_0000          // 2^48
  const WORD: int := 0x1_0000_0000_0000_0000          // 2^64
  const TIME_DIGITS: nat := 12
  const TAIL_LENGTH: nat := 14

  /** The uint64 the generator packs, wrapping as Go does. */
  function Packed(timestamp: int, counter: int): (r: int)
    ensures 0 <= r < WORD
  {
    (timestamp * IDS_PER_MS + counter) % WORD
  }

  /** The 48 bits that reach the identifier; `^x` on a uint64 is WORD - 1 - x. */
  function TimeValue(descending: bool, timestamp: int, counter: int): (r: nat)
    ensures r < TIME_SPAN
  {
    var current := Packed(timestamp, counter);
    (if descending then WORD - 1 - current else current) % TIME_SPAN
  }

  // ---- hexadecimal text and its order ----

  function Pow16(n: nat): (r: nat)
    ensures r > 0
  {
    if n == 0 then 1 else 16 * Pow16(n - 1)
  }

  /** The n low hex digits of v, most significant first. */
  function Hex(v: nat, n: nat): (r: string)
    ensures |r| == n
    ensures forall c :: c in r ==> c in HEX_DIGITS
  {
    if n == 0 then "" else Hex(v / 16, n - 1) + [HEX_DIGITS[v % 16]]
  }

  /** Byte-wise string order, the order in which Go and SQL compare identifiers. */
  ghost predicate Before(a: string, b: string) {
    exists k :: CommonUpTo(a, b, k) && k < |b| && (k == |a| || (k < |a| && a[k] < b[k]))
  }

  predicate CommonUpTo(a: string, b: string, k: int) {
    0 <= k <= |a| && k <= |b| && a[..k] == b[..k]
  }

  lemma BeforeLastDigit(a: string, b: string, x: char, y: char)
    requires |a| == |b|
    ensures Before(a + [x], b + [y]) <==> Before(a, b) || (a == b && x < y)
  {
    var p, q := a + [x], b + [y];
    if Before(a, b) {
      var k :| CommonUpTo(a, b, k) && k < |b| && (k == |a| || (k < |a| && a[k] < b[k]));
      assert p[..k] == a[..k] && q[..k] == b[..k];
      assert CommonUpTo(p, q, k);
    }
    if a == b && x < y {
      assert p[..|a|] == q[..|a|];
      assert CommonUpTo(p, q, |a|);
    }
    if Before(p, q) {
      var k :| CommonUpTo(p, q, k) && k < |q| && (k == |p| || (k < |p| && p[k] < q[k]));
      if k < |a| {
        assert a[..k] == p[..k] == q[..k] == b[..k];
        assert CommonUpTo(a, b, k);
      } else {
        assert a == p[..k] == q[..k] == b;
      }
    }
  }

  lemma DigitOrder(i: nat, j: nat)
    requires i < 16 && j < 16
    ensures i < j <==> HEX_DIGITS[i] < HEX_DIGITS[j]
  {
  }

  /** Fixed-width hex text sorts exactly as the numbers it spells. */
  lemma {:induction false} HexOrder(v: nat, w: nat, n: nat)
    requires v < Pow16(n) && w < Pow16(n)
    ensures Before(Hex(v, n), Hex(w, n)) <==> v < w
    ensures Hex(v, n) == Hex(w, n) <==> v == w
  {
    if n > 0 {
      HexOrder(v / 16, w / 16, n - 1);
      DigitOrder(v % 16, w % 16);
      DigitOrder(w % 16, v % 16);
      BeforeLastDigit(Hex(v / 16, n - 1), Hex(w / 16, n - 1), HEX_DIGITS[v % 16], HEX_DIGITS[w % 16]);
      var a, b := Hex(v, n), Hex(w, n);
      assert a[..n - 1] == Hex(v / 16, n - 1) && b[..n - 1] == Hex(w / 16, n - 1);
      assert a[n - 1] == HEX_DIGITS[v % 16] && b[n - 1] == HEX_DIGITS[w % 16];
    }
  }

  lemma TimeFits()
    ensures Pow16(TIME_DIGITS) == TIME_SPAN
  {
    assert Pow16(4) == 0x1_0000;
    assert Pow16(8) == 0x1_0000_0000;
    assert Pow16(12) == TIME_SPAN;
  }

  // ---- the generator ----

  datatype Generator = Generator(lastTimestamp: int, counter: int)

  /** What one call leaves in the module state: the counter restarts when the timestamp moves. */
  function Advance(g: Generator, timestamp: int): Generator {
    if timestamp != g.lastTimestamp then Generator(timestamp, 1)
    else Generator(timestamp, g.counter + 1)
  }

  function TimePart(descending: bool, g: Generator): string {
    Hex(TimeValue(descending, g.lastTimestamp, g.counter), TIME_DIGITS)
  }

  function AfterAll(g: Generator, timestamps: seq<int>): Generator {
    if timestamps == [] then g
    else Advance(AfterAll(g, timestamps[..|timestamps| - 1]), timestamps[|timestamps| - 1])
  }

  /** State of the generator just after call i of a run. */
  function At(g: Generator, timestamps: seq<int>, i: nat): Generator
    requires i < |timestamps|
  {
    AfterAll(g, timestamps[..i + 1])
  }

  /** The unwrapped instant that call i encodes. */
  function Instant(g: Generator): int {
    g.lastTimestamp * 4096 + g.counter
  }

  /** Which 2^48 block (one 2^36 ms epoch) an instant falls in. */
  function Epoch(g: Generator): int {
    Instant(g) / 0x1_0000_0000_0000
  }

  lemma WrapsToTimeSpan(x: int)
    ensures x % WORD % TIME_SPAN == x % TIME_SPAN
    ensures (WORD - 1 - x % WORD) % TIME_SPAN == TIME_SPAN - 1 - x % TIME_SPAN
  {
    var q, r := x / WORD, x % WORD;
    var k := WORD / TIME_SPAN;
    assert x == (q * k) * TIME_SPAN + r;
    ModShift(r, q * k);
    var a, b := r / TIME_SPAN, r % TIME_SPAN;
    assert WORD - 1 - r == (k - 1 - a) * TIME_SPAN + (TIME_SPAN - 1 - b);
    ModShift(TIME_SPAN - 1 - b, k - 1 - a);
  }

  lemma ModShift(r: int, k: int)
    ensures (k * TIME_SPAN + r) % TIME_SPAN == r % TIME_SPAN
  {
  }

  /** Ascending and descending values of one (timestamp, counter) are 48-bit complements. */
  lemma Complement(timestamp: int, counter: int)
    ensures TimeValue(true, timestamp, counter) + TimeValue(false, timestamp, counter) == TIME_SPAN - 1
  {
    WrapsToTimeSpan(timestamp * IDS_PER_MS + counter);
  }

  lemma DescendingValue(g: Generator)
    ensures TimeValue(true, g.lastTimestamp, g.counter) == TIME_SPAN - 1 - Instant(g) % TIME_SPAN
  {
    WrapsToTimeSpan(Instant(g));
  }

  /** For all states: descending texts compare as the instants modulo 2^48, in reverse. */
  lemma OrderModulo(g: Generator, h: Generator)
    ensures Before(TimePart(true, h), TimePart(true, g))
            <==> Instant(g) % 0x1_0000_0000_0000 < Instant(h) % 0x1_0000_0000_0000
    ensures TimePart(true, h) == TimePart(true, g)
            <==> Instant(g) % 0x1_0000_0000_0000 == Instant(h) % 0x1_0000_0000_0000
  {
    DescendingValue(g);
    DescendingValue(h);
    TimeFits();
    HexOrder(TimeValue(true, h.lastTimestamp, h.counter), TimeValue(true, g.lastTimestamp, g.counter), TIME_DIGITS);
  }

  /** Inside one epoch the text order is the reverse of the instant order. */
  lemma DescendingOrder(g: Generator, h: Generator)
    requires Epoch(g) == Epoch(h)
    ensures Before(TimePart(true, h), TimePart(true, g)) <==> Instant(g) < Instant(h)
    ensures TimePart(true, h) == TimePart(true, g) <==> Instant(g) == Instant(h)
  {
    hide TimePart, Before;
    OrderModulo(g, h);
  }

  /**
    Exactly when the next identifier sorts before its predecessor: always within one
    millisecond, and across a step of the clock as long as the earlier millisecond has not
    handed out more than 4096 identifiers per millisecond elapsed.
   */
  lemma NextSortsFirst(g: Generator, timestamp: int)
    requires g.lastTimestamp <= timestamp
    requires Epoch(g) == Epoch(Advance(g, timestamp))
    ensures Before(TimePart(true, Advance(g, timestamp)), TimePart(true, g))
            <==> timestamp == g.lastTimestamp || g.counter <= 4096 * (timestamp - g.lastTimestamp)
  {
    DescendingOrder(g, Advance(g, timestamp));
  }

  /** Identifier 4097 of a millisecond repeats the time part of the first of the next one. */
  lemma Collision(timestamp: int)
    ensures TimePart(true, Generator(timestamp, 4097)) == TimePart(true, Generator(timestamp + 1, 1))
    ensures TimePart(false, Generator(timestamp, 4097)) == TimePart(false, Generator(timestamp + 1, 1))
  {
    SameInstant(Generator(timestamp, 4097), Generator(timestamp + 1, 1));
  }

  lemma SameInstant(g: Generator, h: Generator)
    requires Instant(g) == Instant(h)
    ensures TimePart(true, g) == TimePart(true, h) && TimePart(false, g) == TimePart(false, h)
  {
    SameValue(g, h);
  }

  lemma SameValue(g: Generator, h: Generator)
    requires Instant(g) == Instant(h)
    ensures forall d :: TimeValue(d, g.lastTimestamp, g.counter) == TimeValue(d, h.lastTimestamp, h.counter)
  {
  }

  ghost predicate NonDecreasing(timestamps: seq<int>) {
    forall i, j :: 0 <= i < j < |timestamps| ==> timestamps[i] <= timestamps[j]
  }

  /** At most 4096 identifiers per millisecond, and no call leaves the epoch of the first. */
  ghost predicate Paced(g: Generator, timestamps: seq<int>) {
    forall i :: 0 <= i < |timestamps| ==>
      At(g, timestamps, i).counter <= 4096 && Epoch(At(g, timestamps, i)) == Epoch(At(g, timestamps, 0))
  }

  lemma AtTimestamp(g: Generator, timestamps: seq<int>, i: nat)
    requires i < |timestamps|
    ensures At(g, timestamps, i).lastTimestamp == timestamps[i]
    ensures i > 0 ==> At(g, timestamps, i) == Advance(At(g, timestamps, i - 1), timestamps[i])
  {
    var t := timestamps[..i + 1];
    assert t[..|t| - 1] == timestamps[..i];
  }

  lemma {:induction false} InstantsIncrease(g: Generator, timestamps: seq<int>, i: nat, j: nat)
    requires NonDecreasing(timestamps) && Paced(g, timestamps)
    requires i < j < |timestamps|
    ensures Instant(At(g, timestamps, i)) < Instant(At(g, timestamps, j))
    decreases j
  {
    AtTimestamp(g, timestamps, j - 1);
    AtTimestamp(g, timestamps, j);
    var before := At(g, timestamps, j - 1);
    assert before.counter <= 4096 && before.lastTimestamp <= timestamps[j];
    if i < j - 1 {
      InstantsIncrease(g, timestamps, i, j - 1);
    }
  }

  /** Every later identifier of a paced run sorts strictly before every earlier one. */
  lemma StrictlyDescending(g: Generator, timestamps: seq<int>, i: nat, j: nat)
    requires NonDecreasing(timestamps) && Paced(g, timestamps)
    requires i < j < |timestamps|
    ensures Before(TimePart(true, At(g, timestamps, j)), TimePart(true, At(g, timestamps, i)))
  {
    InstantsIncrease(g, timestamps, i, j);
    DescendingOrder(At(g, timestamps, i), At(g, timestamps, j));
  }

  // ---- what a time part says ----

  function DigitOf(c: char): int {
    if '0' <= c <= '9' then c as int - '0' as int else c as int - 'a' as int + 10
  }

  /** A text read as a number to base 16, most significant digit first. */
  function ReadHex(s: string): int {
    if s == "" then 0 else 16 * ReadHex(s[..|s| - 1]) + DigitOf(s[|s| - 1])
  }

  lemma {:induction false} HexReads(v: nat, n: nat)
    ensures ReadHex(Hex(v, n)) == v % Pow16(n)
  {
    if n > 0 {
      HexReads(v / 16, n - 1);
      var s := Hex(v, n);
      assert s[..|s| - 1] == Hex(v / 16, n - 1);
      DigitReads(v % 16);
      SplitMod(v, Pow16(n - 1));
    }
  }

  lemma DigitReads(d: nat)
    requires d < 16
    ensures DigitOf(HEX_DIGITS[d]) == d
  {
  }

  lemma SplitMod(v: nat, p: nat)
    requires p > 0
    ensures v % (16 * p) == 16 * (v / 16 % p) + v % 16
  {
    var q := v / 16;
    assert v == 16 * (p * (q / p) + q % p) + v % 16;
    assert v == (16 * p) * (q / p) + (16 * (q % p) + v % 16) by {
      assert 16 * (p * (q / p)) == (16 * p) * (q / p);
    }
    Quotient(v, 16 * p, q / p, 16 * (q % p) + v % 16);
  }

  lemma Quotient(v: int, m: int, k: int, r: int)
    requires 0 <= r < m && v == m * k + r
    ensures v % m == r
  {
    var d := v / m - k;
    assert m * d == r - v % m by {
      assert m * (v / m) + v % m == v;
      assert m * d == m * (v / m) - m * k;
    }
    Multiples(m, d);
  }

  lemma Multiples(m: int, d: int)
    requires m > 0
    ensures d >= 1 ==> m * d >= m
    ensures d <= -1 ==> m * d <= -m
  {
  }

  /** The value that a time part spells: the instant, or its complement, in the low 48 bits. */
  lemma TimePartReads(descending: bool, g: Generator)
    ensures var instant := (g.lastTimestamp * 4096 + g.counter) % 0x1_0000_0000_0000;
            ReadHex(TimePart(descending, g)) == if descending then 0xffff_ffff_ffff - instant else instant
  {
    hide ReadHex, Hex;
    HexReads(TimeValue(descending, g.lastTimestamp, g.counter), TIME_DIGITS);
    TimeFits();
    hide Pow16;
    if descending { DescendingValue(g); } else { LowBits(g.lastTimestamp * 4096 + g.counter); }
  }

  lemma LowBits(v: int)
    ensures v % WORD % TIME_SPAN == v % TIME_SPAN
  {
  }

  /** The n-th identifier that a run asks for in one millisecond carries that millisecond and n. */
  lemma {:induction false} NthOfMillisecond(g: Generator, timestamps: seq<int>, i: nat, n: nat)
    requires i < |timestamps| && 1 <= n <= i + 1
    requires forall k :: i - n < k <= i ==> timestamps[k] == timestamps[i]
    requires if n == i + 1 then g.lastTimestamp != timestamps[0] else timestamps[i - n] != timestamps[i]
    ensures At(g, timestamps, i) == Generator(timestamps[i], n)
  {
    hide AfterAll;
    AtTimestamp(g, timestamps, i);
    if i == 0 {
      AtFirst(g, timestamps);
    } else {
      AtTimestamp(g, timestamps, i - 1);
      if n > 1 { NthOfMillisecond(g, timestamps, i - 1, n - 1); }
    }
  }

  lemma AtFirst(g: Generator, timestamps: seq<int>)
    requires timestamps != []
    ensures At(g, timestamps, 0) == Advance(g, timestamps[0])
  {
    assert timestamps[..1][..0] == [] && AfterAll(g, []) == g;
  }

  // ---- shape of a minted identifier ----

  predicate IsAlphanumeric(c: char) {
    '0' <= c <= '9' || 'A' <= c <= 'Z' || 'a' <= c <= 'z'
  }

  predicate IsLowerHex(c: char) {
    '0' <= c <= '9' || 'a' <= c <= 'f'
  }

  /** The pattern ^ses_[0-9a-f]{12}[0-9A-Za-z]{14}$ on the trimmed text. */
  predicate ValidSessionId(id: string) {
    var s := Trim(id);
    && |s| == 4 + TIME_DIGITS + TAIL_LENGTH
    && s[..4] == "ses_"
    && (forall i :: 4 <= i < 16 ==> IsLowerHex(s[i]))
    && (forall i :: 16 <= i < |s| ==> IsAlphanumeric(s[i]))
  }

  lemma AlphabetIsAlphanumeric(i: nat)
    requires i < 62
    ensures IsAlphanumeric(ALPHABET[i])
  {
  }

  function Tail(bytes: seq<Byte>): (r: string)
    ensures |r| == |bytes|
    ensures forall c :: c in r ==> IsAlphanumeric(c)
  {
    if bytes == [] then ""
    else
      AlphabetIsAlphanumeric(bytes[|bytes| - 1] % 62);
      Tail(bytes[..|bytes| - 1]) + [ALPHABET[bytes[|bytes| - 1] % 62]]
  }

  function SessionIdOf(g: Generator, random: seq<Byte>): string {
    "ses_" + TimePart(true, g) + Tail(random)
  }

  /** Which texts are session identifiers, white space around them aside. */
  lemma ValidIs(id: string)
    ensures ValidSessionId(id)
            <==> var s := Trim(id);
                 && |s| == 30 && s[0] == 's' && s[1] == 'e' && s[2] == 's' && s[3] == '_'
                 && (forall i :: 4 <= i < 16 ==> '0' <= s[i] <= '9' || 'a' <= s[i] <= 'f')
                 && (forall i :: 16 <= i < 30 ==> '0' <= s[i] <= '9' || 'A' <= s[i] <= 'Z' || 'a' <= s[i] <= 'z')
  {
    var s := Trim(id);
    hide Trim;
    if |s| == 30 {
      assert s[..4] == "ses_" <==> s[0] == 's' && s[1] == 'e' && s[2] == 's' && s[3] == '_' by { FourChars(s); }
    }
  }

  lemma FourChars(s: string)
    requires |s| >= 4
    ensures s[..4] == "ses_" <==> s[0] == 's' && s[1] == 'e' && s[2] == 's' && s[3] == '_'
  {
    assert s[..4] == [s[0], s[1], s[2], s[3]] && "ses_" == ['s', 'e', 's', '_'];
  }

  /** The sixty-two characters: digits, then capitals, then small letters. */
  function CharOf(k: nat): char
    requires k < 62
  {
    if k < 10 then '0' + k as char else if k < 36 then 'A' + (k - 10) as char else 'a' + (k - 36) as char
  }

  /** Every random byte picks one of them. */
  lemma {:induction false} TailIs(bytes: seq<Byte>, i: nat)
    requires i < |bytes|
    ensures Tail(bytes)[i] == CharOf(bytes[i] % 62)
  {
    if i < |bytes| - 1 {
      TailIs(bytes[..|bytes| - 1], i);
    } else {
      AlphabetIs(bytes[i] % 62);
    }
  }

  lemma AlphabetIs(k: nat)
    requires k < 62
    ensures ALPHABET[k] == CharOf(k)
  {
  }

  /** What is minted: the prefix, the twelve digits of the time part, and the characters the bytes pick. */
  lemma MintedReads(g: Generator, random: seq<Byte>)
    requires |random| == 14
    ensures var s := SessionIdOf(g, random);
            && |s| == 30 && s[..4] == "ses_"
            && ReadHex(s[4..16]) == 0xffff_ffff_ffff - (g.lastTimestamp * 4096 + g.counter) % 0x1_0000_0000_0000
            && forall i :: 0 <= i < 14 ==>
                 s[16 + i] == CharOf(random[i] % 62)
  {
    hide Tail, ReadHex, TimePart;
    TimePartReads(true, g);
    var s, time := SessionIdOf(g, random), TimePart(true, g);
    assert |time| == 12 by { TimeLength(g); }
    assert s[4..16] == time && s[..4] == "ses_";
    forall i | 0 <= i < 14
      ensures s[16 + i] == CharOf(random[i] % 62)
    {
      TailIs(random, i);
    }
  }

  lemma TimeLength(g: Generator)
    ensures |TimePart(true, g)| == 12
  {
  }

  lemma HexDigitsAreLowerHex(s: string)
    requires forall c :: c in s ==> c in HEX_DIGITS
    ensures forall i :: 0 <= i < |s| ==> IsLowerHex(s[i])
  {
    forall i | 0 <= i < |s| ensures IsLowerHex(s[i]) {
      assert s[i] in HEX_DIGITS;
    }
  }

  /** What the generator mints, the validator accepts untrimmed. */
  lemma MintedIsValid(g: Generator, random: seq<Byte>)
    requires |random| == TAIL_LENGTH
    ensures ValidSessionId(SessionIdOf(g, random))
    ensures Trimmed(SessionIdOf(g, random))
  {
    var s := SessionIdOf(g, random);
    MintedShape(g, random);
    hide SessionIdOf;
    assert s[0] == 's' && IsAlphanumeric(s[|s| - 1]);
    assert Trimmed(s);
  }

  lemma MintedShape(g: Generator, random: seq<Byte>)
    requires |random| == TAIL_LENGTH
    ensures var s := SessionIdOf(g, random);
            && |s| == 30 && s[..4] == "ses_"
            && (forall i :: 4 <= i < 16 ==> IsLowerHex(s[i]))
            && (forall i :: 16 <= i < 30 ==> IsAlphanumeric(s[i]))
  {
    hide IsLowerHex, IsAlphanumeric;
    var time, tail := TimePart(true, g), Tail(random);
    var s := SessionIdOf(g, random);
    TimeLength(g);
    HexDigitsAreLowerHex(time);
    assert s[..4] == "ses_";
    forall i | 4 <= i < 16 ensures IsLowerHex(s[i]) {
      assert s[i] == time[i - 4];
    }
    forall i | 16 <= i < |s| ensures IsAlphanumeric(s[i]) {
      assert s[i] == tail[i - 16];
      assert tail[i - 16] in tail;
    }
  }
}
