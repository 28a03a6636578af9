/**
  HostStreamBody of plugins/cline/host_stream.go: bounded reads over a host stream, sticky errors,
  and a stream_close that is sent once.

  The host is the sequence of answers it will give; after the last one its calls fail.
 */
module HostStream {
  import opened Prelude
  import opened Sse
  import Pump

  /** `released` is the state of closeOnce, `closes` the number of stream_close calls. */
  datatype Body = Body(
    asked: nat, buf: seq<byte>, done: bool, closed: bool, failed: bool, released: bool, closes: nat)

  const OPENED: Body := Body(0, [], false, false, false, false, 0)

  datatype Status = Fine | Eof | Broken

  datatype Result = Result(bytes: seq<byte>, status: Status)

  const NO_BYTES: seq<byte> := []

  function Release(b: Body): Body {
    if b.released then b else b.(released := true, closes := b.closes + 1)
  }

  function Take(b: Body, max: nat): (Body, Result) {
    var n := if max < |b.buf| then max else |b.buf|;
    (b.(buf := b.buf[n..]), Result(b.buf[..n], Fine))
  }

  /** Read up to the host call: the result if none is needed. */
  function BeginRead(b: Body, max: nat): Option<(Body, Result)> {
    if max == 0 then Some((b, Result([], Fine)))
    else if b.failed || b.closed then Some((b, Result([], Broken)))
    else if b.buf != [] then Some(Take(b, max))
    else if b.done then Some((b, Result([], Eof)))
    else None
  }

  /** An answer that breaks the stream. */
  predicate Breaks(r: Pump.Read) {
    r.RpcError? || r.error || (r.payload == [] && !r.done)
  }

  /** Read from the host's answer on. */
  function EndRead(b: Body, r: Pump.Read, max: nat): (Body, Result) {
    if b.closed then (b, Result([], Broken))
    else if Breaks(r) then (Release(b.(failed := true, closed := true)), Result([], Broken))
    else
      var b' := b.(buf := if r.payload != [] then r.payload else b.buf);
      var b'' := if r.done then Release(b'.(done := true)) else b';
      if b''.buf == [] then (b'', Result([], Eof)) else Take(b'', max)
  }

  function AnswerAt(host: seq<Pump.Read>, i: nat): Pump.Read {
    if i < |host| then host[i] else Pump.RpcError
  }

  /** A Read that nobody interrupts. */
  function ReadOnce(b: Body, host: seq<Pump.Read>, max: nat): (Body, Result) {
    var begun := BeginRead(b, max);
    if begun.Some? then begun.value
    else EndRead(b.(asked := b.asked + 1), AnswerAt(host, b.asked), max)
  }

  function Closed(b: Body): Body {
    Release(b.(closed := true))
  }

  // ---- what a reader gets ----

  /** The payloads up to the first answer that ends or breaks the stream. */
  function Served(host: seq<Pump.Read>): seq<byte> {
    if host == [] || host[0].RpcError? || host[0].error || (host[0].payload == [] && !host[0].done) then []
    else if host[0].done then host[0].payload
    else host[0].payload + Served(host[1..])
  }

  /** Whether that answer is an orderly end. */
  predicate CleanEnd(host: seq<Pump.Read>) {
    && host != [] && host[0].Read? && !host[0].error
    && (host[0].done || (host[0].payload != [] && CleanEnd(host[1..])))
  }

  function Rest(host: seq<Pump.Read>, from: nat): seq<Pump.Read> {
    if from <= |host| then host[from..] else []
  }

  function Coming(b: Body, host: seq<Pump.Read>): seq<byte> {
    b.buf + (if b.done || b.failed then [] else Served(Rest(host, b.asked)))
  }

  predicate WillEnd(b: Body, host: seq<Pump.Read>) {
    b.done || CleanEnd(Rest(host, b.asked))
  }

  predicate Valid(b: Body) {
    && b.closes == (if b.released then 1 else 0)
    && (b.failed ==> b.closed && b.released)
    && (b.done ==> b.released)
  }

  lemma TakeIsNext(b: Body, max: nat, later: seq<byte>)
    requires 0 < max && b.buf != []
    ensures var (b', r) := Take(b, max);
            && r.bytes != [] && |r.bytes| <= max && r.status.Fine?
            && b' == b.(buf := b'.buf) && b.buf + later == r.bytes + (b'.buf + later)
  {
    var n := if max < |b.buf| then max else |b.buf|;
    assert b.buf == b.buf[..n] + b.buf[n..];
  }

  /** The stream before and after one more answer. */
  lemma AnswerIsNext(host: seq<Pump.Read>, from: nat)
    ensures var r := AnswerAt(host, from);
            && Served(Rest(host, from))
               == (if Breaks(r) then [] else if r.done then r.payload else r.payload + Served(Rest(host, from + 1)))
            && (CleanEnd(Rest(host, from)) <==> !Breaks(r) && (r.done || CleanEnd(Rest(host, from + 1))))
  {
    if from < |host| {
      assert Rest(host, from)[0] == host[from] && Rest(host, from)[1..] == Rest(host, from + 1);
    }
  }

  /** What a read shows: the next bytes, or the end, or the breakdown, and nothing else. */
  ghost predicate IsNext(b: Body, b': Body, r: Result, host: seq<Pump.Read>) {
    && Valid(b')
    && Coming(b, host) == r.bytes + Coming(b', host)
    && (r.status.Fine? ==> r.bytes != [] && !b'.closed && WillEnd(b', host) == WillEnd(b, host))
    && (r.status.Eof? ==> Coming(b, host) == [] && WillEnd(b, host) && b'.closes == 1 && !b'.closed)
    && (r.status.Broken? ==> Coming(b, host) == [] && !WillEnd(b, host) && b'.closes == 1)
  }

  lemma AskIsNext(b: Body, host: seq<Pump.Read>, max: nat)
    requires Valid(b) && !b.closed && 0 < max && b.buf == [] && !b.done
    ensures var (b', r) := EndRead(b.(asked := b.asked + 1), AnswerAt(host, b.asked), max);
            |r.bytes| <= max && IsNext(b, b', r, host)
  {
    hide Take, Rest, Served, CleanEnd, AnswerAt;
    var r := AnswerAt(host, b.asked);
    AnswerIsNext(host, b.asked);
    assert NO_BYTES + Served(Rest(host, b.asked)) == Served(Rest(host, b.asked));
    if !Breaks(r) && r.payload != [] {
      var full := b.(asked := b.asked + 1, buf := r.payload);
      var later := if r.done then [] else Served(Rest(host, b.asked + 1));
      assert r.payload + [] == r.payload;
      TakeIsNext(if r.done then Release(full.(done := true)) else full, max, later);
    } else {
      assert NO_BYTES + NO_BYTES == NO_BYTES;
    }
  }

  /** A read asks the host once at most, never while bytes are buffered, and leaves some only if it is full. */
  lemma ReadFills(b: Body, host: seq<Pump.Read>, max: nat)
    requires 0 < max
    ensures var (b', r) := ReadOnce(b, host, max);
            && (r.status.Fine? ==> |r.bytes| == max || b'.buf == [])
            && b.asked <= b'.asked <= b.asked + 1 && (b.buf != [] ==> b'.asked == b.asked)
  {
  }

  /** A breakdown, a close and the end are final: later reads say the same, return nothing and ask nobody. */
  lemma EndsAreFinal(b: Body, host: seq<Pump.Read>, max: nat, again: nat)
    requires Valid(b) && 0 < max && 0 < again && !ReadOnce(b, host, max).1.status.Fine?
    ensures var (b', r) := ReadOnce(b, host, max);
            ReadOnce(b', host, again) == (b', Result([], r.status))
  {
  }

  /** One read, of any size. */
  lemma ReadIsNext(b: Body, host: seq<Pump.Read>, max: nat)
    requires Valid(b) && !b.closed && 0 < max
    ensures var (b', r) := ReadOnce(b, host, max);
            |r.bytes| <= max && IsNext(b, b', r, host)
    ensures var (b', r) := ReadOnce(b, host, max);
            && (r.status.Fine? ==> |r.bytes| == max || b'.buf == [])
            && b.asked <= b'.asked <= b.asked + 1 && (b.buf != [] ==> b'.asked == b.asked)
  {
    ReadFills(b, host, max);
    hide Take, EndRead, Rest, Served, CleanEnd;
    if b.buf != [] {
      TakeIsNext(b, max, if b.done then [] else Served(Rest(host, b.asked)));
    } else if b.done {
      assert NO_BYTES + NO_BYTES == NO_BYTES;
    } else {
      AskIsNext(b, host, max);
    }
  }

  /** Reads of the given sizes, up to the first that is not Fine. */
  function ReadAll(host: seq<Pump.Read>, sizes: seq<nat>): (Body, seq<seq<byte>>, Status) {
    if sizes == [] then (OPENED, [], Fine)
    else
      var (b, chunks, status) := ReadAll(host, sizes[..|sizes| - 1]);
      if !status.Fine? then (b, chunks, status)
      else
        var (b', r) := ReadOnce(b, host, sizes[|sizes| - 1]);
        (b', if r.status.Fine? then chunks + [r.bytes] else chunks, r.status)
  }

  /**
    Reads of any positive sizes: the chunks are a split of a prefix of what the host served; the
    end is reported exactly when all of it was read and the host ended in order; and enough reads
    always get there.
   */
  lemma {:induction false} ReadsServeTheHost(host: seq<Pump.Read>, sizes: seq<nat>)
    requires forall i :: 0 <= i < |sizes| ==> 0 < sizes[i]
    ensures var (b, chunks, status) := ReadAll(host, sizes);
            && Valid(b)
            && Concat(chunks) + Coming(b, host) == Served(host)
            && (status.Fine? ==> !b.closed && |chunks| == |sizes| && |sizes| <= |Concat(chunks)|
                                 && WillEnd(b, host) == CleanEnd(host))
            && (status.Eof? ==> Concat(chunks) == Served(host) && CleanEnd(host) && b.closes == 1)
            && (status.Broken? ==> Concat(chunks) == Served(host) && !CleanEnd(host) && b.closes == 1)
  {
    hide ReadOnce, Coming, WillEnd, Served, CleanEnd;
    if sizes == [] {
      Fresh(host);
    } else {
      var init, max := sizes[..|sizes| - 1], sizes[|sizes| - 1];
      assert forall i :: 0 <= i < |init| ==> init[i] == sizes[i];
      ReadsServeTheHost(host, init);
      var (b, chunks, status) := ReadAll(host, init);
      if status.Fine? {
        ReadIsNext(b, host, max);
        var (b', r) := ReadOnce(b, host, max);
        assert (chunks + [r.bytes])[..|chunks|] == chunks;
        assert Concat(chunks) + (r.bytes + Coming(b', host)) == Concat(chunks) + r.bytes + Coming(b', host);
        if !r.status.Fine? {
          assert Concat(chunks) + [] == Concat(chunks);
          assert Coming(b', host) == [];
        }
      }
    }
  }

  lemma Fresh(host: seq<Pump.Read>)
    ensures Coming(OPENED, host) == Served(host) && WillEnd(OPENED, host) == CleanEnd(host)
  {
    assert host[0..] == host;
    assert NO_BYTES + Served(host) == Served(host);
  }

  /** More reads than bytes: the stream has ended one way or the other. */
  lemma ReadsEnd(host: seq<Pump.Read>, sizes: seq<nat>)
    requires forall i :: 0 <= i < |sizes| ==> 0 < sizes[i]
    requires |sizes| > |Served(host)|
    ensures ReadAll(host, sizes).2 == if CleanEnd(host) then Eof else Broken
    ensures Concat(ReadAll(host, sizes).1) == Served(host)
  {
    hide ReadAll, Coming, WillEnd;
    ReadsServeTheHost(host, sizes);
  }

  // ---- Close beside a Read in flight ----

  /**
    One reader (readMu admits no second) and any number of closers; each event is one critical
    section.  `closers` counts the Close calls that have set `closed` and not yet gone through the
    once; `out` is what the reads returned.
   */
  datatype Shared = Shared(body: Body, reading: bool, closers: nat, out: seq<byte>)

  datatype Event = StartRead(max: nat) | FinishRead(answer: Pump.Read, max: nat) | MarkClosed | SendClose

  function Happens(s: Shared, e: Event): Shared {
    match e
    case StartRead(max) =>
      if s.reading then s
      else
        var begun := BeginRead(s.body, max);
        if begun.None? then s.(reading := true)
        else s.(body := begun.value.0, out := s.out + begun.value.1.bytes)
    case FinishRead(answer, max) =>
      if !s.reading then s
      else
        var (b, r) := EndRead(s.body, answer, max);
        Shared(b, false, s.closers, s.out + r.bytes)
    case MarkClosed => s.(body := s.body.(closed := true), closers := s.closers + 1)
    case SendClose => if s.closers == 0 then s else s.(body := Release(s.body), closers := s.closers - 1)
  }

  function After(events: seq<Event>): Shared {
    if events == [] then Shared(OPENED, false, 0, [])
    else Happens(After(events[..|events| - 1]), events[|events| - 1])
  }

  /** The payloads that answers brought to a reader in flight on an open body. */
  function Heard(events: seq<Event>): seq<byte> {
    if events == [] then []
    else
      var init, e := events[..|events| - 1], events[|events| - 1];
      if e.FinishRead? && After(init).reading && !After(init).body.closed && e.answer.Read? && !e.answer.error
      then Heard(init) + e.answer.payload
      else Heard(init)
  }

  /** The Close calls that have begun and not returned. */
  function Closing(events: seq<Event>): nat {
    if events == [] then 0
    else
      var before := Closing(events[..|events| - 1]);
      match events[|events| - 1]
      case MarkClosed => before + 1
      case SendClose => if before == 0 then 0 else before - 1
      case _ => before
  }

  ghost predicate SharedInv(s: Shared) {
    && Valid(s.body)
    && (s.body.closed && s.closers == 0 ==> s.body.released)
    && (s.closers > 0 ==> s.body.closed)
  }

  /**
    Under every interleaving stream_close is sent at most once, exactly once as soon as the stream
    is done, broken or closed by a call that has returned; and a closed body returns no more bytes.
   */
  lemma {:induction false} CloseOnce(events: seq<Event>, e: Event)
    ensures var s := After(events);
            && SharedInv(s) && s.body.closes <= 1
            && (s.body.done || s.body.failed || (s.body.closed && s.closers == 0) ==> s.body.closes == 1)
            && (s.body.closed ==> Happens(s, e).out == s.out && Happens(s, e).body.closed)
  {
    var s := After(events);
    if events != [] {
      CloseOnce(events[..|events| - 1], events[|events| - 1]);
      HappensKeeps(After(events[..|events| - 1]), events[|events| - 1]);
    }
    HappensKeeps(s, e);
  }

  /**
    Nothing is lost or doubled under any interleaving: what the reads returned and what is buffered
    are the payloads heard, in order.  The host is asked exactly for a read of some size on an open
    body with nothing buffered and no end seen, by one read at a time.
   */
  lemma {:induction false} HeardInOrder(events: seq<Event>)
    ensures var s := After(events);
            && s.out + s.body.buf == Heard(events)
            && s.closers == Closing(events)
            && (s.reading ==> s.body.buf == [] && !s.body.done)
            && forall max, answer :: 0 < max ==>
                 && !Happens(s, FinishRead(answer, max)).reading
                 && (Happens(s, StartRead(max)).reading
                     <==> s.reading || (!s.body.closed && !s.body.failed && s.body.buf == [] && !s.body.done))
  {
    var s := After(events);
    if events != [] {
      HeardInOrder(events[..|events| - 1]);
      HeardStep(After(events[..|events| - 1]), events[|events| - 1]);
    }
  }

  lemma HeardStep(s: Shared, e: Event)
    requires s.reading ==> s.body.buf == [] && !s.body.done
    ensures var s' := Happens(s, e);
            && s'.out + s'.body.buf
               == s.out + s.body.buf
                  + (if e.FinishRead? && s.reading && !s.body.closed && e.answer.Read? && !e.answer.error
                     then e.answer.payload else [])
            && (s'.reading ==> s'.body.buf == [] && !s'.body.done)
  {
    hide Take;
    assert s.out + s.body.buf + [] == s.out + s.body.buf && s.out + [] == s.out;
    if e.StartRead? && s.body.buf != [] && e.max > 0 {
      TakeSplits(s.body, e.max, s.out);
    }
    if e.FinishRead? && s.reading && e.answer.Read? && e.answer.payload != [] {
      var b := s.body.(buf := e.answer.payload);
      TakeSplits(b, e.max, s.out);
      TakeSplits(Release(b.(done := true)), e.max, s.out);
    }
  }

  lemma TakeSplits(b: Body, max: nat, out: seq<byte>)
    ensures var (b', r) := Take(b, max);
            && b' == b.(buf := b'.buf) && out + r.bytes + b'.buf == out + b.buf
  {
    var n := if max < |b.buf| then max else |b.buf|;
    assert b.buf[..n] + b.buf[n..] == b.buf;
  }

  lemma HappensKeeps(s: Shared, e: Event)
    requires SharedInv(s)
    ensures SharedInv(Happens(s, e))
    ensures s.body.closed ==> Happens(s, e).out == s.out && Happens(s, e).body.closed
  {
    assert s.out + [] == s.out;
    if e.StartRead? {
      hide EndRead;
    } else if e.FinishRead? {
      hide BeginRead;
    } else {
      hide BeginRead, EndRead;
    }
  }
}
