/**
  The stream pump of plugins/opencode/transport.go (DoStream, CloseStream): the goroutine that
  turns host reads into chunks, its consumer, and the cancellation callback, as a transition
  system.  A channel send is a rendezvous, sync.Once blocks a second caller until the first has
  returned, and `abandoned` is closed inside the once.
 */
module Pump {
  import opened Prelude
  import opened Sse
  import opened Response
  import opened ResponseTheorems
  import opened Relay

  /** One answer of host.http.stream_read. */
  datatype Read = RpcError | Read(payload: seq<byte>, error: bool, done: bool)

  datatype Pc =
    | Top                                         // before the first look at abandoned
    | Context                                     // before ctx.Err()
    | Reading                                     // blocked in the host read
    | Got(read: Read)
    | Offering(chunk: Chunk, rest: Option<Read>)  // sending; what is left of the read, if anything
    | Checking(read: Read)                        // its payload is out
    | Disarming                                   // the deferred calls, last one first
    | Closing
    | Releasing
    | Ended                                       // the chunk channel is closed

  datatype Party = ThePump | TheConsumer | TheTimer

  datatype Once = Unused | Running(owner: Party) | Used

  datatype Consumer = Listening | Quitting | Left

  datatype Timer = Armed | Disarmed | Firing | Fired

  /** `closes` counts stream_close calls; `heard` and `delivered` record what happened so far. */
  datatype State = State(
    pc: Pc, once: Once, closes: nat, cancelled: bool, timer: Timer, consumer: Consumer, sawEnd: bool,
    heard: seq<Read>, delivered: seq<Chunk>)

  const OPENED: State := State(Top, Unused, 0, false, Armed, Listening, false, [], [])

  datatype Action =
    | Look                  // the pump's next step that involves nobody else
    | HostAnswers(read: Read)
    | Deliver               // the consumer receives what the pump offers
    | GiveUp                // the pump takes the other branch of the select
    | SeeEnd                // the consumer receives from the closed channel
    | Quit                  // the consumer calls Close
    | Cancel                // the request context is cancelled
    | EnterClose(party: Party)
    | ReturnClose(party: Party)

  predicate Abandoned(s: State) {
    s.once != Unused
  }

  /** Inside closeStream, or waiting for it. */
  predicate Calls(s: State, p: Party) {
    match p
    case ThePump => s.pc.Closing?
    case TheConsumer => s.consumer.Quitting?
    case TheTimer => s.timer.Firing?
  }

  function Returned(s: State, p: Party): State {
    match p
    case ThePump => s.(pc := Releasing)
    case TheConsumer => s.(consumer := Left)
    case TheTimer => s.(timer := Fired)
  }

  /** What follows once the payload of a read has been passed on. */
  function AfterPayload(r: Read): Pc
    requires r.Read?
  {
    if r.error then Offering(ReadError, None)
    else if r.done then Disarming
    else if r.payload == [] then Offering(ReadError, None)
    else Top
  }

  function LookPc(s: State): Option<Pc> {
    match s.pc
    case Top => Some(if Abandoned(s) then Disarming else Context)
    case Context => Some(if s.cancelled then Offering(ReadError, None) else Reading)
    case Got(r) =>
      if r.RpcError? then Some(Offering(ReadError, None))
      else if Abandoned(s) then Some(Disarming)
      else if r.payload != [] then Some(Offering(Payload(r.payload), Some(r)))
      else Some(AfterPayload(r))
    case Checking(r) => if r.Read? then Some(AfterPayload(r)) else None
    case Disarming => Some(Closing)
    case Releasing => Some(Ended)
    case _ => None
  }

  function Step(s: State, a: Action): Option<State> {
    match a
    case Look =>
      var pc := LookPc(s);
      if pc.None? then None
      else Some(s.(pc := pc.value, timer := if s.pc.Disarming? && s.timer.Armed? then Disarmed else s.timer))
    case HostAnswers(r) =>
      if s.pc.Reading? then Some(s.(pc := Got(r), heard := s.heard + [r])) else None
    case Deliver =>
      if s.pc.Offering? && s.consumer.Listening? then
        Some(s.(pc := if s.pc.rest.Some? then Checking(s.pc.rest.value) else Disarming,
                delivered := s.delivered + [s.pc.chunk]))
      else None
    case GiveUp => if s.pc.Offering? && Abandoned(s) then Some(s.(pc := Disarming)) else None
    case SeeEnd => if s.pc.Ended? && s.consumer.Listening? && !s.sawEnd then Some(s.(sawEnd := true)) else None
    case Quit => if s.consumer.Listening? then Some(s.(consumer := Quitting)) else None
    case Cancel =>
      if s.cancelled then None
      else Some(s.(cancelled := true, timer := if s.timer.Armed? then Firing else s.timer))
    case EnterClose(p) => if Calls(s, p) && s.once.Unused? then Some(s.(once := Running(p))) else None
    case ReturnClose(p) =>
      if !Calls(s, p) then None
      else if s.once == Running(p) then Some(Returned(s.(once := Used, closes := s.closes + 1), p))
      else if s.once.Used? then Some(Returned(s, p))
      else None
  }

  /** A run from the opened stream; steps that are not enabled change nothing. */
  function Run(acts: seq<Action>): State {
    if acts == [] then OPENED
    else
      var s := Run(acts[..|acts| - 1]);
      var t := Step(s, acts[|acts| - 1]);
      if t.Some? then t.value else s
  }

  // ---- what the host said, and what a pump that is never abandoned makes of it ----

  /** A read after which the pump asks for more. */
  predicate Goes(r: Read) {
    r.Read? && r.payload != [] && !r.error && !r.done
  }

  predicate AllGo(heard: seq<Read>) {
    forall i :: 0 <= i < |heard| ==> Goes(heard[i])
  }

  function PayloadOf(r: Read): seq<Chunk> {
    if r.Read? && r.payload != [] then [Payload(r.payload)] else []
  }

  function ErrorOf(r: Read): seq<Chunk> {
    if r.RpcError? || r.error || (!r.done && r.payload == []) then [ReadError] else []
  }

  function Sent(heard: seq<Read>): seq<Chunk> {
    if heard == [] then [] else Sent(heard[..|heard| - 1]) + PayloadOf(heard[|heard| - 1]) + ErrorOf(heard[|heard| - 1])
  }

  /** The text the host served. */
  function HostText(heard: seq<Read>): seq<byte> {
    if heard == [] then []
    else
      HostText(heard[..|heard| - 1])
      + (if heard[|heard| - 1].Read? then heard[|heard| - 1].payload else [])
  }

  /** The host ended the stream: its last answer, and only that, says done, without an error. */
  predicate HostDone(heard: seq<Read>) {
    && heard != [] && AllGo(heard[..|heard| - 1])
    && heard[|heard| - 1].Read? && heard[|heard| - 1].done && !heard[|heard| - 1].error
  }

  lemma SentAppend(heard: seq<Read>, r: Read)
    ensures Sent(heard + [r]) == Sent(heard) + PayloadOf(r) + ErrorOf(r)
    ensures HostText(heard + [r]) == HostText(heard) + (if r.Read? then r.payload else [])
    ensures AllGo(heard + [r]) <==> AllGo(heard) && Goes(r)
  {
    var all := heard + [r];
    assert all[..|heard|] == heard && all[|heard|] == r;
    if AllGo(all) {
      assert forall i :: 0 <= i < |heard| ==> heard[i] == all[i];
    }
  }

  function Before(heard: seq<Read>): seq<Read> {
    if heard == [] then [] else heard[..|heard| - 1]
  }

  // ---- the invariant ----

  /** The reads end with r, and only the last one may have stopped the pump. */
  ghost predicate Latest(heard: seq<Read>, r: Read) {
    heard != [] && heard[|heard| - 1] == r && AllGo(Before(heard))
  }

  /** About to report an error: the host's, or the cancellation. */
  ghost predicate Failing(s: State) {
    || (exists r :: Latest(s.heard, r) && !Goes(r) && Sent(s.heard) == s.delivered + [ReadError])
    || (s.cancelled && AllGo(s.heard) && s.delivered == Sent(s.heard))
  }

  ghost predicate HostEnded(s: State) {
    exists r :: Latest(s.heard, r) && !Goes(r) && s.delivered == Sent(s.heard)
  }

  ghost predicate GaveUp(s: State) {
    s.delivered <= Sent(s.heard) && AllGo(Before(s.heard))
  }

  /** Why the pump left its loop: the host ended or failed, the context did, or it was abandoned. */
  ghost predicate Over(s: State) {
    || HostEnded(s)
    || (s.cancelled && AllGo(s.heard) && s.delivered == Sent(s.heard) + [ReadError])
    || ((s.cancelled || !s.consumer.Listening?) && GaveUp(s))
  }

  ghost predicate Logged(s: State) {
    match s.pc
    case Got(r) => Latest(s.heard, r) && s.delivered == Sent(Before(s.heard))
    case Checking(r) =>
      Latest(s.heard, r) && r.Read? && s.delivered == Sent(Before(s.heard)) + PayloadOf(r)
    case Offering(chunk, rest) =>
      if rest.Some? then
        && Latest(s.heard, rest.value) && rest.value.Read? && PayloadOf(rest.value) == [chunk]
        && s.delivered == Sent(Before(s.heard))
      else
        chunk.ReadError? && Failing(s)
    case Disarming => Over(s)
    case Closing => Over(s)
    case Releasing => Over(s)
    case Ended => Over(s)
    case _ => AllGo(s.heard) && s.delivered == Sent(s.heard)
  }

  ghost predicate ClosesOnce(s: State) {
    && s.closes == (if s.once.Used? then 1 else 0)
    && (s.once.Running? ==> Calls(s, s.once.owner))
    && (s.pc.Releasing? || s.pc.Ended? || s.consumer.Left? || s.timer.Fired? ==> s.once.Used?)
    && (s.timer.Firing? || s.timer.Fired? ==> s.cancelled)
    && (Abandoned(s) && !s.cancelled && s.consumer.Listening? ==> s.pc.Closing? || s.pc.Releasing? || s.pc.Ended?)
    && (s.sawEnd ==> s.pc.Ended?)
  }

  ghost predicate PumpInv(s: State) {
    ClosesOnce(s) && Logged(s)
  }

  lemma ClosesOnceStep(s: State, a: Action)
    requires ClosesOnce(s) && Step(s, a).Some?
    ensures ClosesOnce(Step(s, a).value)
  {
  }

  lemma LatestSent(heard: seq<Read>, r: Read)
    requires Latest(heard, r)
    ensures Sent(heard) == Sent(Before(heard)) + PayloadOf(r) + ErrorOf(r)
    ensures AllGo(heard) <==> Goes(r)
  {
    SentAppend(Before(heard), r);
    assert Before(heard) + [r] == heard;
  }

  /** What the pump does with an answer once its payload is out. */
  lemma AfterIs(r: Read)
    ensures Goes(r) <==> r.Read? && PayloadOf(r) != [] && AfterPayload(r).Top?
    ensures Goes(r) ==> ErrorOf(r) == []
    ensures r.Read? && AfterPayload(r).Top? ==> Goes(r)
    ensures r.Read? && AfterPayload(r).Offering? ==>
              AfterPayload(r) == Offering(ReadError, None) && ErrorOf(r) == [ReadError] && !Goes(r)
    ensures r.Read? && AfterPayload(r).Disarming? ==> ErrorOf(r) == [] && !Goes(r)
    ensures r.Read? ==> AfterPayload(r).Top? || AfterPayload(r).Offering? || AfterPayload(r).Disarming?
    ensures r.RpcError? ==> PayloadOf(r) == [] && ErrorOf(r) == [ReadError]
  {
  }

  lemma LookKeepsLog(s: State)
    requires PumpInv(s) && Step(s, Look).Some?
    ensures Logged(Step(s, Look).value)
  {
    hide Sent, AllGo, AfterPayload, Goes, ErrorOf;
    var t := Step(s, Look).value;
    if s.pc.Got? || s.pc.Checking? {
      var r := s.pc.read;
      LatestSent(s.heard, r);
      AfterIs(r);
      var sent := Sent(Before(s.heard));
      assert sent + [] == sent && sent + PayloadOf(r) + [] == sent + PayloadOf(r);
    } else if s.pc.Top? {
      AllBefore(s.heard);
    }
  }

  lemma AnswerKeepsLog(s: State, r: Read)
    requires PumpInv(s) && Step(s, HostAnswers(r)).Some?
    ensures Logged(Step(s, HostAnswers(r)).value)
  {
    assert Before(s.heard + [r]) == s.heard;
  }

  lemma DeliverKeepsLog(s: State)
    requires PumpInv(s) && Step(s, Deliver).Some?
    ensures Logged(Step(s, Deliver).value)
  {
    hide Sent, AllGo, Goes, ErrorOf, PayloadOf;
  }

  lemma GiveUpKeepsLog(s: State)
    requires PumpInv(s) && Step(s, GiveUp).Some?
    ensures Logged(Step(s, GiveUp).value)
  {
    hide Sent, AllGo, Goes, ErrorOf, PayloadOf;
    if s.pc.rest.Some? {
      LatestSent(s.heard, s.pc.rest.value);
    } else if !exists r :: Latest(s.heard, r) && !Goes(r) && Sent(s.heard) == s.delivered + [ReadError] {
      AllBefore(s.heard);
    }
  }

  lemma AllBefore(heard: seq<Read>)
    requires AllGo(heard)
    ensures AllGo(Before(heard))
  {
  }

  lemma QuietKeepsLog(s: State, a: Action)
    requires PumpInv(s) && Step(s, a).Some?
    requires a.SeeEnd? || a.Quit? || a.Cancel? || a.EnterClose? || a.ReturnClose?
    ensures Logged(Step(s, a).value)
  {
    hide Sent, AllGo, Goes, ErrorOf, PayloadOf;
  }

  lemma LoggedStep(s: State, a: Action)
    requires PumpInv(s) && Step(s, a).Some?
    ensures Logged(Step(s, a).value)
  {
    hide Logged, Step;
    if a.Look? {
      LookKeepsLog(s);
    } else if a.HostAnswers? {
      AnswerKeepsLog(s, a.read);
    } else if a.Deliver? {
      DeliverKeepsLog(s);
    } else if a.GiveUp? {
      GiveUpKeepsLog(s);
    } else {
      QuietKeepsLog(s, a);
    }
  }

  lemma {:induction false} RunsKeepPump(acts: seq<Action>)
    ensures PumpInv(Run(acts))
  {
    hide Step, Logged, ClosesOnce;
    if acts == [] {
      OpenedKept();
    } else {
      var s, a := Run(acts[..|acts| - 1]), acts[|acts| - 1];
      RunsKeepPump(acts[..|acts| - 1]);
      if Step(s, a).Some? {
        ClosesOnceStep(s, a);
        LoggedStep(s, a);
      }
    }
  }

  lemma OpenedKept()
    ensures PumpInv(OPENED)
  {
  }

  // ---- what the chunks say about the host ----

  lemma {:induction false} GoingSends(heard: seq<Read>)
    requires AllGo(heard)
    ensures Clean(Sent(heard)) && StreamText(Sent(heard)) == HostText(heard)
  {
    hide Clean, StreamText, AllGo, Sent, HostText, Goes;
    if heard == [] {
      NothingSent();
    } else {
      var init, r := Before(heard), heard[|heard| - 1];
      AllBefore(heard);
      GoingSends(init);
      SentAppend(init, r);
      assert init + [r] == heard;
      GoingSendsPayload(r);
      BytesAppend(Sent(init), Payload(r.payload));
      assert Sent(init) + PayloadOf(r) + [] == Sent(init) + PayloadOf(r);
    }
  }

  lemma GoingSendsPayload(r: Read)
    ensures Goes(r) ==> r.Read? && PayloadOf(r) == [Payload(r.payload)] && ErrorOf(r) == []
  {
  }

  lemma NothingSent()
    ensures Sent([]) == [] && HostText([]) == [] && Clean([]) && StreamText([]) == []
  {
  }

  /** A last answer that does not go on: an error chunk follows unless it says done without an error. */
  lemma LastSends(heard: seq<Read>, r: Read)
    requires Latest(heard, r) && !Goes(r)
    ensures Clean(Sent(heard)) <==> HostDone(heard)
    ensures ErrorsLast(Sent(heard))
    ensures HostDone(heard) ==> StreamText(Sent(heard)) == HostText(heard)
  {
    hide StreamText, Clean, AllGo, Sent, HostText, Goes;
    var init := Before(heard);
    SentAppend(init, r);
    assert init + [r] == heard && heard[..|heard| - 1] == init;
    GoingSends(init);
    var sent := Sent(init);
    var more := sent + PayloadOf(r);
    if PayloadOf(r) != [] {
      BytesAppend(sent, Payload(r.payload));
    } else {
      assert more == sent;
    }
    assert Clean(more);
    BytesAppend(more, ReadError);
    CleanIsErrorsLast(more);
    assert more + [] == more;
    AfterIs(r);
    DoneIs(r);
  }

  lemma DoneIs(r: Read)
    requires !Goes(r)
    ensures ErrorOf(r) == [] <==> r.Read? && r.done && !r.error
    ensures r.Read? && PayloadOf(r) == [] ==> r.payload == []
  {
  }

  /** Only the last chunk may be an error. */
  predicate ErrorsLast(chunks: seq<Chunk>) {
    forall i :: 0 <= i < |chunks| - 1 ==> chunks[i].Payload?
  }

  lemma CleanIsErrorsLast(chunks: seq<Chunk>)
    requires Clean(chunks)
    ensures ErrorsLast(chunks) && ErrorsLast(chunks + [ReadError])
  {
  }

  lemma SentErrorsLast(heard: seq<Read>)
    requires AllGo(Before(heard))
    ensures ErrorsLast(Sent(heard))
  {
    hide Clean, AllGo, Sent, Goes;
    if heard == [] {
      NothingSent();
      CleanIsErrorsLast(Sent(heard));
    } else {
      var r := heard[|heard| - 1];
      LatestSent(heard, r);
      if Goes(r) {
        GoingSends(heard);
        CleanIsErrorsLast(Sent(heard));
      } else {
        LastSends(heard, r);
      }
    }
  }

  // ---- the theorems, for every run ----

  /** What the consumer got so far, read off what the host said. */
  ghost predicate InHostOrder(s: State) {
    && AllGo(Before(s.heard))
    && (s.delivered <= Sent(s.heard) || (s.cancelled && AllGo(s.heard) && s.delivered == Sent(s.heard) + [ReadError]))
  }

  lemma LoggedIsInOrder(s: State)
    requires Logged(s)
    ensures InHostOrder(s)
  {
    hide AllGo, Sent, Goes, PayloadOf, ErrorOf;
    if AllGo(s.heard) {
      AllBefore(s.heard);
    }
    if s.pc.Got? {
      LatestSent(s.heard, s.pc.read);
    } else if s.pc.Checking? {
      LatestSent(s.heard, s.pc.read);
    } else if s.pc.Offering? && s.pc.rest.Some? {
      LatestSent(s.heard, s.pc.rest.value);
    }
  }

  /**
    The consumer gets the host's payloads in order and nothing else but one error chunk, always the
    last; and the host stream is released at most once, exactly once by the time either the chunk
    channel is closed or Close has returned.
   */
  lemma ChunksAreTheHosts(acts: seq<Action>)
    ensures var s := Run(acts);
            && InHostOrder(s) && ErrorsLast(s.delivered)
            && s.closes <= 1 && (s.pc.Ended? || s.consumer.Left? ==> s.closes == 1)
  {
    hide Run, AllGo, Sent, Logged;
    var s := Run(acts);
    RunsKeepPump(acts);
    LoggedIsInOrder(s);
    SentErrorsLast(s.heard);
    if AllGo(s.heard) {
      GoingSends(s.heard);
      CleanIsErrorsLast(Sent(s.heard));
    }
  }

  /**
    End of stream: while nobody cancelled and the consumer has not called Close, the channel closes
    without an error chunk exactly when the host said done, and then all its payloads are out.
   */
  lemma EndMeansDone(acts: seq<Action>)
    requires var s := Run(acts); s.pc.Ended? && s.consumer.Listening? && !s.cancelled
    ensures var s := Run(acts);
            && s.delivered == Sent(s.heard)
            && (Clean(s.delivered) <==> HostDone(s.heard))
            && (HostDone(s.heard) ==> StreamText(s.delivered) == HostText(s.heard))
  {
    hide Run, AllGo, Sent, Clean, StreamText, HostDone;
    var s := Run(acts);
    RunsKeepPump(acts);
    var r :| Latest(s.heard, r) && !Goes(r) && s.delivered == Sent(s.heard);
    LastSends(s.heard, r);
  }

  /** The pump at the top of its loop again, after one payload went through. */
  function OneThrough(bytes: seq<byte>): State {
    OPENED.(pc := Checking(Read(bytes, false, false)), heard := [Read(bytes, false, false)],
        delivered := [Payload(bytes)])
  }

  lemma PassesOne(bytes: seq<byte>) returns (acts: seq<Action>)
    requires bytes != []
    ensures Run(acts) == OneThrough(bytes)
  {
    NothingRun();
    hide Run;
    var none: seq<Action> := [];
    var a1 := Then(none, Look);
    var a2 := Then(a1, Look);
    var a3 := Then(a2, HostAnswers(Read(bytes, false, false)));
    var a4 := Then(a3, Look);
    acts := Then(a4, Deliver);
  }

  /** Cancelled there: the timer closes the stream, and the pump leaves. */
  lemma LeavesCancelled(bytes: seq<byte>, acts: seq<Action>) returns (more: seq<Action>)
    requires bytes != [] && Run(acts) == OneThrough(bytes)
    ensures var s := Run(more);
            s.pc.Ended? && s.consumer.Listening? && s.heard == OneThrough(bytes).heard
                && s.delivered == [Payload(bytes)]
  {
    hide Run;
    var a1 := Then(acts, Cancel);
    var a2 := Then(a1, EnterClose(TheTimer));
    var a3 := Then(a2, Look);
    var a4 := Then(a3, Look);
    var a5 := Then(a4, Look);
    var a6 := Then(a5, ReturnClose(TheTimer));
    var a7 := Then(a6, ReturnClose(ThePump));
    more := Then(a7, Look);
  }

  /** With a context that can be cancelled the same does not hold: the channel may close early, without an error. */
  lemma CancelTruncates(bytes: seq<byte>)
    requires bytes != []
    ensures exists acts ::
              var s := Run(acts);
              s.pc.Ended? && s.consumer.Listening? && s.delivered == [Payload(bytes)] && !HostDone(s.heard)
  {
    hide Run;
    var acts := PassesOne(bytes);
    var more := LeavesCancelled(bytes, acts);
    assert !HostDone(Run(more).heard);
  }

  lemma NothingRun()
    ensures Run([]) == OPENED
  {
  }

  function Then(acts: seq<Action>, a: Action): (all: seq<Action>)
    ensures Run(all) == (var t := Step(Run(acts), a); if t.Some? then t.value else Run(acts))
  {
    OneMore(acts, a);
    acts + [a]
  }

  lemma OneMore(acts: seq<Action>, a: Action)
    ensures Run(acts + [a]) == (var t := Step(Run(acts), a); if t.Some? then t.value else Run(acts))
  {
    assert (acts + [a])[..|acts|] == acts;
  }

  // ---- after Close the pump cannot stay blocked ----

  function PcRank(pc: Pc): nat {
    match pc
    case Context => 9
    case Reading => 8
    case Got(_) => 7
    case Offering(_, rest) => if rest.Some? then 6 else 4
    case Checking(_) => 5
    case Top => 4
    case Disarming => 3
    case Closing => 2
    case Releasing => 1
    case Ended => 0
  }

  /** What is left to happen in an abandoned stream, at most. */
  function Rank(s: State): nat {
    PcRank(s.pc)
    + (if s.once.Unused? then 2 else if s.once.Running? then 1 else 0)
    + (if s.consumer.Listening? then 2 else if s.consumer.Quitting? then 1 else 0)
    + (if s.timer.Armed? then 2 else if s.timer.Firing? then 1 else 0)
    + (if s.cancelled then 0 else 1) + (if s.sawEnd then 0 else 1)
  }

  /** A step that needs no receive by the consumer. */
  predicate Alone(a: Action) {
    a.Look? || a.HostAnswers? || a.GiveUp? || a.EnterClose? || a.ReturnClose?
  }

  /**
    Once Close was called by anybody, every step of any party brings the end nearer, and until the
    pump has ended one that needs no receiving consumer is possible.
   */
  lemma AbandonedAdvances(acts: seq<Action>, a: Action)
    requires Abandoned(Run(acts))
    ensures var s := Run(acts);
            && (Step(s, a).Some? ==> Abandoned(Step(s, a).value) && Rank(Step(s, a).value) < Rank(s))
            && (!s.pc.Ended? ==> exists b :: Alone(b) && Step(s, b).Some?)
  {
    hide Run, Logged, Sent;
    var s := Run(acts);
    RunsKeepPump(acts);
    if Step(s, a).Some? {
      ClosedNeverFresh(s, a);
    }
    if !s.pc.Ended? {
      if s.pc.Reading? {
        assert Alone(HostAnswers(RpcError)) && Step(s, HostAnswers(RpcError)).Some?;
      } else if s.pc.Offering? {
        assert Alone(GiveUp) && Step(s, GiveUp).Some?;
      } else if s.pc.Closing? {
        var p := if s.once.Running? then s.once.owner else ThePump;
        assert Alone(ReturnClose(p)) && Step(s, ReturnClose(p)).Some?;
      } else {
        CheckingIsARead(s);
        assert Alone(Look) && Step(s, Look).Some?;
      }
    }
  }

  /** After acts, the given steps are all taken. */
  ghost predicate Taken(acts: seq<Action>, more: seq<Action>) {
    more != [] ==>
      Taken(acts, more[..|more| - 1]) && Step(Run(acts + more[..|more| - 1]), more[|more| - 1]).Some?
  }

  lemma {:induction false} TakenAdvances(acts: seq<Action>, more: seq<Action>)
    requires Abandoned(Run(acts)) && Taken(acts, more)
    ensures Abandoned(Run(acts + more)) && |more| + Rank(Run(acts + more)) <= Rank(Run(acts))
  {
    hide Run, Step, Rank, Abandoned;
    if more == [] {
      assert acts + more == acts;
    } else {
      var init, last := more[..|more| - 1], more[|more| - 1];
      TakenAdvances(acts, init);
      AbandonedAdvances(acts + init, last);
      OneMore(acts + init, last);
      assert acts + more == acts + init + [last];
    }
  }

  /**
    After Close every run of an abandoned stream ends: whatever the schedule, everybody together
    takes at most Rank further steps, and when no step is left that needs no receiving consumer, the
    pump has ended.
   */
  lemma AbandonedEnds(acts: seq<Action>, more: seq<Action>)
    requires Abandoned(Run(acts)) && Taken(acts, more)
    ensures |more| <= Rank(Run(acts))
    ensures (forall b :: Alone(b) ==> Step(Run(acts + more), b).None?) ==> Run(acts + more).pc.Ended?
  {
    hide Run, Step, Rank, Abandoned, Taken;
    TakenAdvances(acts, more);
    AbandonedAdvances(acts + more, Look);
  }

  lemma LookLowers(s: State)
    requires Abandoned(s) && Step(s, Look).Some?
    ensures PcRank(Step(s, Look).value.pc) < PcRank(s.pc)
  {
  }

  lemma ClosedNeverFresh(s: State, a: Action)
    requires Abandoned(s) && Step(s, a).Some?
    ensures Abandoned(Step(s, a).value) && Rank(Step(s, a).value) < Rank(s)
  {
    if a.Look? {
      LookLowers(s);
      hide PcRank, LookPc;
    } else {
      hide LookPc;
    }
  }

  lemma CheckingIsARead(s: State)
    requires Logged(s)
    ensures s.pc.Checking? ==> s.pc.read.Read?
  {
  }

  // ---- the pump under the handler's relay ----

  /** The request context is never cancelled, and Close comes after the relay has returned. */
  predicate Disciplined(s: State, a: Action, codec: Codec, emit: nat -> bool) {
    var stopped := TakeChunks(codec, s.delivered, emit).failed;
    && !a.Cancel?
    && (a.Deliver? || a.SeeEnd? ==> !stopped)
    && (a.Quit? ==> stopped || s.sawEnd)
  }

  predicate Handled(acts: seq<Action>, codec: Codec, emit: nat -> bool) {
    acts != [] ==>
      && Handled(acts[..|acts| - 1], codec, emit)
      && Disciplined(Run(acts[..|acts| - 1]), acts[|acts| - 1], codec, emit)
  }

  /** The relay at this point: still looping over the chunks, or past the end of the channel. */
  function RelayAt(s: State, codec: Codec, emit: nat -> bool): Relay {
    if s.sawEnd then RelayOf(codec, s.delivered, emit) else TakeChunks(codec, s.delivered, emit)
  }

  ghost predicate HandledSoFar(s: State, codec: Codec, emit: nat -> bool) {
    && !s.cancelled
    && (s.consumer.Listening? || s.sawEnd || TakeChunks(codec, s.delivered, emit).failed)
    && (s.sawEnd ==> s.pc.Ended? && HostEnded(s))
  }

  lemma HandledStep(s: State, a: Action, codec: Codec, emit: nat -> bool)
    requires PumpInv(s) && HandledSoFar(s, codec, emit) && Disciplined(s, a, codec, emit) && Step(s, a).Some?
    ensures HandledSoFar(Step(s, a).value, codec, emit)
  {
    hide TakeChunks, Sent, AllGo, Goes, LookPc;
    var t := Step(s, a).value;
    if s.sawEnd {
      EndedStays(s);
      assert t.pc.Ended? && t.heard == s.heard && t.delivered == s.delivered;
    } else if a.SeeEnd? {
      assert Over(s);
    }
  }

  lemma EndedStays(s: State)
    requires s.pc.Ended?
    ensures Step(s, Look).None? && Step(s, ReturnClose(ThePump)).None?
  {
  }

  lemma {:induction false} HandledKeeps(acts: seq<Action>, codec: Codec, emit: nat -> bool)
    requires Handled(acts, codec, emit)
    ensures HandledSoFar(Run(acts), codec, emit)
  {
    hide Step, HandledSoFar, Disciplined, PumpInv;
    if acts == [] {
      assert HandledSoFar(OPENED, codec, emit) by { OpenedHandled(codec, emit); }
    } else {
      var init, a := acts[..|acts| - 1], acts[|acts| - 1];
      HandledKeeps(init, codec, emit);
      RunsKeepPump(init);
      if Step(Run(init), a).Some? {
        HandledStep(Run(init), a, codec, emit);
      }
    }
  }

  lemma OpenedHandled(codec: Codec, emit: nat -> bool)
    ensures HandledSoFar(OPENED, codec, emit)
  {
  }

  /**
    The whole chain from the host to the client.  A frame with tool calls, usage or a finish is
    emitted only if the host ended its stream with done, the relay read every byte the host served,
    and those bytes form an acceptable response; and a relay that reports success emitted all of it.
   */
  lemma HeldNeedsDone(acts: seq<Action>, codec: Codec, emit: nat -> bool)
    requires Handled(acts, codec, emit)
    ensures var s := Run(acts);
            var r := RelayAt(s, codec, emit);
            (HasHold(r.emitted) || (s.sawEnd && !r.failed)) ==>
              && s.sawEnd && HostDone(s.heard) && StreamText(s.delivered) == HostText(s.heard)
              && Collect(codec, HostText(s.heard)).Some?
              && r.emitted <= Whole(codec, HostText(s.heard)).1
              && (!r.failed ==> r.emitted == Whole(codec, HostText(s.heard)).1)
  {
    hide Run, RelayOf, TakeChunks, Collect, Whole, StreamText, StreamEvents, Sent, HostText, HostDone, Clean,
         Handled, AllGo;
    var s := Run(acts);
    HandledKeeps(acts, codec, emit);
    if s.sawEnd {
      CommitSafety(codec, s.delivered, emit);
      if Clean(s.delivered) {
        CollectOfStream(codec, s.delivered);
        var r :| Latest(s.heard, r) && !Goes(r) && s.delivered == Sent(s.heard);
        LastSends(s.heard, r);
        OneFeed(codec, StreamText(s.delivered));
      }
    } else {
      NothingHeldYet(codec, s.delivered, emit);
    }
  }

  lemma NothingHeldYet(codec: Codec, chunks: seq<Chunk>, emit: nat -> bool)
    ensures !HasHold(TakeChunks(codec, chunks, emit).emitted)
  {
    hide TakeChunks, FeedAll, Passed, Size, Bytes, Clean, Fails;
    var r := TakeChunks(codec, chunks, emit);
    ChunksInStep(codec, chunks, emit);
    if r.failed {
      var n :| 0 <= n <= |chunks| && Clean(chunks[..n]) && Withheld(r, StreamEvents(codec, chunks[..n]));
      PassedHoldsNothing(StreamEvents(codec, chunks[..n]), r.emitted);
    } else {
      PassedHoldsNothing(StreamEvents(codec, chunks), r.emitted);
    }
  }
}
