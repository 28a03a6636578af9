/** HostStreamBody of plugins/cline/host_stream.go as the source writes it: fields and a caller's buffer. */
module HostStreamBodies {
  import opened Sse
  import opened HostStream
  import Pump

  class HostStreamBody {
    const host: seq<Pump.Read>
    var asked: nat
    var buf: seq<byte>
    var done: bool
    var closed: bool
    var failed: bool
    var released: bool
    var closes: nat

    ghost function State(): Body
      reads this
    {
      Body(asked, buf, done, closed, failed, released, closes)
    }

    constructor (host: seq<Pump.Read>)
      ensures this.host == host && State() == OPENED
    {
      this.host := host;
      asked, buf, done, closed, failed, released, closes := 0, [], false, false, false, false, 0;
    }

    /** At most one host call; what it returns goes to the front of p, and the rest of p is left alone. */
    method Read(p: array<byte>) returns (n: nat, status: Status)
      modifies this, p
      ensures var (b, r) := ReadOnce(old(State()), host, p.Length);
              && State() == b && status == r.status
              && n == |r.bytes| <= p.Length && p[..n] == r.bytes && p[n..] == old(p[..])[n..]
    {
      if p.Length == 0 { return 0, Fine; }
      if failed || closed { return 0, Broken; }
      if |buf| > 0 {
        n := CopyOut(p);
        return n, Fine;
      }
      if done { return 0, Eof; }
      var answer := AnswerAt(host, asked);
      asked := asked + 1;
      if Breaks(answer) {
        failed, closed := true, true;
        SendCloseOnce();
        return 0, Broken;
      }
      if |answer.payload| > 0 { buf := answer.payload; }
      if answer.done {
        done := true;
        SendCloseOnce();
      }
      if |buf| == 0 { return 0, Eof; }
      n := CopyOut(p);
      status := Fine;
    }

    /** The copy loop, and the step past what was copied. */
    method CopyOut(p: array<byte>) returns (n: nat)
      modifies this`buf, p
      ensures n == (if p.Length < |old(buf)| then p.Length else |old(buf)|)
      ensures p[..n] == old(buf)[..n] && p[n..] == old(p[..])[n..] && buf == old(buf)[n..]
    {
      n := if p.Length < |buf| then p.Length else |buf|;
      var i := 0;
      while i < n
        modifies p
        invariant 0 <= i <= n && p[..i] == buf[..i] && p[i..] == old(p[..])[i..]
      {
        p[i] := buf[i];
        i := i + 1;
      }
      buf := buf[n..];
    }

    method SendCloseOnce()
      modifies this`released, this`closes
      ensures State() == Release(old(State()))
    {
      if !released { released, closes := true, closes + 1; }
    }

    method Close()
      modifies this`closed, this`released, this`closes
      ensures State() == Closed(old(State()))
    {
      closed := true;
      SendCloseOnce();
    }
  }
}
