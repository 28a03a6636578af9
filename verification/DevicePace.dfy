/**
  The interval a server grants against the pace of the polls (plugins/opencode/device_login.go): a
  fraction of a second is dropped when the interval is stored, so exactly the whole ones are honoured.
 */
module DevicePace {
  import opened Prelude
  import Text
  import opened DeviceLogin

  /** The action at position i opens login s on this reply. */
  predicate GrantedAt(acts: seq<Action>, i: nat, reply: CodeReply, s: string) {
    && i < |acts| && acts[i].StartLogin? && acts[i].reply == reply
    && var r := Start(Run(acts[..i]).manager, acts[i].evictAt, reply, acts[i].at, acts[i].mint).1;
       r.Started? && r.state == s
  }

  /** The record of login s as that reply and time make it. */
  predicate GrantOf(h: History, reply: CodeReply, at: int) {
    && reply.Code? && h.start == at
    && h.interval == Clamp(reply.interval, MIN_INTERVAL, MAX_INTERVAL)
    && h.ttl == Clamp(reply.expiresIn, 1, MAX_TTL)
  }

  lemma GrantStarts(w: World, a: Action)
    requires a.StartLogin?
    ensures var r := Start(w.manager, a.evictAt, a.reply, a.at, a.mint).1;
            r.Started? ==>
              && UsableCode(a.reply) && a.mint == Some(r.state) && r.state in Next(w, a).histories
              && Next(w, a).histories[r.state].posts == [] && GrantOf(Next(w, a).histories[r.state], a.reply, a.at)
  {
    hide Text.Trim, Live;
    assert UsableCode(a.reply) ==> a.reply.Code?;
    hide UsableCode;
  }

  lemma GrantStays(w: World, a: Action, s: string, reply: CodeReply, at: int)
    requires s in w.histories && GrantOf(w.histories[s], reply, at) && Fresh(w, a)
    ensures s in Next(w, a).histories && GrantOf(Next(w, a).histories[s], reply, at)
  {
    hide Text.Trim, Poll, Clamp;
    if a.StartLogin? {
      GrantStarts(w, a);
      hide Start;
    }
  }

  /** The terms of a login are those of the reply that opened it, for the rest of the run. */
  lemma {:induction false} GrantKept(acts: seq<Action>, i: nat, reply: CodeReply, s: string)
    requires AllFresh(acts) && GrantedAt(acts, i, reply, s)
    ensures s in Run(acts).histories && GrantOf(Run(acts).histories[s], reply, acts[i].at) && UsableCode(reply)
  {
    hide GrantOf, Next, Start, Fresh, UsableCode;
    var init, a := acts[..|acts| - 1], acts[|acts| - 1];
    if i == |acts| - 1 {
      GrantStarts(Run(init), a);
    } else {
      assert init[..i] == acts[..i];
      GrantKept(init, i, reply, s);
      GrantStays(Run(init), a, s, reply, acts[i].at);
    }
  }

  /** Every request waited out the granted seconds, and five more for every slow_down before it. */
  ghost predicate Honours(h: History, granted: real) {
    forall n :: 0 <= n < |h.posts| ==>
      LastAt(h, h.posts[..n]) as real
          + (granted + 5.0 * (SlowDowns(h.posts[..n]) as real)) * 1000.0 <= h.posts[n].at as real
  }

  lemma WholeIsHonoured(h: History, reply: CodeReply, at: int)
    requires Paced(h) && GrantOf(h, reply, at) && UsableCode(reply) && reply.interval.Floor as real == reply.interval
    ensures Honours(h, reply.interval)
  {
    hide Text.Trim, SlowDowns, LastAt;
    assert h.interval as real == reply.interval;
    forall n | 0 <= n < |h.posts|
      ensures LastAt(h, h.posts[..n]) as real + (reply.interval + 5.0 * (SlowDowns(h.posts[..n]) as real)) * 1000.0
              <= h.posts[n].at as real
    {
      var k := SlowDowns(h.posts[..n]);
      assert (5 * k) as real == 5.0 * (k as real);
      assert ((h.interval + 5 * k) * 1000) as real == (reply.interval + 5.0 * (k as real)) * 1000.0;
    }
  }

  lemma RequestNeedsTime(h: History)
    requires Paced(h) && h.posts != []
    ensures h.interval < h.ttl
  {
    assert h.posts[..0] == [] && SlowDowns([]) == 0;
    assert h.start + h.interval * 1000 <= h.posts[0].at < h.start + h.ttl * 1000;
  }

  /** A login that expires within its interval never makes a request. */
  lemma ShortMakesNone(h: History)
    requires Paced(h) && h.ttl <= h.interval
    ensures h.posts == []
  {
    if h.posts != [] {
      RequestNeedsTime(h);
    }
  }

  const LOGIN: string := "s"

  function EarlyRun(reply: CodeReply): seq<Action>
    requires reply.Code?
  {
    [StartLogin(0, reply, 0, Some(LOGIN)), PollLogin(LOGIN, reply.interval.Floor * 1000, NoAnswer, true)]
  }

  const BEFORE: World := World(OPENED, map[])

  lemma TwoActions(a: Action, b: Action)
    ensures Run([a]) == Next(BEFORE, a) && Run([a, b]) == Next(Next(BEFORE, a), b)
    ensures AllFresh([a, b]) <==> Fresh(BEFORE, a) && Fresh(Next(BEFORE, a), b)
    ensures Run([a, b][..0]) == BEFORE
  {
    hide Next, Fresh;
    assert [a, b][..1] == [a] && [a][..0] == [] && [a, b][..0] == [];
    assert Run([]) == BEFORE && AllFresh([]);
    assert AllFresh([a]) <==> Fresh(BEFORE, a);
  }

  /** The run above makes its request when the whole seconds of the interval are over. */
  lemma EarlyPost(reply: CodeReply)
    requires UsableCode(reply) && reply.interval.Floor < Clamp(reply.expiresIn, 1, MAX_TTL)
    ensures var acts := EarlyRun(reply);
            && AllFresh(acts) && GrantedAt(acts, 0, reply, LOGIN) && LOGIN in Run(acts).histories
            && var h := Run(acts).histories[LOGIN];
               h.start == 0 && h.posts == [Post(reply.interval.Floor * 1000, NoAnswer, true)]
  {
    var acts := EarlyRun(reply);
    var first, second := acts[0], acts[1];
    TwoActions(first, second);
    assert Text.Trim(LOGIN) == LOGIN;
    assert Clamp(reply.interval, MIN_INTERVAL, MAX_INTERVAL) == reply.interval.Floor;
    hide Text.Trim, Run, AllFresh, Clamp, UsableCode;
    var none: map<string, Login> := map[];
    assert Live(none, 0) == map[];
    hide Live;
    FirstLogin(reply);
    var l := Next(BEFORE, first).manager.states[LOGIN];
    assert l.nextPollAt == reply.interval.Floor * 1000 < l.expiresAt;
  }

  lemma FirstLogin(reply: CodeReply)
    requires UsableCode(reply)
    ensures var r := Start(OPENED, 0, reply, 0, Some(LOGIN));
            var i, ttl := Clamp(reply.interval, MIN_INTERVAL, MAX_INTERVAL), Clamp(reply.expiresIn, 1, MAX_TTL);
            r == (Manager(map[LOGIN := Login(Text.Trim(reply.deviceCode), i, i * 1000, ttl * 1000)], false),
                  Started(LOGIN, i, ttl))
  {
    hide Text.Trim, UsableCode, Clamp;
    var none: map<string, Login> := map[];
    assert Live(none, 0) == none;
  }

  /** With a fraction, that is before the granted seconds are. */
  lemma FractionPollsEarly(reply: CodeReply)
    requires UsableCode(reply) && reply.interval.Floor as real != reply.interval
    requires reply.interval.Floor < Clamp(reply.expiresIn, 1, MAX_TTL)
    ensures var acts := EarlyRun(reply);
            && AllFresh(acts) && GrantedAt(acts, 0, reply, LOGIN)
            && LOGIN in Run(acts).histories && !Honours(Run(acts).histories[LOGIN], reply.interval)
  {
    assert reply.Code?;
    hide Run, AllFresh, GrantedAt, Clamp, UsableCode, EarlyRun;
    EarlyPost(reply);
    var h := Run(EarlyRun(reply)).histories[LOGIN];
    assert h.posts[..0] == [] && SlowDowns(h.posts[..0]) == 0 && LastAt(h, h.posts[..0]) == 0;
    assert (reply.interval.Floor * 1000) as real < reply.interval * 1000.0;
    assert h.posts[0].at == reply.interval.Floor * 1000;
  }

  /**
    Exactly when the granted interval is honoured in every run: when it is a whole number of
    seconds, or the login expires before the first request.
   */
  lemma GrantHonouredIff(reply: CodeReply)
    requires UsableCode(reply)
    ensures (forall acts: seq<Action>, i: nat, s: string :: AllFresh(acts) && GrantedAt(acts, i, reply, s) ==>
               s in Run(acts).histories && Honours(Run(acts).histories[s], reply.interval))
            <==> reply.interval.Floor as real == reply.interval
                 || Clamp(reply.expiresIn, 1, MAX_TTL) <= reply.interval.Floor
  {
    assert reply.Code?;
    hide Run, AllFresh, GrantedAt, Honours, Paced, UsableCode;
    if reply.interval.Floor as real == reply.interval || Clamp(reply.expiresIn, 1, MAX_TTL) <= reply.interval.Floor {
      forall acts: seq<Action>, i: nat, s: string | AllFresh(acts) && GrantedAt(acts, i, reply, s)
        ensures s in Run(acts).histories && Honours(Run(acts).histories[s], reply.interval)
      {
        GrantKept(acts, i, reply, s);
        RunsKeepLogins(acts);
        HonouredInRun(Run(acts).histories[s], reply, acts[i].at);
      }
    } else {
      FractionPollsEarly(reply);
    }
  }

  lemma HonouredInRun(h: History, reply: CodeReply, at: int)
    requires UsableCode(reply) && GrantOf(h, reply, at) && Paced(h)
    requires reply.interval.Floor as real == reply.interval
             || Clamp(reply.expiresIn, 1, MAX_TTL) <= reply.interval.Floor
    ensures Honours(h, reply.interval)
  {
    hide Text.Trim, Paced;
    if reply.interval.Floor as real == reply.interval {
      WholeIsHonoured(h, reply, at);
    } else {
      assert h.interval == reply.interval.Floor;
      ShortMakesNone(h);
    }
  }

  /** A granted interval of five and a half seconds, and a token request after five. */
  lemma HalfSecondEarly()
    ensures var reply := Code("code", "user", true, 900.0, 5.5);
            && AllFresh(EarlyRun(reply)) && LOGIN in Run(EarlyRun(reply)).histories
            && Run(EarlyRun(reply)).histories[LOGIN].posts == [Post(5000, NoAnswer, true)]
            && !Honours(Run(EarlyRun(reply)).histories[LOGIN], 5.5)
  {
    var reply := Code("code", "user", true, 900.0, 5.5);
    assert Text.Trim("code") == "code" && Text.Trim("user") == "user" && Text.Trim(LOGIN) == LOGIN;
    assert UsableCode(reply) && reply.interval.Floor == 5;
    hide Run, AllFresh, Honours, UsableCode, Text.Trim, EarlyRun, GrantedAt;
    FractionPollsEarly(reply);
    EarlyPost(reply);
  }
}
