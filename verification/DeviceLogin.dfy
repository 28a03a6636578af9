/**
  Device login polling of plugins/opencode/device_login.go, as functions on values and over every
  run: pacing after section 3.5 of RFC 8628, expiry, and one success per state.

  Times are milliseconds of the manager's clock, which may run backwards.
 */
module DeviceLogin {
  import opened Prelude
  import Text

  const MAX_STATES: nat := 16
  const MAX_TTL: int := 900
  const MIN_INTERVAL: int := 1
  const MAX_INTERVAL: int := 60
  const SLOW_DOWN_STEP: int := 5
  const MAX_DEVICE_CODE: nat := 2048
  const MAX_USER_CODE: nat := 256
  const MAX_TOKEN: nat := 65536
  const MAX_TOKEN_SECONDS: real := 31622400.0

  datatype Login = Login(deviceCode: string, interval: int, nextPollAt: int, expiresAt: int)

  datatype Manager = Manager(states: map<string, Login>, closed: bool)

  const OPENED: Manager := Manager(map[], false)

  /** The answer to the device code request; `urlOk` is whether the verification URL passes its check. */
  datatype CodeReply =
    | NoCode
    | Code(deviceCode: string, userCode: string, urlOk: bool, expiresIn: real, interval: real)

  datatype Started = Refused | Started(state: string, interval: int, ttl: int)

  /** The answer to a token request: unusable, or its status class and fields. */
  datatype TokenReply =
    | NoAnswer
    | Token(ok: bool, access: string, refresh: string, expiresIn: real, error: string)

  datatype Outcome = Unknown | Expired | TooEarly | Pending | SlowedDown | Denied | Foreign | Broken | Success

  /** What a poll did: whether it made its one token request, and what it answered. */
  datatype Polled = Polled(posted: bool, outcome: Outcome)

  /** clampDeviceSeconds: whole seconds, within the bounds. */
  function Clamp(value: real, min: int, max: int): (r: int)
    requires min <= max
    ensures min <= r <= max
    ensures min as real <= value <= max as real ==> r as real <= value < r as real + 1.0
    ensures value < min as real ==> r == min
    ensures value > max as real ==> r == max
  {
    if value < min as real then min
    else if value > max as real then max
    else
      var floor := value.Floor;
      assert floor as real <= value < floor as real + 1.0;
      floor
  }

  function Live(states: map<string, Login>, now: int): map<string, Login> {
    map s | s in states && now < states[s].expiresAt :: states[s]
  }

  predicate UsableCode(reply: CodeReply) {
    && reply.Code?
    && 1.0 <= reply.expiresIn && 1.0 <= reply.interval <= MAX_INTERVAL as real
    && 0 < |Text.Trim(reply.deviceCode)| <= MAX_DEVICE_CODE
    && 0 < |Text.Trim(reply.userCode)| <= MAX_USER_CODE
    && reply.urlOk
  }

  /** Start: `mint` is the opaque state, absent when the random source failed. */
  function Start(m: Manager, evictAt: int, reply: CodeReply, now: int, mint: Option<string>): (Manager, Started) {
    if m.closed then (m, Refused)
    else
      var m' := m.(states := Live(m.states, evictAt));
      if |m'.states| >= MAX_STATES || !UsableCode(reply) || mint.None? then (m', Refused)
      else
        var ttl := Clamp(reply.expiresIn, 1, MAX_TTL);
        var interval := Clamp(reply.interval, MIN_INTERVAL, MAX_INTERVAL);
        var login := Login(Text.Trim(reply.deviceCode), interval, now + interval * 1000, now + ttl * 1000);
        (m'.(states := m'.states[mint.value := login]), Started(mint.value, interval, ttl))
  }

  /** What follows from the answer to a token request; `account` is whether the account could be loaded. */
  function Judge(reply: TokenReply, account: bool): Outcome {
    if reply.NoAnswer? then Broken
    else if Text.Trim(reply.access) != "" then
      if !reply.ok then Foreign
      else if Text.Trim(reply.refresh) == "" || reply.expiresIn <= 0.0 || reply.expiresIn > MAX_TOKEN_SECONDS
              || |Text.Trim(reply.access)| > MAX_TOKEN || |Text.Trim(reply.refresh)| > MAX_TOKEN then Broken
      else if account then Success else Foreign
    else if Text.Trim(reply.error) == "" then Broken
    else if reply.error == "authorization_pending" then Pending
    else if reply.error == "slow_down" then SlowedDown
    else if reply.error == "access_denied" then Denied
    else if reply.error == "expired_token" || reply.error == "expired" then Expired
    else Foreign
  }

  function Poll(m: Manager, state: string, now: int, reply: TokenReply, account: bool): (Manager, Polled) {
    var key := Text.Trim(state);
    if key !in m.states then (m, Polled(false, Unknown))
    else
      var login := m.states[key];
      if login.expiresAt <= now then (m.(states := m.states - {key}), Polled(false, Expired))
      else if now < login.nextPollAt then (m, Polled(false, TooEarly))
      else
        var outcome := Judge(reply, account);
        if outcome.Pending? then
          (m.(states := m.states[key := login.(nextPollAt := now + login.interval * 1000)]), Polled(true, Pending))
        else if outcome.SlowedDown? then
          var interval := login.interval + SLOW_DOWN_STEP;
          (m.(states := m.states[key := login.(interval := interval, nextPollAt := now + interval * 1000)]),
           Polled(true, SlowedDown))
        else (m.(states := m.states - {key}), Polled(true, outcome))
  }

  // ---- runs ----

  /** One token request: when, what the server answered, and whether the account could be loaded. */
  datatype Post = Post(at: int, reply: TokenReply, account: bool)

  /** The record of one login: when it started, what was granted, its token requests and successes. */
  datatype History = History(start: int, interval: int, ttl: int, posts: seq<Post>, successes: nat)

  datatype World = World(manager: Manager, histories: map<string, History>)

  datatype Action =
    | StartLogin(evictAt: int, reply: CodeReply, at: int, mint: Option<string>)
    | PollLogin(state: string, at: int, token: TokenReply, account: bool)
    | Close

  /** Random states are new ones; nothing else is asked of a run. */
  predicate Fresh(w: World, a: Action) {
    a.StartLogin? && a.mint.Some? ==> a.mint.value !in w.histories
  }

  function Next(w: World, a: Action): World {
    match a
    case StartLogin(evictAt, reply, now, mint) =>
      var (m, r) := Start(w.manager, evictAt, reply, now, mint);
      World(m, if r.Started? then w.histories[r.state := History(now, r.interval, r.ttl, [], 0)] else w.histories)
    case PollLogin(state, now, reply, account) =>
      var key := Text.Trim(state);
      var (m, r) := Poll(w.manager, state, now, reply, account);
      if !r.posted || key !in w.histories then w.(manager := m)
      else
        var h := w.histories[key];
        World(m, w.histories[key := h.(posts := h.posts + [Post(now, reply, account)],
                                       successes := if r.outcome.Success? then h.successes + 1 else h.successes)])
    case Close => w.(manager := Manager(map[], true))
  }

  function Run(acts: seq<Action>): World {
    if acts == [] then World(OPENED, map[])
    else Next(Run(acts[..|acts| - 1]), acts[|acts| - 1])
  }

  predicate AllFresh(acts: seq<Action>) {
    acts != [] ==> AllFresh(acts[..|acts| - 1]) && Fresh(Run(acts[..|acts| - 1]), acts[|acts| - 1])
  }

  // ---- what the server can answer ----

  /** No access token, but this error (RFC 8628, section 3.5). */
  predicate Says(reply: TokenReply, error: string) {
    reply.Token? && Text.Trim(reply.access) == "" && reply.error == error
  }

  predicate SaysWait(reply: TokenReply) {
    Says(reply, "authorization_pending")
  }

  predicate SaysSlowDown(reply: TokenReply) {
    Says(reply, "slow_down")
  }

  /** Both tokens, of bounded length and lifetime, with an ok status, and an account that loads. */
  predicate Grants(reply: TokenReply, account: bool) {
    && reply.Token? && reply.ok && account
    && 0 < |Text.Trim(reply.access)| <= 65536 && 0 < |Text.Trim(reply.refresh)| <= 65536
    && 0.0 < reply.expiresIn <= 31622400.0
  }

  /** A token with another status or for an account that does not load, or an error of another name. */
  predicate Strange(reply: TokenReply, account: bool) {
    && reply.Token?
    && if Text.Trim(reply.access) != "" then !reply.ok || (Grants(reply, true) && !account)
       else Text.Trim(reply.error) != "" && reply.error !in {"authorization_pending", "slow_down", "access_denied",
                                                             "expired_token", "expired"}
  }

  lemma Verdicts(reply: TokenReply, account: bool)
    ensures var outcome := Judge(reply, account);
            && (outcome.Pending? <==> SaysWait(reply))
            && (outcome.SlowedDown? <==> SaysSlowDown(reply))
            && (outcome.Success? <==> Grants(reply, account))
            && (outcome.Denied? <==> Says(reply, "access_denied"))
            && (outcome.Expired? <==> Says(reply, "expired_token") || Says(reply, "expired"))
            && (outcome.Foreign? <==> Strange(reply, account))
            && !outcome.TooEarly? && !outcome.Unknown?
  {
    hide Text.Trim;
    assert Text.Trim("authorization_pending") != "" && Text.Trim("slow_down") != "" by { NotBlank(); }
    assert Text.Trim("access_denied") != "" && Text.Trim("expired_token") != "" && Text.Trim("expired") != "" by {
      NotBlank();
    }
  }

  lemma NotBlank()
    ensures forall s :: s in {"authorization_pending", "slow_down", "access_denied", "expired_token", "expired"} ==>
              Text.Trim(s) != ""
  {
  }

  /** One poll, exactly, by what the server answers. */
  lemma PollAnswers(m: Manager, state: string, now: int, reply: TokenReply, account: bool)
    ensures var key := Text.Trim(state);
            var (m', r) := Poll(m, state, now, reply, account);
            && m'.closed == m.closed
            && if key !in m.states then m' == m && r == Polled(false, Unknown)
               else
                 var l := m.states[key];
                 if l.expiresAt <= now then m'.states == m.states - {key} && r == Polled(false, Expired)
                 else if now < l.nextPollAt then m' == m && r == Polled(false, TooEarly)
                 else
                   && r.posted
                   && (r.outcome.Success? <==> Grants(reply, account))
                   && (if SaysSlowDown(reply) then
                         && r.outcome.SlowedDown?
                         && m'.states == m.states[key := Login(l.deviceCode, l.interval + 5,
                                                               now + (l.interval + 5) * 1000, l.expiresAt)]
                       else if SaysWait(reply) then
                         && r.outcome.Pending?
                         && m'.states == m.states[key := Login(l.deviceCode, l.interval,
                                                               now + l.interval * 1000, l.expiresAt)]
                       else
                         && (r.outcome.Denied? <==> Says(reply, "access_denied"))
                         && (r.outcome.Expired? <==> Says(reply, "expired_token") || Says(reply, "expired"))
                         && (r.outcome.Foreign? <==> Strange(reply, account))
                         && !r.outcome.SlowedDown? && !r.outcome.Pending? && !r.outcome.TooEarly?
                         && !r.outcome.Unknown? && m'.states == m.states - {key})
  {
    hide Text.Trim, Judge, Grants, Says, Strange;
    Verdicts(reply, account);
    OneAnswer(reply);
  }

  lemma OneAnswer(reply: TokenReply)
    ensures !(SaysWait(reply) && SaysSlowDown(reply))
  {
    hide Text.Trim;
  }

  /** How many of these requests were answered slow_down. */
  function SlowDowns(posts: seq<Post>): nat {
    if posts == [] then 0
    else SlowDowns(posts[..|posts| - 1]) + (if SaysSlowDown(posts[|posts| - 1].reply) then 1 else 0)
  }

  /** The interval in force after these requests. */
  function IntervalAfter(h: History, posts: seq<Post>): int {
    h.interval + 5 * SlowDowns(posts)
  }

  /** The time the next wait counts from. */
  function LastAt(h: History, posts: seq<Post>): int {
    if posts == [] then h.start else posts[|posts| - 1].at
  }

  /** Every request waited out the interval in force since the one before, and came before expiry. */
  ghost predicate Paced(h: History) {
    && 1 <= h.interval <= MAX_INTERVAL && 1 <= h.ttl <= MAX_TTL
    && forall n :: 0 <= n < |h.posts| ==>
         && LastAt(h, h.posts[..n]) + IntervalAfter(h, h.posts[..n]) * 1000 <= h.posts[n].at
         && h.posts[n].at < h.start + h.ttl * 1000
  }

  /** The server answered to wait or to slow down. */
  predicate KeepsOpen(reply: TokenReply) {
    SaysWait(reply) || SaysSlowDown(reply)
  }

  /** Only the last request can have been answered otherwise, and it alone can have won. */
  ghost predicate Answered(h: History) {
    && (forall n :: 0 <= n < |h.posts| - 1 ==> KeepsOpen(h.posts[n].reply))
    && h.successes == (if h.posts != [] && Grants(h.posts[|h.posts| - 1].reply, h.posts[|h.posts| - 1].account)
                       then 1 else 0)
  }

  /** A pending login agrees with its record. */
  ghost predicate Agrees(l: Login, h: History) {
    && l.interval == IntervalAfter(h, h.posts)
    && l.nextPollAt == LastAt(h, h.posts) + l.interval * 1000
    && l.expiresAt == h.start + h.ttl * 1000
    && (h.posts != [] ==> KeepsOpen(h.posts[|h.posts| - 1].reply))
  }

  ghost predicate LoginInv(w: World) {
    && |w.manager.states| <= MAX_STATES
    && (w.manager.closed ==> w.manager.states == map[])
    && (forall s :: s in w.manager.states ==> s in w.histories && Agrees(w.manager.states[s], w.histories[s]))
    && (forall s :: s in w.histories ==> Paced(w.histories[s]) && Answered(w.histories[s]))
  }

  lemma SlowDownsAppend(posts: seq<Post>, p: Post)
    ensures SlowDowns(posts + [p]) == SlowDowns(posts) + (if SaysSlowDown(p.reply) then 1 else 0)
  {
    assert (posts + [p])[..|posts|] == posts;
  }

  lemma PostPaces(h: History, l: Login, p: Post)
    requires Paced(h) && Agrees(l, h) && l.nextPollAt <= p.at < l.expiresAt
    ensures Paced(h.(posts := h.posts + [p]))
    ensures IntervalAfter(h, h.posts + [p]) == IntervalAfter(h, h.posts) + (if SaysSlowDown(p.reply) then 5 else 0)
  {
    var h' := h.(posts := h.posts + [p]);
    SlowDownsAppend(h.posts, p);
    forall n | 0 <= n < |h'.posts|
      ensures LastAt(h', h'.posts[..n]) + IntervalAfter(h', h'.posts[..n]) * 1000 <= h'.posts[n].at
      ensures h'.posts[n].at < h'.start + h'.ttl * 1000
    {
      if n < |h.posts| {
        assert h'.posts[..n] == h.posts[..n];
      } else {
        assert h'.posts[..n] == h.posts;
      }
    }
  }

  lemma LiveIsSmaller(states: map<string, Login>, now: int)
    ensures |Live(states, now)| <= |states|
  {
    assert Live(states, now).Keys <= states.Keys;
    KeysFit(Live(states, now).Keys, states.Keys);
    assert |Live(states, now)| == |Live(states, now).Keys| && |states| == |states.Keys|;
  }

  lemma {:induction false} KeysFit(a: set<string>, b: set<string>)
    requires a <= b
    ensures |a| <= |b|
    decreases |a|
  {
    if a != {} {
      var x :| x in a;
      KeysFit(a - {x}, b - {x});
    }
  }

  lemma StartedPaces(now: int, interval: int, ttl: int, code: string)
    requires 1 <= interval <= MAX_INTERVAL && 1 <= ttl <= MAX_TTL
    ensures var h := History(now, interval, ttl, [], 0);
            Paced(h) && Answered(h) && Agrees(Login(code, interval, now + interval * 1000, now + ttl * 1000), h)
  {
  }

  lemma StartIs(m: Manager, evictAt: int, reply: CodeReply, now: int, mint: Option<string>)
    ensures var (m', r) := Start(m, evictAt, reply, now, mint);
            && m'.closed == m.closed && (m.closed ==> r.Refused? && m' == m)
            && (r.Refused? ==> m' == m || m'.states == Live(m.states, evictAt))
            && (r.Started? ==>
                  && mint == Some(r.state) && |Live(m.states, evictAt)| < MAX_STATES
                  && 1 <= r.interval <= MAX_INTERVAL && 1 <= r.ttl <= MAX_TTL
                  && reply.Code?
                  && m'.states == Live(m.states, evictAt)[r.state := Login(Text.Trim(reply.deviceCode), r.interval,
                                                                          now + r.interval * 1000, now + r.ttl * 1000)])
  {
    hide Text.Trim, Live;
  }

  /** One start, exactly: when a login is opened, and on which terms. */
  lemma StartAnswers(m: Manager, evictAt: int, reply: CodeReply, now: int, mint: Option<string>)
    ensures var (m', r) := Start(m, evictAt, reply, now, mint);
            var live := map s | s in m.states && evictAt < m.states[s].expiresAt :: m.states[s];
            && m'.closed == m.closed
            && (r.Started?
                <==> && !m.closed && |live| < 16 && mint.Some?
                     && reply.Code? && reply.urlOk && 1.0 <= reply.expiresIn && 1.0 <= reply.interval <= 60.0
                     && 0 < |Text.Trim(reply.deviceCode)| <= 2048 && 0 < |Text.Trim(reply.userCode)| <= 256)
            && (!r.Started? ==> m'.states == if m.closed then m.states else live)
            && (r.Started? ==>
                  && r.state == mint.value
                  && r.interval as real <= reply.interval < r.interval as real + 1.0
                  && (if reply.expiresIn > 900.0 then r.ttl == 900
                      else r.ttl as real <= reply.expiresIn < r.ttl as real + 1.0)
                  && m'.states == live[r.state := Login(Text.Trim(reply.deviceCode), r.interval,
                                                        now + r.interval * 1000, now + r.ttl * 1000)])
  {
    hide Text.Trim;
    assert Live(m.states, evictAt) == map s | s in m.states && evictAt < m.states[s].expiresAt :: m.states[s];
    hide Live;
  }

  lemma OneMoreState(states: map<string, Login>, s: string, l: Login)
    ensures |states[s := l]| <= |states| + 1
  {
    assert states[s := l].Keys == states.Keys + {s};
    assert |states[s := l]| == |states[s := l].Keys| && |states| == |states.Keys|;
  }

  lemma StartKeeps(w: World, a: Action)
    requires LoginInv(w) && Fresh(w, a) && a.StartLogin?
    ensures LoginInv(Next(w, a))
  {
    hide Start, Text.Trim, Paced, Answered, Agrees;
    StartIs(w.manager, a.evictAt, a.reply, a.at, a.mint);
    LiveIsSmaller(w.manager.states, a.evictAt);
    var r := Start(w.manager, a.evictAt, a.reply, a.at, a.mint).1;
    if r.Started? {
      StartedPaces(a.at, r.interval, r.ttl, Text.Trim(a.reply.deviceCode));
      OneMoreState(Live(w.manager.states, a.evictAt), r.state,
                   Login(Text.Trim(a.reply.deviceCode), r.interval, a.at + r.interval * 1000, a.at + r.ttl * 1000));
    }
  }

  /** Poll with its token request abstracted: the next state of one login. */
  lemma PollIs(m: Manager, state: string, now: int, reply: TokenReply, account: bool)
    ensures var key := Text.Trim(state);
            var (m', r) := Poll(m, state, now, reply, account);
            && m'.closed == m.closed
            && (r.posted ==> key in m.states && m.states[key].nextPollAt <= now < m.states[key].expiresAt)
            && (if r.posted && (SaysWait(reply) || SaysSlowDown(reply)) then
                  var interval := m.states[key].interval + (if SaysSlowDown(reply) then 5 else 0);
                  m'.states == m.states[key := m.states[key].(
                                              interval := interval, nextPollAt := now + interval * 1000)]
                else if r.posted then m'.states == m.states - {key}
                else m'.states == m.states || m'.states == m.states - {key})
            && (r.outcome.Success? <==> r.posted && Grants(reply, account))
  {
    hide Text.Trim, Poll, Grants, Says;
    PollAnswers(m, state, now, reply, account);
  }

  lemma FewerStates(states: map<string, Login>, key: string)
    ensures |states - {key}| <= |states|
  {
    KeysFit((states - {key}).Keys, states.Keys);
    assert |states - {key}| == |(states - {key}).Keys| && |states| == |states.Keys|;
  }

  lemma SameStates(states: map<string, Login>, key: string, l: Login)
    requires key in states
    ensures |states[key := l]| == |states|
  {
    assert states[key := l].Keys == states.Keys;
    assert |states[key := l]| == |states[key := l].Keys| && |states| == |states.Keys|;
  }

  lemma PostAnswers(h: History, p: Post)
    requires Answered(h) && (h.posts != [] ==> KeepsOpen(h.posts[|h.posts| - 1].reply))
    ensures h.successes == 0
    ensures Answered(h.(posts := h.posts + [p], successes := if Grants(p.reply, p.account) then 1 else 0))
  {
    hide Text.Trim;
  }

  /** The record of a login after one more request, and how the login agrees with it. */
  lemma PostAgrees(h: History, l: Login, p: Post)
    requires Paced(h) && Answered(h) && Agrees(l, h) && l.nextPollAt <= p.at < l.expiresAt
    ensures var interval := l.interval + (if SaysSlowDown(p.reply) then 5 else 0);
            var h' := h.(posts := h.posts + [p],
                         successes := if Grants(p.reply, p.account) then h.successes + 1 else h.successes);
            && Paced(h') && Answered(h')
            && (KeepsOpen(p.reply) ==> Agrees(l.(interval := interval, nextPollAt := p.at + interval * 1000), h'))
  {
    hide Paced, Answered, Grants, Agrees, KeepsOpen, SaysSlowDown;
    var successes := if Grants(p.reply, p.account) then h.successes + 1 else h.successes;
    AgreesOpen(l, h);
    PostAnswers(h, p);
    PostPaces(h, l, p);
    PacedAnyway(h.(posts := h.posts + [p]), successes);
    AgreesAfter(h, l, p, successes);
  }

  lemma AgreesOpen(l: Login, h: History)
    requires Agrees(l, h)
    ensures h.posts != [] ==> KeepsOpen(h.posts[|h.posts| - 1].reply)
  {
  }

  lemma PacedAnyway(h: History, successes: nat)
    requires Paced(h)
    ensures Paced(h.(successes := successes))
  {
  }

  lemma AgreesAfter(h: History, l: Login, p: Post, successes: nat)
    requires Agrees(l, h)
    ensures var interval := l.interval + (if SaysSlowDown(p.reply) then 5 else 0);
            KeepsOpen(p.reply) ==>
              Agrees(l.(interval := interval, nextPollAt := p.at + interval * 1000),
                     h.(posts := h.posts + [p], successes := successes))
  {
    hide SaysSlowDown, SaysWait;
    SlowDownsAppend(h.posts, p);
  }

  /** One login changed or was consumed, and its record with it. */
  lemma OneLoginChanges(w: World, w': World, key: string, h: History)
    requires LoginInv(w) && key in w.manager.states && w'.manager.closed == w.manager.closed
    requires w'.histories == w.histories[key := h] && Paced(h) && Answered(h)
    requires || w'.manager.states == w.manager.states - {key}
             || (key in w'.manager.states && w'.manager.states == w.manager.states[key := w'.manager.states[key]]
                 && Agrees(w'.manager.states[key], h))
    ensures LoginInv(w')
  {
    hide Paced, Agrees, Answered;
    FewerStates(w.manager.states, key);
    if key in w'.manager.states {
      SameStates(w.manager.states, key, w'.manager.states[key]);
    }
  }

  lemma PollKeeps(w: World, a: Action)
    requires LoginInv(w) && a.PollLogin?
    ensures LoginInv(Next(w, a))
  {
    hide Text.Trim, Poll, Paced, Agrees, Answered, Grants, SaysWait, SaysSlowDown;
    var key := Text.Trim(a.state);
    PollIs(w.manager, a.state, a.at, a.token, a.account);
    var (m, r) := Poll(w.manager, a.state, a.at, a.token, a.account);
    if r.posted {
      PostAgrees(w.histories[key], w.manager.states[key], Post(a.at, a.token, a.account));
      hide LoginInv;
      OneLoginChanges(w, Next(w, a), key, Next(w, a).histories[key]);
    } else {
      FewerStates(w.manager.states, key);
    }
  }

  lemma {:induction false} RunsKeepLogins(acts: seq<Action>)
    requires AllFresh(acts)
    ensures LoginInv(Run(acts))
  {
    hide LoginInv, Next;
    if acts == [] {
      NoLogins();
    } else {
      var w, a := Run(acts[..|acts| - 1]), acts[|acts| - 1];
      RunsKeepLogins(acts[..|acts| - 1]);
      if a.StartLogin? { StartKeeps(w, a); } else if a.PollLogin? { PollKeeps(w, a); } else { CloseKeeps(w); }
    }
  }

  lemma NoLogins()
    ensures LoginInv(World(OPENED, map[]))
  {
  }

  lemma CloseKeeps(w: World)
    requires LoginInv(w)
    ensures LoginInv(Next(w, Close))
  {
  }

  // ---- what the pacing amounts to ----

  lemma {:induction false} PaceAdds(h: History, n: nat)
    requires Paced(h) && n <= |h.posts|
    ensures h.start + n * h.interval * 1000 <= LastAt(h, h.posts[..n])
  {
    if n == 0 {
      assert h.posts[..0] == [];
    } else {
      PaceAdds(h, n - 1);
      assert h.posts[..n][n - 1] == h.posts[n - 1];
      assert n * h.interval * 1000 == (n - 1) * h.interval * 1000 + h.interval * 1000 by { Distribute(n, h.interval); }
      assert h.interval <= IntervalAfter(h, h.posts[..n - 1]);
    }
  }

  lemma Distribute(n: int, i: int)
    ensures n * i * 1000 == (n - 1) * i * 1000 + i * 1000
  {
    assert n * i == (n - 1) * i + i;
  }

  ghost predicate InPace(h: History) {
    && |h.posts| * h.interval < h.ttl <= 900
    && (forall n :: 0 < n <= |h.posts| ==>
          h.start + n * h.interval * 1000 <= h.posts[n - 1].at < h.start + h.ttl * 1000)
    && (forall n :: 0 < n < |h.posts| ==>
          h.posts[n - 1].at + (h.interval + 5 * SlowDowns(h.posts[..n])) * 1000 <= h.posts[n].at)
  }

  lemma PacedIsInPace(h: History)
    requires Paced(h)
    ensures InPace(h)
  {
    forall n | 0 < n <= |h.posts|
      ensures h.start + n * h.interval * 1000 <= h.posts[n - 1].at < h.start + h.ttl * 1000
    {
      PaceAdds(h, n);
      assert h.posts[..n][n - 1] == h.posts[n - 1];
    }
    forall n | 0 < n < |h.posts|
      ensures h.posts[n - 1].at + (h.interval + 5 * SlowDowns(h.posts[..n])) * 1000 <= h.posts[n].at
    {
      assert h.posts[..n][n - 1] == h.posts[n - 1];
    }
    var n := |h.posts|;
    if n > 0 {
      assert n * h.interval * 1000 < h.ttl * 1000;
    }
  }

  /**
    For every run, with any clock: at most 16 states exist; the n-th token request of a login comes
    at least n intervals after its start and before it expires, so n intervals are less than its
    lifetime; between two requests lies the granted interval plus five seconds for every slow_down
    the server has answered so far; every answer but the last was to wait or to slow down; and a
    login succeeds when the last one grants, hence at most once.
   */
  lemma PollingPace(acts: seq<Action>, s: string)
    requires AllFresh(acts)
    ensures |Run(acts).manager.states| <= 16
    ensures s in Run(acts).histories ==>
              var h := Run(acts).histories[s];
              && InPace(h)
              && (forall n :: 0 <= n < |h.posts| - 1 ==> SaysWait(h.posts[n].reply) || SaysSlowDown(h.posts[n].reply))
              && h.successes == (if h.posts == [] then 0
                                 else if Grants(h.posts[|h.posts| - 1].reply, h.posts[|h.posts| - 1].account) then 1
                                 else 0)
    ensures s in Run(acts).manager.states ==>
              && s in Run(acts).histories
              && var h := Run(acts).histories[s];
                 && (forall n :: 0 <= n < |h.posts| ==> SaysWait(h.posts[n].reply) || SaysSlowDown(h.posts[n].reply))
                 && Run(acts).manager.states[s].interval == h.interval + 5 * SlowDowns(h.posts)
  {
    hide Run, AllFresh, Paced, InPace, SaysWait, SaysSlowDown, Grants;
    RunsKeepLogins(acts);
    if s in Run(acts).histories {
      PacedIsInPace(Run(acts).histories[s]);
    }
  }

  lemma GoneStays(w: World, a: Action, s: string)
    requires s in w.histories && s !in w.manager.states && Fresh(w, a)
    ensures var w' := Next(w, a);
            s !in w'.manager.states && s in w'.histories && w'.histories[s] == w.histories[s]
  {
    hide Text.Trim;
    if a.StartLogin? {
      StartIs(w.manager, a.evictAt, a.reply, a.at, a.mint);
      hide Start;
    } else if a.PollLogin? {
      PollIs(w.manager, a.state, a.at, a.token, a.account);
      hide Poll;
    }
  }

  /** A login that was consumed, denied, evicted or expired never makes another request, in the rest of any run. */
  lemma {:induction false} GoneForGood(acts: seq<Action>, more: seq<Action>, s: string)
    requires AllFresh(acts + more) && s in Run(acts).histories && s !in Run(acts).manager.states
    ensures var w := Run(acts + more);
            s !in w.manager.states && s in w.histories && w.histories[s] == Run(acts).histories[s]
  {
    hide Next, Fresh;
    if more == [] {
      assert acts + more == acts;
    } else {
      var init := more[..|more| - 1];
      assert (acts + more)[..|acts + more| - 1] == acts + init;
      GoneForGood(acts, init, s);
      GoneStays(Run(acts + init), more[|more| - 1], s);
    }
  }

  /** After a Close nothing is pending, nothing is opened and nobody is asked, whatever follows. */
  lemma {:induction false} ClosedForGood(acts: seq<Action>, more: seq<Action>)
    ensures Run(acts + [Close] + more) == World(Manager(map[], true), Run(acts).histories)
  {
    hide Text.Trim;
    var closed := acts + [Close];
    if more == [] {
      assert closed + more == closed && closed[..|closed| - 1] == acts;
    } else {
      var init := more[..|more| - 1];
      assert (closed + more)[..|closed + more| - 1] == closed + init;
      ClosedForGood(acts, init);
    }
  }

  /**
    A poll before its time, and a request answered authorization_pending or slow_down, leave a login
    open; after any other answer, and from expiry on, it is over, and no poll makes another request
    for it, in the rest of any run.
   */
  lemma DecidedIsFinal(acts: seq<Action>, a: Action, more: seq<Action>, s: string)
    requires AllFresh(acts + [a] + more) && a.PollLogin? && s == Text.Trim(a.state)
    requires s in Run(acts).manager.states && s in Run(acts).histories
    ensures var l := Run(acts).manager.states[s];
            if a.at < l.expiresAt && (a.at < l.nextPollAt || SaysWait(a.token) || SaysSlowDown(a.token)) then
              s in Run(acts + [a]).manager.states
            else
              var (w, w') := (Run(acts + [a]), Run(acts + [a] + more));
              && s in w.histories && s in w'.histories && w'.histories[s] == w.histories[s]
              && s !in w'.manager.states
  {
    hide Text.Trim, AllFresh, Fresh, Poll, SaysWait, SaysSlowDown, Grants;
    assert (acts + [a])[..|acts|] == acts;
    PollAnswers(Run(acts).manager, a.state, a.at, a.token, a.account);
    if s !in Run(acts + [a]).manager.states {
      GoneForGood(acts + [a], more, s);
    }
  }
}
