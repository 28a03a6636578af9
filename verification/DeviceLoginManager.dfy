/** DeviceLoginManager of plugins/opencode/device_login.go as the source writes it: its logins are updated in place. */
module DeviceLogins {
  import opened Prelude
  import Text
  import DL = DeviceLogin

  class DeviceLoginManager {
    var states: map<string, DL.Login>
    var closed: bool

    ghost function State(): DL.Manager
      reads this
    {
      DL.Manager(states, closed)
    }

    constructor ()
      ensures State() == DL.OPENED
    {
      states, closed := map[], false;
    }

    method Close()
      modifies this
      ensures State() == DL.Manager(map[], true)
    {
      states, closed := map[], true;
    }

    /** The loop over the dictionary that deletes while it runs, in any order. */
    method EvictExpired(now: int)
      modifies this`states
      ensures states == DL.Live(old(states), now)
      ensures forall s :: s in states <==> s in old(states) && now < old(states)[s].expiresAt
      ensures forall s :: s in states ==> states[s] == old(states)[s]
    {
      var left := states.Keys;
      while left != {}
        modifies this`states
        invariant left <= old(states).Keys
        invariant forall s :: s in states <==> s in old(states) && (s in left || now < old(states)[s].expiresAt)
        invariant forall s :: s in states ==> states[s] == old(states)[s]
      {
        var s :| s in left;
        left := left - {s};
        if states[s].expiresAt <= now { states := states - {s}; }
      }
    }

    method Delete(state: string)
      modifies this`states
      ensures states == old(states) - {Text.Trim(state)}
    {
      states := states - {Text.Trim(state)};
    }

    method Start(evictAt: int, reply: DL.CodeReply, now: int, mint: Option<string>) returns (r: DL.Started)
      modifies this`states
      ensures (State(), r) == DL.Start(old(State()), evictAt, reply, now, mint)
    {
      hide DL.Live, Text.Trim;
      r := DL.Refused;
      if closed { return; }
      EvictExpired(evictAt);
      if |states| >= DL.MAX_STATES { return; }
      if reply.NoCode? { return; }
      if reply.expiresIn < 1.0 || reply.interval < 1.0 || reply.interval > DL.MAX_INTERVAL as real { return; }
      var deviceCode, userCode := Text.Trim(reply.deviceCode), Text.Trim(reply.userCode);
      if deviceCode == "" || |deviceCode| > DL.MAX_DEVICE_CODE || userCode == ""
          || |userCode| > DL.MAX_USER_CODE { return; }
      if !reply.urlOk { return; }
      var ttl := DL.Clamp(reply.expiresIn, 1, DL.MAX_TTL);
      var interval := DL.Clamp(reply.interval, DL.MIN_INTERVAL, DL.MAX_INTERVAL);
      if mint.None? { return; }
      states := states[mint.value := DL.Login(deviceCode, interval, now + interval * 1000, now + ttl * 1000)];
      r := DL.Started(mint.value, interval, ttl);
    }

    method Poll(state: string, now: int, reply: DL.TokenReply, account: bool) returns (r: DL.Polled)
      modifies this`states
      ensures (State(), r) == DL.Poll(old(State()), state, now, reply, account)
    {
      hide Text.Trim;
      var key := Text.Trim(state);
      if key !in states { return DL.Polled(false, DL.Unknown); }
      var entry := states[key];
      if entry.expiresAt <= now {
        Delete(state);
        return DL.Polled(false, DL.Expired);
      }
      if now < entry.nextPollAt { return DL.Polled(false, DL.TooEarly); }
      if reply.NoAnswer? {
        Delete(state);
        return DL.Polled(true, DL.Broken);
      }
      if Text.Trim(reply.access) != "" {
        Delete(state);
        if !reply.ok { return DL.Polled(true, DL.Foreign); }
        if Text.Trim(reply.refresh) == "" || reply.expiresIn <= 0.0 || reply.expiresIn > DL.MAX_TOKEN_SECONDS
           || |Text.Trim(reply.access)| > DL.MAX_TOKEN || |Text.Trim(reply.refresh)| > DL.MAX_TOKEN {
          return DL.Polled(true, DL.Broken);
        }
        return DL.Polled(true, if account then DL.Success else DL.Foreign);
      }
      if Text.Trim(reply.error) == "" {
        Delete(state);
        return DL.Polled(true, DL.Broken);
      }
      if reply.error == "authorization_pending" {
        states := states[key := entry.(nextPollAt := now + entry.interval * 1000)];
        return DL.Polled(true, DL.Pending);
      }
      if reply.error == "slow_down" {
        entry := entry.(interval := entry.interval + DL.SLOW_DOWN_STEP);
        states := states[key := entry.(nextPollAt := now + entry.interval * 1000)];
        return DL.Polled(true, DL.SlowedDown);
      }
      Delete(state);
      if reply.error == "access_denied" { return DL.Polled(true, DL.Denied); }
      if reply.error == "expired_token" || reply.error == "expired" { return DL.Polled(true, DL.Expired); }
      return DL.Polled(true, DL.Foreign);
    }
  }
}
