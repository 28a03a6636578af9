/** The mutable registry of plugins/opencode/registry.go, proved against module Registry. */
module SessionRegistries {
  import opened Prelude
  import opened Text
  import opened Registry
  import opened RegistryOrder

  const DEFAULT_IDLE_TTL_MS: int := 7 * 24 * 60 * 60 * 1000
  const DEFAULT_MAX_IDLE: int := 1024

  /** What the state path holds: nothing, bytes that are no registry state, or a state with its version. */
  datatype StateText = Missing | Unreadable | Saved(version: int, entries: seq<Entry>)

  predicate Readable(text: StateText) {
    text.Missing? || (text.Saved? && text.version == 1)
  }

  function FileIn(text: StateText): Option<seq<Entry>> {
    if text.Saved? then Some(text.entries) else None
  }

  class SessionRegistry {
    const cfg: Config
    const clk: Clock
    var entries: map<string, Entry>
    var order: seq<string>
    var closed: bool
    var failed: bool
    var tick: nat
    ghost var disk: Option<seq<Entry>>

    ghost function Mem(): Memory
      reads this
    {
      Memory(entries, order, closed, failed)
    }

    ghost function State(): Store
      reads this
    {
      Store(Mem(), disk, tick)
    }

    ghost predicate Valid()
      reads this
    {
      Listing(Mem()) && cfg.ttlMs > 0 && cfg.maxIdle > 0
    }

    /** NewSessionRegistry on a state path; `file` is what the locked state file holds. */
    constructor Create(options: Config, clk: Clock, tick: nat, file: Option<seq<Entry>>)
      ensures Valid() && this.clk == clk && this.tick == tick && disk == file
      ensures cfg.ttlMs == (if options.ttlMs <= 0 then DEFAULT_IDLE_TTL_MS else options.ttlMs)
      ensures cfg.maxIdle == (if options.maxIdle <= 0 then DEFAULT_MAX_IDLE else options.maxIdle)
      ensures Mem() == EMPTY
    {
      cfg := Config(if options.ttlMs <= 0 then DEFAULT_IDLE_TTL_MS else options.ttlMs,
                    if options.maxIdle <= 0 then DEFAULT_MAX_IDLE else options.maxIdle);
      this.clk, this.tick, this.disk := clk, tick, file;
      entries, order, closed, failed := map[], [], false, false;
    }

    method NowMs() returns (now: int)
      modifies this`tick
      ensures now == clk(old(tick)) && tick == old(tick) + 1
    {
      now := clk(tick);
      tick := tick + 1;
    }

    /**
      load on an empty registry; false is the error that makes NewSessionRegistry fail.  A text that
      is not a state of version 1 is rejected before the clock is read, and left as it is.
     */
    method Load(text: StateText, w: Write) returns (ok: bool)
      requires Valid() && Mem() == EMPTY
      requires Readable(text) ==> disk == FileIn(text)
      modifies this
      ensures !Readable(text) ==> !ok && State() == old(State())
      ensures Readable(text) ==>
                var (disk', mem') := Open(FileIn(text), old(tick), cfg, clk, w);
                && disk == disk' && ok == mem'.Some? && (ok ==> Valid() && Mem() == mem'.value)
                && tick == old(tick) + (if text.Missing? then 0
                                        else if LoadAll(text.entries, clk(old(tick)), cfg.ttlMs).None? then 1 else 2)
    {
      hide Evicted, KeyOf, NoDup, Snapshot, Acceptable, LoadAll;
      if text.Missing? { return true; }
      if text.Unreadable? || text.version != 1 { return false; }
      ghost var file := FileIn(text);
      var now := NowMs();
      var ids: set<string>, recovered := {}, false;
      LoadNothing(text.entries, now, cfg.ttlMs);
      for i := 0 to |text.entries|
        invariant Valid() && !closed && !failed && disk == file && tick == old(tick) + 1
        invariant LoadAll(text.entries[..i], now, cfg.ttlMs) == Some(Loading(entries, order, ids, recovered))
      {
        var entry := text.entries[i];
        var key := KeyOf(entry.principal, entry.conversation);
        LoadStep(text.entries, i, now, cfg.ttlMs);
        if !Acceptable(entry) || key in entries || entry.sessionId in ids {
          LoadStaysRejected(text.entries, i + 1, now, cfg.ttlMs);
          return false;
        }
        ids := ids + {entry.sessionId};
        if entry.state == Active {
          recovered := true;
        }
        entry := Recovered(entry, now);
        if !(entry.state == Terminated && now - entry.lastUsedMs > cfg.ttlMs) {
          AppendNoDup(order, key);
          entries := entries[key := entry];
          order := order + [key];
        }
      }
      assert text.entries[..|text.entries|] == text.entries;
      var evicted := EvictLocked();
      if evicted > 0 || recovered {
        ok := PersistLocked(w);
      } else {
        ok := true;
      }
    }

    /** persistLocked on a ready registry: the file is replaced, or the failure is terminal. */
    method PersistLocked(w: Write) returns (ok: bool)
      requires Ready(Mem())
      modifies this`disk, this`failed
      ensures State() == Persist(old(State()), w) && ok == (w == Written)
    {
      if w != NotWritten {
        disk := Some(Snapshot(entries, order));
      }
      failed := w != Written;
      ok := w == Written;
    }

    /** touchLocked: find, cut, append. */
    method TouchLocked(key: string)
      modifies this`order
      ensures order == Touch(old(order), key)
    {
      var i := 0;
      while i < |order| && order[i] != key
        invariant 0 <= i <= |order|
        invariant order == old(order)
        invariant Remove(order, key) == order[..i] + Remove(order[i..], key)
      {
        i := i + 1;
      }
      if i < |order| {
        assert Remove(order[i..], key) == order[i + 1..];
        order := order[..i] + order[i + 1..];
      }
      order := order + [key];
    }

    /** evictLocked: the TTL pass filters the order in place, the LRU pass cuts from it. */
    method EvictLocked() returns (evicted: nat)
      requires Valid()
      modifies this`entries, this`order, this`tick
      ensures Valid() && tick == old(tick) + 1
      ensures Mem() == Evicted(old(Mem()), clk(old(tick)), cfg)
      ensures evicted == |old(order)| - |order|
    {
      hide NoDup, Unexpired, DropIdle, IdleCount, Restrict;
      var now := NowMs();
      var live := DropExpired(entries, order, now, cfg.ttlMs);
      UnexpiredNoDup(entries, order, now, cfg.ttlMs);
      var kept := DropOldest(entries, live, cfg.maxIdle);
      DropIdleNoDup(entries, live, Excess(IdleCount(entries, live), cfg.maxIdle));
      ListedByRestriction(entries, kept);
      evicted := |order| - |kept|;
      entries := Restrict(entries, kept);
      order := kept;
    }

    /** resolve: Create without and Acquire with a lease.  `mint` is what NewSessionID yields. */
    method ResolveLocked(principal: string, conversation: string, lease: bool, mint: Option<string>, w: Write)
      returns (reply: Reply)
      requires Valid()
      modifies this
      ensures Valid()
      ensures (State(), reply) == Resolve(old(State()), cfg, clk, principal, conversation, lease, mint, w)
    {
      hide Evicted, KeyOf, NoDup, Snapshot, Use, Adopt;
      var p, c := Trim(principal), Trim(conversation);
      KeyOfTrimmed(principal, conversation);
      if p == "" || c == "" || NUL in p || NUL in c || closed || failed {
        return Refused;
      }
      var evicted := EvictLocked();
      var key := KeyOf(p, c);
      if key in entries {
        var id := entries[key].sessionId;
        if entries[key].state == Terminated {
          return Refused;
        }
        UseEntry(key, lease);
        var ok := PersistLocked(w);
        return if ok then Session(id) else Refused;
      }
      var stamp := NowMs();
      if mint.None? {
        return Refused;
      }
      AdoptEntry(p, c, mint.value, lease);
      evicted := EvictLocked();
      var ok := PersistLocked(w);
      return if ok then Session(mint.value) else Refused;
    }

    /** The branch of resolve that finds a live entry. */
    method UseEntry(key: string, lease: bool)
      requires Valid() && key in entries
      modifies this`entries, this`order, this`tick
      ensures Valid() && tick == old(tick) + 1
      ensures Mem() == Use(old(Mem()), key, lease, clk(old(tick)))
    {
      hide NoDup, Touch;
      var now := NowMs();
      var entry := entries[key].(lastUsedMs := now);
      if lease {
        entry := entry.(leases := entry.leases + 1, state := Active);
      }
      entries := entries[key := entry];
      TouchNoDup(order, key);
      TouchLocked(key);
    }

    /** The branch of resolve that adds a minted entry; the identities are trimmed. */
    method AdoptEntry(principal: string, conversation: string, id: string, lease: bool)
      requires Valid() && Trimmed(principal) && Trimmed(conversation)
      modifies this`entries, this`order, this`tick
      ensures Valid() && tick == old(tick) + 1
      ensures Mem() == Adopt(old(Mem()), principal, conversation, id, lease, clk(old(tick)))
    {
      hide NoDup, Touch;
      var key := KeyOf(principal, conversation);
      var now := NowMs();
      var entry := Entry(id, principal, conversation, Idle, now, now, 0);
      if lease {
        entry := entry.(leases := 1, state := Active);
      }
      entries := entries[key := entry];
      TouchNoDup(order, key);
      TouchLocked(key);
    }

    method ReferenceLocked(principal: string, conversation: string, w: Write) returns (reply: Reply)
      requires Valid()
      modifies this
      ensures Valid()
      ensures (State(), reply) == Reference(old(State()), cfg, clk, principal, conversation, w)
    {
      hide Evicted, KeyOf, NoDup, Snapshot, GiveBack;
      if closed || failed {
        return Refused;
      }
      var key := KeyOf(principal, conversation);
      if key !in entries || entries[key].state == Terminated {
        return Refused;
      }
      if entries[key].state == Idle {
        var now := NowMs();
        if now - entries[key].lastUsedMs > cfg.ttlMs {
          return Refused;
        }
      }
      var now := NowMs();
      var entry := entries[key];
      entries := entries[key := entry.(leases := entry.leases + 1, state := Active, lastUsedMs := now)];
      var ok := PersistLocked(w);
      return if ok then Done else Refused;
    }

    method ReleaseLocked(principal: string, conversation: string, w: Write) returns (reply: Reply)
      requires Valid()
      modifies this
      ensures Valid()
      ensures (State(), reply) == Release(old(State()), cfg, clk, principal, conversation, w)
    {
      hide Evicted, KeyOf, NoDup, Snapshot, GiveBack;
      if closed || failed {
        return Refused;
      }
      var key := KeyOf(principal, conversation);
      if key !in entries || entries[key].state == Terminated || entries[key].leases <= 0 {
        return Refused;
      }
      DropLease(key);
      var evicted := EvictLocked();
      var ok := PersistLocked(w);
      return if ok then Done else Refused;
    }

    method DropLease(key: string)
      requires Valid() && key in entries
      modifies this`entries, this`order, this`tick
      ensures Valid() && tick == old(tick) + (if old(entries)[key].leases == 1 then 1 else 0)
      ensures Mem() == GiveBack(old(Mem()), key, clk(old(tick)))
    {
      hide NoDup, Touch;
      var entry := entries[key].(leases := entries[key].leases - 1);
      entries := entries[key := entry];
      if entry.leases == 0 {
        var now := NowMs();
        entries := entries[key := entry.(state := Idle, lastUsedMs := now)];
        TouchNoDup(order, key);
        TouchLocked(key);
      }
    }

    method TerminateLocked(principal: string, conversation: string, w: Write) returns (reply: Reply)
      requires Valid()
      modifies this
      ensures Valid()
      ensures (State(), reply) == Terminate(old(State()), clk, principal, conversation, w)
    {
      hide Evicted, KeyOf, NoDup, Snapshot, GiveBack;
      if closed || failed {
        return Refused;
      }
      var key := KeyOf(principal, conversation);
      if key !in entries || entries[key].leases > 0 {
        return Refused;
      }
      var now := NowMs();
      entries := entries[key := entries[key].(state := EntryState.Terminated, lastUsedMs := now)];
      var ok := PersistLocked(w);
      return if ok then Done else Refused;
    }

    method LookupLocked(principal: string, conversation: string) returns (id: string)
      requires Valid()
      modifies this`tick
      ensures Valid()
      ensures (State(), Session(id)) == Apply(old(State()), cfg, clk, LookupOp(principal, conversation), Written)
    {
      hide Evicted, KeyOf, NoDup, Snapshot, GiveBack;
      if closed || failed {
        return "";
      }
      var key := KeyOf(principal, conversation);
      if key !in entries || entries[key].state == Terminated {
        return "";
      }
      if entries[key].state == Idle {
        var now := NowMs();
        if now - entries[key].lastUsedMs > cfg.ttlMs {
          return "";
        }
      }
      return entries[key].sessionId;
    }

    method Close()
      modifies this`closed
      ensures State() == Apply(old(State()), cfg, clk, CloseOp, Written).0
    {
      closed := true;
    }
  }

  /** The first pass: `kept` shares the backing array of the order, so writes land behind reads. */
  method DropExpired(entries: map<string, Entry>, order: seq<string>, now: int, ttlMs: int) returns (kept: seq<string>)
    requires forall k :: k in order ==> k in entries
    ensures kept == Unexpired(entries, order, now, ttlMs) && |kept| <= |order|
  {
    hide Expired, Unexpired;
    var backing, w := order, 0;
    for i := 0 to |order|
      invariant |backing| == |order| && 0 <= w <= i
      invariant backing[i..] == order[i..]
      invariant Unexpired(entries, order, now, ttlMs) == backing[..w] + Unexpired(entries, order[i..], now, ttlMs)
    {
      ghost var before := backing[..w];
      assert backing[i..][0] == order[i..][0];
      var key := backing[i];
      assert backing[i + 1..] == order[i + 1..];
      ExpiryStep(entries, order, before, i, now, ttlMs);
      if !Expired(entries[key], now, ttlMs) {
        backing := backing[w := key];
        assert backing[..w + 1] == before + [key];
        w := w + 1;
      }
    }
    assert order[|order|..] == [];
    UnexpiredNothing(entries, now, ttlMs);
    kept := backing[..w];
  }

  /** The second pass: count the idle keys, then cut the oldest of them while they exceed the bound. */
  method DropOldest(entries: map<string, Entry>, order: seq<string>, maxIdle: int) returns (kept: seq<string>)
    requires maxIdle > 0 && forall k :: k in order ==> k in entries
    ensures kept == DropIdle(entries, order, Excess(IdleCount(entries, order), maxIdle)) && |kept| <= |order|
  {
    hide DropIdle, IdleCount;
    kept := order;
    var idleCount := CountIdle(entries, order);
    ghost var n := Excess(idleCount, maxIdle);
    var keyIdx := 0;
    while idleCount > maxIdle && keyIdx < |kept|
      invariant 0 <= keyIdx <= |kept| <= |order|
      invariant forall k :: k in kept ==> k in entries
      invariant idleCount >= 0
      invariant DropIdle(entries, order, n) == kept[..keyIdx]
                + DropIdle(entries, kept[keyIdx..], Excess(idleCount, maxIdle))
      decreases |kept| - keyIdx
    {
      LruStep(entries, kept, keyIdx, Excess(idleCount, maxIdle));
      if entries[kept[keyIdx]].state != Idle {
        keyIdx := keyIdx + 1;
      } else {
        kept := kept[..keyIdx] + kept[keyIdx + 1..];
        idleCount := idleCount - 1;
      }
    }
    NothingLeft(entries, kept, keyIdx, Excess(idleCount, maxIdle));
  }

  method CountIdle(entries: map<string, Entry>, order: seq<string>) returns (n: nat)
    requires forall k :: k in order ==> k in entries
    ensures n == IdleCount(entries, order)
  {
    n := 0;
    for i := 0 to |order|
      invariant n + IdleCount(entries, order[i..]) == IdleCount(entries, order)
    {
      assert order[i..][0] == order[i] && order[i..][1..] == order[i + 1..];
      if entries[order[i]].state == Idle {
        n := n + 1;
      }
    }
  }

  lemma LoadNothing(file: seq<Entry>, now: int, ttlMs: int)
    ensures LoadAll(file[..0], now, ttlMs) == Some(Loading(map[], [], {}, false))
  {
  }

  lemma LoadStep(file: seq<Entry>, i: nat, now: int, ttlMs: int)
    requires i < |file|
    ensures LoadAll(file[..i + 1], now, ttlMs) ==
            match LoadAll(file[..i], now, ttlMs)
            case None => None
            case Some(l) => LoadOne(l, file[i], now, ttlMs)
  {
    var prefix := file[..i + 1];
    assert prefix[..|prefix| - 1] == file[..i];
  }

  lemma {:induction false} LoadStaysRejected(file: seq<Entry>, i: nat, now: int, ttlMs: int)
    requires i <= |file| && LoadAll(file[..i], now, ttlMs).None?
    ensures LoadAll(file, now, ttlMs).None?
    decreases |file| - i
  {
    if i == |file| {
      assert file[..i] == file;
    } else {
      assert file[..i + 1][..i] == file[..i];
      LoadStaysRejected(file, i + 1, now, ttlMs);
    }
  }

  lemma ListedByRestriction(all: map<string, Entry>, order: seq<string>)
    requires forall k :: k in order ==> k in all
    ensures forall k :: k in order <==> k in Restrict(all, order)
  {
  }

  lemma UnexpiredNothing(all: map<string, Entry>, now: int, ttlMs: int)
    ensures Unexpired(all, [], now, ttlMs) == []
  {
  }

  /** One turn of the TTL pass, on the order. */
  lemma ExpiryStep(all: map<string, Entry>, order: seq<string>, kept: seq<string>, i: nat, now: int, ttlMs: int)
    requires i < |order| && order[i] in all
    requires Unexpired(all, order, now, ttlMs) == kept + Unexpired(all, order[i..], now, ttlMs)
    ensures if Expired(all[order[i]], now, ttlMs) then
              Unexpired(all, order, now, ttlMs) == kept + Unexpired(all, order[i + 1..], now, ttlMs)
            else
              Unexpired(all, order, now, ttlMs) == (kept + [order[i]]) + Unexpired(all, order[i + 1..], now, ttlMs)
  {
    hide Expired;
    assert order[i..][0] == order[i] && order[i..][1..] == order[i + 1..];
  }

  /** One turn of the LRU pass at position i, with n idle entries still to drop. */
  lemma LruStep(all: map<string, Entry>, order: seq<string>, i: nat, n: nat)
    requires i < |order| && order[i] in all && n > 0
    ensures var cut := order[..i] + order[i + 1..];
            && (forall k :: k in cut ==> k in order)
            && if all[order[i]].state != Idle then
                 order[..i] + DropIdle(all, order[i..], n) == order[..i + 1] + DropIdle(all, order[i + 1..], n)
               else
                 order[..i] + DropIdle(all, order[i..], n) == cut[..i] + DropIdle(all, cut[i..], n - 1)
  {
    assert order[i..][0] == order[i] && order[i..][1..] == order[i + 1..];
    if all[order[i]].state != Idle {
      assert order[..i + 1] == order[..i] + [order[i]];
    } else {
      var cut := order[..i] + order[i + 1..];
      assert cut[..i] == order[..i] && cut[i..] == order[i + 1..];
    }
  }

  lemma NothingLeft(all: map<string, Entry>, order: seq<string>, i: nat, n: nat)
    requires i <= |order| && (n == 0 || i == |order|)
    ensures order[..i] + DropIdle(all, order[i..], n) == order
  {
    assert order[..i] + order[i..] == order;
  }

  lemma KeyOfTrimmed(principal: string, conversation: string)
    ensures KeyOf(Trim(principal), Trim(conversation)) == KeyOf(principal, conversation)
    ensures forall m, id, lease, now :: Adopt(m, Trim(principal), Trim(conversation), id, lease, now)
                                        == Adopt(m, principal, conversation, id, lease, now)
  {
  }
}
