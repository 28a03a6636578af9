/** What every registry operation keeps, and how it treats identities and leases. */
module RegistryInvariant {
  import opened Prelude
  import opened Text
  import opened SessionId
  import opened Registry
  import opened RegistryOrder

  /** Readings are positive and never go back; module RegistryClock says what happens otherwise. */
  ghost predicate GoodClock(clk: Clock) {
    forall i: nat, j: nat :: i <= j ==> 0 < clk(i) <= clk(j)
  }

  ghost predicate GoodConfig(cfg: Config) {
    cfg.ttlMs > 0 && cfg.maxIdle > 0
  }

  ghost predicate Sane(e: Entry, now: int) {
    && ValidSessionId(e.sessionId) && Trimmed(e.sessionId)
    && Trimmed(e.principal) && Trimmed(e.conversation) && Identity(e.principal, e.conversation)
    && 0 < e.createdMs <= e.lastUsedMs <= now
    && e.leases >= 0
    && (e.state == Active <==> e.leases > 0)
  }

  ghost predicate DistinctIds(entries: map<string, Entry>) {
    forall a, b :: a in entries && b in entries && entries[a].sessionId == entries[b].sessionId ==> a == b
  }

  ghost predicate WellKept(m: Memory, now: int) {
    && Listing(m)
    && (forall k :: k in m.entries ==> Sane(m.entries[k], now) && k == EntryKey(m.entries[k]))
    && DistinctIds(m.entries)
  }

  /** The standing invariant between operations. */
  ghost predicate Inv(m: Memory, cfg: Config, now: int) {
    WellKept(m, now) && IdleCount(m.entries, m.order) <= cfg.maxIdle
  }

  /** A minted identifier is well formed and new to this registry. */
  ghost predicate Fresh(m: Memory, mint: Option<string>) {
    mint.Some? ==>
      && ValidSessionId(mint.value) && Trimmed(mint.value)
      && forall k :: k in m.entries ==> m.entries[k].sessionId != mint.value
  }

  ghost predicate Admissible(m: Memory, op: Op) {
    op.ResolveOp? ==> Fresh(m, op.mint)
  }

  lemma InvLater(m: Memory, cfg: Config, now: int, later: int)
    requires Inv(m, cfg, now) && now <= later
    ensures Inv(m, cfg, later)
  {
  }

  // ---- keys ----

  lemma KeyParts(p: string, c: string, x: string, y: string)
    requires NUL !in x && NUL !in y
    requires p + [NUL] + c == x + [NUL] + y
    ensures p == x && c == y
  {
    var s := p + [NUL] + c;
    assert s[|p|] == NUL;
    assert forall i :: 0 <= i < |x| ==> s[i] == x[i] && s[i] != NUL;
    assert forall i :: |x| < i < |s| ==> s[i] == y[i - |x| - 1] && s[i] != NUL;
    assert p == s[..|p|] && x == s[..|x|];
    assert c == s[|p| + 1..] && y == s[|x| + 1..];
  }

  /** Whatever the arguments contain, a key reaches an entry iff they trim to its identity. */
  lemma KeyReachesOwnEntry(m: Memory, now: int, principal: string, conversation: string, k: string)
    requires WellKept(m, now) && k in m.entries
    ensures KeyOf(principal, conversation) == k
            <==> Trim(principal) == m.entries[k].principal && Trim(conversation) == m.entries[k].conversation
  {
    var e := m.entries[k];
    assert k == e.principal + [NUL] + e.conversation;
    if KeyOf(principal, conversation) == k {
      KeyParts(Trim(principal), Trim(conversation), e.principal, e.conversation);
    }
  }

  /** Pairs that differ after trimming never share an entry, nor an identifier. */
  lemma Partition(m: Memory, now: int, p: string, c: string, q: string, d: string)
    requires WellKept(m, now)
    requires Trim(p) != Trim(q) || Trim(c) != Trim(d)
    requires KeyOf(p, c) in m.entries && KeyOf(q, d) in m.entries
    ensures KeyOf(p, c) != KeyOf(q, d)
    ensures m.entries[KeyOf(p, c)].sessionId != m.entries[KeyOf(q, d)].sessionId
  {
    KeyReachesOwnEntry(m, now, p, c, KeyOf(p, c));
    KeyReachesOwnEntry(m, now, q, d, KeyOf(p, c));
  }

  // ---- the invariant ----

  lemma EvictedInv(m: Memory, cfg: Config, t: int, now: int)
    requires WellKept(m, now) && GoodConfig(cfg)
    ensures Inv(Evicted(m, t, cfg), cfg, now)
  {
    hide ValidSessionId, Identity, Trimmed, KeyOf, NoDup, EvictedOrder;
    EvictedListing(m, t, cfg);
    EvictedBound(m, t, cfg);
  }

  lemma PutKept(m: Memory, key: string, e: Entry, order: seq<string>, now: int)
    requires WellKept(m, now)
    requires Sane(e, now) && key == EntryKey(e)
    requires forall k :: k in m.entries && k != key ==> m.entries[k].sessionId != e.sessionId
    requires NoDup(order) && forall k :: k in order <==> k in m.order || k == key
    ensures WellKept(m.(entries := m.entries[key := e], order := order), now)
  {
    hide Sane, KeyOf, NoDup;
  }

  /** Overwriting a listed entry, with or without moving its key to the tail. */
  lemma PutIdle(m: Memory, key: string, e: Entry, touch: bool)
    requires Listing(m) && key in m.entries
    ensures var entries := m.entries[key := e];
            var order := if touch then Touch(m.order, key) else m.order;
            NoDup(order) && (forall k :: k in order <==> k in m.order || k == key)
            && IdleCount(entries, order) == IdleCount(m.entries, m.order)
                 - (if IsIdle(m.entries, key) then 1 else 0) + (if e.state == Idle then 1 else 0)
  {
    var entries := m.entries[key := e];
    var rest := Remove(m.order, key);
    TouchNoDup(m.order, key);
    RemoveNoDup(m.order, key);
    IdleCountRemove(m.entries, m.order, key);
    IdleCountAgrees(m.entries, entries, rest);
    IdleCountRemove(entries, m.order, key);
    IdleCountAppend(entries, rest, key);
  }

  lemma SaneChange(e: Entry, e': Entry, now: int, later: int)
    requires Sane(e, now) && now <= later
    requires e' == e.(state := e'.state, leases := e'.leases, lastUsedMs := e'.lastUsedMs)
    requires e.lastUsedMs <= e'.lastUsedMs <= later
    requires e'.leases >= 0 && (e'.state == Active <==> e'.leases > 0)
    ensures Sane(e', later) && EntryKey(e') == EntryKey(e)
  {
    hide ValidSessionId, Identity, Trimmed, Trim;
  }

  /** Changing only state, leases and time of use of a listed entry. */
  lemma ChangeKept(m: Memory, key: string, e: Entry, touch: bool, now: int, later: int)
    requires WellKept(m, now) && now <= later && key in m.entries
    requires e == m.entries[key].(state := e.state, leases := e.leases, lastUsedMs := e.lastUsedMs)
    requires m.entries[key].lastUsedMs <= e.lastUsedMs <= later
    requires e.leases >= 0 && (e.state == Active <==> e.leases > 0)
    ensures var m' := m.(entries := m.entries[key := e], order := if touch then Touch(m.order, key) else m.order);
            WellKept(m', later)
            && IdleCount(m'.entries, m'.order) == IdleCount(m.entries, m.order)
                 - (if IsIdle(m.entries, key) then 1 else 0) + (if e.state == Idle then 1 else 0)
  {
    hide NoDup, Touch, IdleCount, KeyOf, Sane;
    KeptLater(m, now, later);
    SaneChange(m.entries[key], e, now, later);
    PutIdle(m, key, e, touch);
    PutKept(m, key, e, if touch then Touch(m.order, key) else m.order, later);
  }

  lemma KeptLater(m: Memory, now: int, later: int)
    requires WellKept(m, now) && now <= later
    ensures WellKept(m, later)
  {
    hide ValidSessionId, Identity, Trimmed, NoDup, KeyOf;
  }

  lemma UseKept(m: Memory, cfg: Config, key: string, lease: bool, now: int, t: int, later: int)
    requires Inv(m, cfg, now) && key in m.entries && m.entries[key].state != Terminated
    requires now <= t <= later
    ensures Inv(Use(m, key, lease, t), cfg, later)
  {
    hide NoDup, Touch, IdleCount, KeyOf, ValidSessionId, Identity, Trimmed;
    ChangeKept(m, key, Leased(m.entries[key].(lastUsedMs := t), lease), true, now, later);
    KeptLater(m, now, later);
  }

  lemma AdoptKept(m: Memory, p: string, c: string, id: string, lease: bool, now: int, t: int, later: int)
    requires WellKept(m, now) && Identity(p, c) && Fresh(m, Some(id))
    requires 0 < t && now <= t <= later
    ensures WellKept(Adopt(m, p, c, id, lease, t), later)
  {
    hide NoDup, Touch, IdleCount, ValidSessionId;
    var key := KeyOf(p, c);
    var e := Leased(Entry(id, Trim(p), Trim(c), Idle, t, t, 0), lease);
    KeptLater(m, now, later);
    TouchNoDup(m.order, key);
    assert Sane(e, later) && EntryKey(e) == key;
    PutKept(m, key, e, Touch(m.order, key), later);
  }

  lemma GiveBackKept(m: Memory, key: string, now: int, t: int, later: int)
    requires WellKept(m, now) && key in m.entries && m.entries[key].leases > 0
    requires now <= t <= later
    ensures WellKept(GiveBack(m, key, t), later)
  {
    hide NoDup, Touch, IdleCount, KeyOf, ValidSessionId, Identity, Trimmed;
    var e := m.entries[key];
    if e.leases == 1 {
      ChangeKept(m, key, e.(leases := 0, state := Idle, lastUsedMs := t), true, now, later);
    } else {
      ChangeKept(m, key, e.(leases := e.leases - 1), false, now, later);
    }
  }

  lemma FailedKept(m: Memory, cfg: Config, now: int, closed: bool, failed: bool)
    requires Inv(m, cfg, now)
    ensures Inv(m.(closed := closed, failed := failed), cfg, now)
  {
  }

  lemma ClockOrder(clk: Clock, i: nat, j: nat)
    requires GoodClock(clk) && i <= j
    ensures 0 < clk(i) <= clk(j)
  {
  }

  lemma ResolveKeepsInv(s: Store, cfg: Config, clk: Clock, p: string, c: string, lease: bool,
                        mint: Option<string>, w: Write)
    requires GoodClock(clk) && GoodConfig(cfg) && Inv(s.mem, cfg, clk(s.tick)) && Fresh(s.mem, mint)
    ensures var s' := Resolve(s, cfg, clk, p, c, lease, mint, w).0; Inv(s'.mem, cfg, clk(s'.tick))
  {
    hide GoodClock, Inv, WellKept, Evicted, Use, Adopt, Identity, KeyOf, ValidSessionId, Trimmed, Snapshot;
    var s' := Resolve(s, cfg, clk, p, c, lease, mint, w).0;
    if Identity(p, c) && Ready(s.mem) {
      var (t0, t1, t2, t3) := (s.tick, s.tick + 1, s.tick + 2, s.tick + 3);
      var key := KeyOf(p, c);
      var swept := Evicted(s.mem, clk(t0), cfg);
      InvKept(s.mem, cfg, clk(t0));
      EvictedInv(s.mem, cfg, clk(t0), clk(t0));
      SweptFresh(s.mem, clk(t0), cfg, mint);
      ClockOrder(clk, t0, t1);
      ClockOrder(clk, t0, t2);
      ClockOrder(clk, t1, t2);
      InvLater(swept, cfg, clk(t0), clk(t1));
      InvLater(swept, cfg, clk(t0), clk(t2));
      if key in swept.entries {
        if swept.entries[key].state != Terminated {
          var used := Use(swept, key, lease, clk(t1));
          UseKept(swept, cfg, key, lease, clk(t0), clk(t1), clk(t2));
          FailedKept(used, cfg, clk(t2), used.closed, true);
        }
      } else if mint.Some? {
        ClockOrder(clk, t2, s.tick + 4);
        InvKept(swept, cfg, clk(t0));
        AdoptKept(swept, p, c, mint.value, lease, clk(t0), clk(t2), clk(s.tick + 4));
        var added := Adopt(swept, p, c, mint.value, lease, clk(t2));
        EvictedInv(added, cfg, clk(t3), clk(s.tick + 4));
        var final := Evicted(added, clk(t3), cfg);
        FailedKept(final, cfg, clk(s.tick + 4), final.closed, true);
      }
    }
  }

  lemma InvKept(m: Memory, cfg: Config, now: int)
    requires Inv(m, cfg, now)
    ensures WellKept(m, now)
  {
  }

  lemma SweptFresh(m: Memory, now: int, cfg: Config, mint: Option<string>)
    requires Fresh(m, mint)
    ensures Fresh(Evicted(m, now, cfg), mint)
  {
    hide ValidSessionId, Trimmed, EvictedOrder;
  }

  lemma ReleaseKeepsInv(s: Store, cfg: Config, clk: Clock, p: string, c: string, w: Write)
    requires GoodClock(clk) && GoodConfig(cfg) && Inv(s.mem, cfg, clk(s.tick))
    ensures var s' := Release(s, cfg, clk, p, c, w).0; Inv(s'.mem, cfg, clk(s'.tick))
  {
    hide GoodClock, Inv, WellKept, Evicted, GiveBack, KeyOf, Snapshot;
    var key := KeyOf(p, c);
    if Ready(s.mem) && key in s.mem.entries && s.mem.entries[key].leases > 0 {
      var tick := if s.mem.entries[key].leases == 1 then s.tick + 1 else s.tick;
      ClockOrder(clk, s.tick, tick + 1);
      InvKept(s.mem, cfg, clk(s.tick));
      GiveBackKept(s.mem, key, clk(s.tick), clk(s.tick), clk(tick + 1));
      var mem := GiveBack(s.mem, key, clk(s.tick));
      EvictedInv(mem, cfg, clk(tick), clk(tick + 1));
      var final := Evicted(mem, clk(tick), cfg);
      FailedKept(final, cfg, clk(tick + 1), final.closed, true);
    }
  }

  lemma OverwriteKeepsInv(m: Memory, cfg: Config, key: string, e: Entry, now: int, later: int)
    requires Inv(m, cfg, now) && now <= later && key in m.entries
    requires e == m.entries[key].(state := e.state, leases := e.leases, lastUsedMs := e.lastUsedMs)
    requires m.entries[key].lastUsedMs <= e.lastUsedMs <= later && e.state != Idle
    requires e.leases >= 0 && (e.state == Active <==> e.leases > 0)
    ensures Inv(m.(entries := m.entries[key := e]), cfg, later)
  {
    hide WellKept, NoDup, IdleCount;
    ChangeKept(m, key, e, false, now, later);
  }

  /** Reference and Terminate change one entry where it stands. */
  lemma MarkKeepsInv(s: Store, cfg: Config, clk: Clock, op: Op, w: Write)
    requires GoodClock(clk) && GoodConfig(cfg) && Inv(s.mem, cfg, clk(s.tick))
    requires op.ReferenceOp? || op.TerminateOp?
    ensures var s' := Apply(s, cfg, clk, op, w).0; Inv(s'.mem, cfg, clk(s'.tick))
  {
    hide GoodClock, IdleCount, NoDup, KeyOf, ValidSessionId, Identity, Trimmed, Snapshot;
    var key := KeyOf(op.principal, op.conversation);
    var s' := Apply(s, cfg, clk, op, w).0;
    ClockOrder(clk, s.tick, s'.tick);
    ClockOrder(clk, s.tick, s.tick + 1);
    InvLater(s.mem, cfg, clk(s.tick), clk(s'.tick));
    if s'.mem.entries != s.mem.entries {
      ClockOrder(clk, s'.tick - 1, s'.tick);
      ClockOrder(clk, s.tick, s'.tick - 1);
      OverwriteKeepsInv(s.mem, cfg, key, s'.mem.entries[key], clk(s.tick), clk(s'.tick));
      var mem := s.mem.(entries := s.mem.entries[key := s'.mem.entries[key]]);
      FailedKept(mem, cfg, clk(s'.tick), mem.closed, s'.mem.failed);
    }
  }

  /** Every operation keeps the standing invariant, whatever the write outcome. */
  lemma StepKeepsInv(s: Store, cfg: Config, clk: Clock, op: Op, w: Write)
    requires GoodClock(clk) && GoodConfig(cfg) && Inv(s.mem, cfg, clk(s.tick)) && Admissible(s.mem, op)
    ensures var s' := Apply(s, cfg, clk, op, w).0; Inv(s'.mem, cfg, clk(s'.tick)) && s.tick <= s'.tick
  {
    hide GoodClock, Inv, Evicted, Use, Adopt, GiveBack, KeyOf, Identity, ValidSessionId, Snapshot;
    var s' := Apply(s, cfg, clk, op, w).0;
    match op
    case ResolveOp(p, c, lease, mint) => ResolveKeepsInv(s, cfg, clk, p, c, lease, mint, w);
    case ReleaseOp(p, c) => ReleaseKeepsInv(s, cfg, clk, p, c, w);
    case ReferenceOp(_, _) => MarkKeepsInv(s, cfg, clk, op, w);
    case TerminateOp(_, _) => MarkKeepsInv(s, cfg, clk, op, w);
    case LookupOp(p, c) =>
      ClockOrder(clk, s.tick, s'.tick);
      InvLater(s.mem, cfg, clk(s.tick), clk(s'.tick));
    case CloseOp => FailedKept(s.mem, cfg, clk(s.tick), true, s.mem.failed);
  }

  // ---- LRU agreement ----

  /** An entry used now may go to the tail. */
  lemma TouchKeepsOrder(m: Memory, key: string, e: Entry, now: int)
    requires WellKept(m, now) && LruOrdered(m.entries, m.order) && now <= e.lastUsedMs
    ensures LruOrdered(m.entries[key := e], Touch(m.order, key))
  {
    hide ValidSessionId, Identity, Trimmed, KeyOf;
    var entries := m.entries[key := e];
    var rest := Remove(m.order, key);
    RemoveNoDup(m.order, key);
    OrderedRemove(m.entries, m.order, key);
    OrderedFrame(m.entries, entries, rest);
    OrderedAppend(entries, rest, key);
  }

  ghost predicate Ordered(m: Memory) {
    LruOrdered(m.entries, m.order)
  }

  lemma SweepKeepsOrder(m: Memory, now: int, cfg: Config, t: int)
    requires WellKept(m, t) && Ordered(m)
    ensures Ordered(Evicted(m, now, cfg))
  {
    EvictedOrdered(m, now, cfg);
  }

  lemma UseKeepsOrder(m: Memory, key: string, lease: bool, now: int, t: int)
    requires WellKept(m, now) && Ordered(m) && key in m.entries && now <= t
    ensures Ordered(Use(m, key, lease, t))
  {
    hide LruOrdered, Touch, WellKept;
    TouchKeepsOrder(m, key, Leased(m.entries[key].(lastUsedMs := t), lease), now);
  }

  lemma AdoptKeepsOrder(m: Memory, p: string, c: string, id: string, lease: bool, now: int, t: int)
    requires WellKept(m, now) && Ordered(m) && now <= t
    ensures Ordered(Adopt(m, p, c, id, lease, t))
  {
    hide LruOrdered, Touch, WellKept, KeyOf;
    TouchKeepsOrder(m, KeyOf(p, c), Leased(Entry(id, Trim(p), Trim(c), Idle, t, t, 0), lease), now);
  }

  lemma GiveBackKeepsOrder(m: Memory, key: string, now: int, t: int)
    requires WellKept(m, now) && Ordered(m) && key in m.entries && m.entries[key].leases > 0 && now <= t
    ensures Ordered(GiveBack(m, key, t))
  {
    hide LruOrdered, Touch, ValidSessionId, Identity, Trimmed, KeyOf, NoDup;
    var e := m.entries[key];
    if e.leases == 1 {
      TouchKeepsOrder(m, key, e.(leases := 0, state := Idle, lastUsedMs := t), now);
    } else {
      OrderedFrame(m.entries, m.entries[key := e.(leases := e.leases - 1)], m.order);
    }
  }

  /**
    LRU agreement: although Reference and Terminate change times without moving keys, and a
    partial Release moves nothing, idle keys stay in order of last use.
   */
  lemma StepKeepsOrder(s: Store, cfg: Config, clk: Clock, op: Op, w: Write)
    requires GoodClock(clk) && GoodConfig(cfg) && Inv(s.mem, cfg, clk(s.tick)) && Admissible(s.mem, op)
    requires Ordered(s.mem)
    ensures Ordered(Apply(s, cfg, clk, op, w).0.mem)
  {
    hide GoodClock, WellKept, Inv, Evicted, Use, Adopt, GiveBack, KeyOf, Identity, ValidSessionId, Trimmed, Snapshot,
         LruOrdered;
    InvKept(s.mem, cfg, clk(s.tick));
    match op
    case ResolveOp(p, c, lease, mint) =>
      if Identity(p, c) && Ready(s.mem) {
        var key := KeyOf(p, c);
        var swept := Evicted(s.mem, clk(s.tick), cfg);
        EvictedInv(s.mem, cfg, clk(s.tick), clk(s.tick));
        InvKept(swept, cfg, clk(s.tick));
        SweepKeepsOrder(s.mem, clk(s.tick), cfg, clk(s.tick));
        if key in swept.entries {
          ClockOrder(clk, s.tick, s.tick + 1);
          UseKeepsOrder(swept, key, lease, clk(s.tick), clk(s.tick + 1));
        } else if mint.Some? {
          var t := clk(s.tick + 2);
          ClockOrder(clk, s.tick, s.tick + 2);
          SweptFresh(s.mem, clk(s.tick), cfg, mint);
          AdoptKept(swept, p, c, mint.value, lease, clk(s.tick), t, t);
          AdoptKeepsOrder(swept, p, c, mint.value, lease, clk(s.tick), t);
          SweepKeepsOrder(Adopt(swept, p, c, mint.value, lease, t), clk(s.tick + 3), cfg, t);
        }
      }
    case ReleaseOp(p, c) =>
      var key := KeyOf(p, c);
      if Ready(s.mem) && key in s.mem.entries && s.mem.entries[key].leases > 0 {
        var tick := if s.mem.entries[key].leases == 1 then s.tick + 1 else s.tick;
        GiveBackKept(s.mem, key, clk(s.tick), clk(s.tick), clk(s.tick));
        GiveBackKeepsOrder(s.mem, key, clk(s.tick), clk(s.tick));
        SweepKeepsOrder(GiveBack(s.mem, key, clk(s.tick)), clk(tick), cfg, clk(s.tick));
      }
    case ReferenceOp(p, c) => OrderedFrame(s.mem.entries, Apply(s, cfg, clk, op, w).0.mem.entries, s.mem.order);
    case TerminateOp(p, c) => OrderedFrame(s.mem.entries, Apply(s, cfg, clk, op, w).0.mem.entries, s.mem.order);
    case LookupOp(p, c) =>
    case CloseOp =>
  }

  // ---- leases and identity ----

  function LeasesOf(m: Memory, key: string): int {
    if key in m.entries then m.entries[key].leases else 0
  }

  /** How an operation that answered `reply` moves the lease count of `key`. */
  function LeaseDelta(op: Op, reply: Reply, key: string): int {
    if reply == Refused || op.LookupOp? || op.CloseOp? || key != KeyOf(op.principal, op.conversation) then 0
    else
      match op
      case ResolveOp(_, _, lease, _) => if lease then 1 else 0
      case ReferenceOp(_, _) => 1
      case ReleaseOp(_, _) => -1
      case _ => 0
  }

  lemma EvictedLeases(m: Memory, now: int, cfg: Config, t: int, key: string)
    requires WellKept(m, t)
    ensures LeasesOf(Evicted(m, now, cfg), key) == LeasesOf(m, key)
    ensures key in m.entries && m.entries[key].leases > 0 ==> key in Evicted(m, now, cfg).entries
    ensures key in Evicted(m, now, cfg).entries
            ==> key in m.entries && Evicted(m, now, cfg).entries[key] == m.entries[key]
  {
    hide ValidSessionId, Identity, Trimmed, KeyOf;
    var live := Unexpired(m.entries, m.order, now, cfg.ttlMs);
    if key in m.entries && m.entries[key].leases > 0 {
      assert key in live && !IsIdle(m.entries, key);
    }
  }

  /** While the registry has not failed, the answer of an operation tells its effect on every lease count. */
  lemma LeaseAccounting(s: Store, cfg: Config, clk: Clock, op: Op, w: Write, key: string)
    requires GoodClock(clk) && GoodConfig(cfg) && Inv(s.mem, cfg, clk(s.tick)) && Admissible(s.mem, op)
    ensures var (s', reply) := Apply(s, cfg, clk, op, w);
            !s'.mem.failed ==> LeasesOf(s'.mem, key) == LeasesOf(s.mem, key) + LeaseDelta(op, reply, key)
  {
    hide GoodClock, WellKept, Inv, Evicted, Use, Adopt, GiveBack, KeyOf, Identity, ValidSessionId, Snapshot;
    LeaseSweeps(s, cfg, clk, op, key);
    match op
    case ResolveOp(p, c, lease, mint) =>
      var k := KeyOf(p, c);
      var swept := Evicted(s.mem, clk(s.tick), cfg);
      LeaseSweeps(s, cfg, clk, op, k);
      if k in swept.entries {
        UseLeases(swept, k, lease, clk(s.tick + 1), key);
      } else if mint.Some? {
        AdoptLeases(swept, p, c, mint.value, lease, clk(s.tick + 2), key);
      }
    case ReleaseOp(p, c) =>
      var k := KeyOf(p, c);
      if LeasesOf(s.mem, k) > 0 {
        GiveBackLeases(s.mem, k, clk(s.tick), key);
      }
    case _ =>
  }

  /** Even a failing operation takes no lease away, but for a Release its own. */
  lemma LeaseFloor(s: Store, cfg: Config, clk: Clock, op: Op, w: Write, key: string)
    requires GoodClock(clk) && GoodConfig(cfg) && Inv(s.mem, cfg, clk(s.tick)) && Admissible(s.mem, op)
    ensures LeasesOf(Apply(s, cfg, clk, op, w).0.mem, key)
            >= LeasesOf(s.mem, key) - (if op.ReleaseOp? && key == KeyOf(op.principal, op.conversation) then 1 else 0)
  {
    hide GoodClock, WellKept, Inv, Evicted, Use, Adopt, GiveBack, KeyOf, Identity, ValidSessionId, Snapshot;
    LeaseSweeps(s, cfg, clk, op, key);
    match op
    case ResolveOp(p, c, lease, mint) =>
      var k := KeyOf(p, c);
      var swept := Evicted(s.mem, clk(s.tick), cfg);
      LeaseSweeps(s, cfg, clk, op, k);
      if k in swept.entries {
        UseLeases(swept, k, lease, clk(s.tick + 1), key);
      } else if mint.Some? {
        AdoptLeases(swept, p, c, mint.value, lease, clk(s.tick + 2), key);
      }
    case ReleaseOp(p, c) =>
      var k := KeyOf(p, c);
      if LeasesOf(s.mem, k) > 0 {
        GiveBackLeases(s.mem, k, clk(s.tick), key);
      }
    case _ =>
  }

  lemma UseLeases(m: Memory, k: string, lease: bool, now: int, key: string)
    requires k in m.entries
    ensures LeasesOf(Use(m, k, lease, now), key) == LeasesOf(m, key) + (if key == k && lease then 1 else 0)
  {
  }

  lemma AdoptLeases(m: Memory, p: string, c: string, id: string, lease: bool, now: int, key: string)
    requires KeyOf(p, c) !in m.entries
    ensures LeasesOf(Adopt(m, p, c, id, lease, now), key)
            == LeasesOf(m, key) + (if key == KeyOf(p, c) && lease then 1 else 0)
  {
  }

  lemma GiveBackLeases(m: Memory, k: string, now: int, key: string)
    requires k in m.entries
    ensures LeasesOf(GiveBack(m, k, now), key) == LeasesOf(m, key) - (if key == k then 1 else 0)
  {
  }

  /** No eviction inside an operation touches a lease. */
  lemma LeaseSweeps(s: Store, cfg: Config, clk: Clock, op: Op, key: string)
    requires GoodClock(clk) && GoodConfig(cfg) && Inv(s.mem, cfg, clk(s.tick)) && Admissible(s.mem, op)
    ensures var swept := Evicted(s.mem, clk(s.tick), cfg);
            && LeasesOf(swept, key) == LeasesOf(s.mem, key)
            && (LeasesOf(s.mem, key) > 0 ==> key in swept.entries)
            && (key in swept.entries ==> key in s.mem.entries && swept.entries[key] == s.mem.entries[key])
    ensures op.ResolveOp? && op.mint.Some? && Identity(op.principal, op.conversation) ==>
              var added := Adopt(Evicted(s.mem, clk(s.tick), cfg), op.principal, op.conversation, op.mint.value,
                                 op.lease, clk(s.tick + 2));
              var m := Evicted(added, clk(s.tick + 3), cfg);
              && LeasesOf(m, key) == LeasesOf(added, key)
              && (LeasesOf(added, key) > 0 ==> key in m.entries)
              && (key in m.entries ==> key in added.entries && m.entries[key] == added.entries[key])
    ensures op.ReleaseOp? && LeasesOf(s.mem, KeyOf(op.principal, op.conversation)) > 0 ==>
              var k := KeyOf(op.principal, op.conversation);
              var back := GiveBack(s.mem, k, clk(s.tick));
              var m := Evicted(back, clk(if s.mem.entries[k].leases == 1 then s.tick + 1 else s.tick), cfg);
              && LeasesOf(m, key) == LeasesOf(back, key)
              && (LeasesOf(back, key) > 0 ==> key in m.entries)
              && (key in m.entries ==> key in back.entries && m.entries[key] == back.entries[key])
  {
    hide GoodClock, WellKept, Inv, Evicted, GiveBack, Adopt, KeyOf, Identity, ValidSessionId, Trimmed;
    var now := clk(s.tick);
    InvKept(s.mem, cfg, now);
    EvictedLeases(s.mem, now, cfg, now, key);
    if op.ResolveOp? && op.mint.Some? && Identity(op.principal, op.conversation) {
      var swept := Evicted(s.mem, now, cfg);
      var t := clk(s.tick + 2);
      ClockOrder(clk, s.tick, s.tick + 2);
      EvictedInv(s.mem, cfg, now, now);
      InvKept(swept, cfg, now);
      SweptFresh(s.mem, now, cfg, op.mint);
      AdoptKept(swept, op.principal, op.conversation, op.mint.value, op.lease, now, t, t);
      EvictedLeases(Adopt(swept, op.principal, op.conversation, op.mint.value, op.lease, t), clk(s.tick + 3), cfg, t,
          key);
    } else if op.ReleaseOp? {
      var k := KeyOf(op.principal, op.conversation);
      if LeasesOf(s.mem, k) > 0 {
        GiveBackKept(s.mem, k, now, now, now);
        EvictedLeases(GiveBack(s.mem, k, now), clk(if s.mem.entries[k].leases == 1 then s.tick + 1 else s.tick), cfg,
            now, key);
      }
    }
  }

  /** A leased entry survives every operation with its identity, and cannot be terminated. */
  lemma LeaseProtects(s: Store, cfg: Config, clk: Clock, op: Op, w: Write, key: string)
    requires GoodClock(clk) && GoodConfig(cfg) && Inv(s.mem, cfg, clk(s.tick)) && Admissible(s.mem, op)
    requires key in s.mem.entries && s.mem.entries[key].leases > 0
    requires op.ReleaseOp? && key == KeyOf(op.principal, op.conversation) ==> s.mem.entries[key].leases > 1
    ensures var m := Apply(s, cfg, clk, op, w).0.mem;
            key in m.entries && m.entries[key].sessionId == s.mem.entries[key].sessionId && m.entries[key].leases > 0
  {
    hide GoodClock, WellKept, Inv, Evicted, KeyOf, Identity, ValidSessionId, Trimmed, Snapshot, Touch;
    LeaseSweeps(s, cfg, clk, op, key);
    if !op.CloseOp? {
      LeaseSweeps(s, cfg, clk, op, KeyOf(op.principal, op.conversation));
    }
  }

  // ---- Lookup against Create ----

  /** A non-empty Lookup is what a Create at that reading returns; after an empty one no old identity can come. */
  lemma LookupIsCreate(s: Store, cfg: Config, clk: Clock, p: string, c: string, lease: bool, mint: Option<string>)
    requires GoodClock(clk) && GoodConfig(cfg) && Inv(s.mem, cfg, clk(s.tick))
    ensures var found := Lookup(s, cfg, clk, p, c);
            var reply := Resolve(s, cfg, clk, p, c, lease, mint, Written).1;
            if found != "" then reply == Session(found)
            else reply == Refused || (mint.Some? && reply == Session(mint.value))
  {
    hide GoodClock, WellKept, Inv, Evicted, Use, Adopt, KeyOf, ValidSessionId, Snapshot, Identity;
    var key := KeyOf(p, c);
    InvKept(s.mem, cfg, clk(s.tick));
    SweepDecides(s.mem, cfg, clk(s.tick), key);
    if key in s.mem.entries {
      OwnIdentity(s.mem, clk(s.tick), p, c);
    }
  }

  lemma OwnIdentity(m: Memory, now: int, p: string, c: string)
    requires WellKept(m, now) && KeyOf(p, c) in m.entries
    ensures Identity(p, c) && m.entries[KeyOf(p, c)].sessionId != ""
  {
    hide KeyOf, NoDup;
    KeyReachesOwnEntry(m, now, p, c, KeyOf(p, c));
  }

  /** Between operations the first eviction of resolve drops the expired entries and nothing else. */
  lemma SweepDecides(m: Memory, cfg: Config, now: int, key: string)
    requires Inv(m, cfg, now)
    ensures var swept := Evicted(m, now, cfg);
            && (key in swept.entries <==> key in m.entries && !Expired(m.entries[key], now, cfg.ttlMs))
            && (key in swept.entries ==> swept.entries[key] == m.entries[key])
  {
    hide ValidSessionId, Identity, Trimmed, KeyOf, NoDup, EvictedOrder;
    EvictedWithinBound(m, now, cfg);
  }
}
