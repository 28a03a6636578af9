/** The LRU order over whole runs, and who the victims are. */
module RegistryLru {
  import opened Prelude
  import opened Text
  import opened SessionId
  import opened Registry
  import opened RegistryOrder
  import opened RegistryInvariant
  import opened RegistryRecovery
  import opened RegistryRuns

  // ---- LRU order over runs ----

  ghost predicate OnlyCalls(events: seq<Event>) {
    forall i :: 0 <= i < |events| ==> events[i].Call?
  }

  const FRESH_START: World := World(Some(EMPTY), None, 0)

  /** A registry that never recovered from a crash evicts in order of last use. */
  lemma {:induction false} RunsKeepOrder(events: seq<Event>, cfg: Config, clk: Clock)
    requires GoodClock(clk) && GoodConfig(cfg) && OnlyCalls(events) && Legal(FRESH_START, events, cfg, clk)
    ensures var w := Run(FRESH_START, events, cfg, clk);
            w.proc.Some? && Inv(w.proc.value, cfg, clk(w.tick)) && Ordered(w.proc.value)
  {
    hide GoodClock, Inv, Ordered, Apply, Admissible;
    if events == [] {
      FreshOrdered(cfg, clk(0));
    } else {
      var init, last := events[..|events| - 1], events[|events| - 1];
      assert forall i :: 0 <= i < |init| ==> init[..i] == events[..i] && init[i] == events[i];
      RunsKeepOrder(init, cfg, clk);
      var w := Run(FRESH_START, init, cfg, clk);
      var s := Store(w.proc.value, w.disk, w.tick);
      StepKeepsInv(s, cfg, clk, last.op, last.write);
      StepKeepsOrder(s, cfg, clk, last.op, last.write);
    }
  }

  lemma FreshOrdered(cfg: Config, now: int)
    requires GoodConfig(cfg)
    ensures Inv(EMPTY, cfg, now) && Ordered(EMPTY)
  {
  }

  // ---- the victims ----

  /**
    The eviction that ends an operation, if it runs one over a changed memory: that memory, and the
    reading it is judged by.  Only here can the idle bound be exceeded: after a new entry was added,
    and after a lease was given back.
   */
  function LastSweep(s: Store, cfg: Config, clk: Clock, op: Op): Option<(Memory, int)> {
    if !Ready(s.mem) then None
    else if op.ResolveOp? then
      var swept := Evicted(s.mem, clk(s.tick), cfg);
      var key := KeyOf(op.principal, op.conversation);
      if !Identity(op.principal, op.conversation) || key in swept.entries || op.mint.None? then None
      else
        Some((Adopt(swept, op.principal, op.conversation, op.mint.value, op.lease, clk(s.tick + 2)), clk(s.tick + 3)))
    else if op.ReleaseOp? then
      var key := KeyOf(op.principal, op.conversation);
      if key !in s.mem.entries || s.mem.entries[key].state == Terminated || s.mem.entries[key].leases <= 0 then None
      else
        Some((GiveBack(s.mem, key, clk(s.tick)), clk(if s.mem.entries[key].leases == 1 then s.tick + 1 else s.tick)))
    else None
  }

  /** What an operation drops: the expired at its first reading, and what its last eviction drops. */
  lemma DropsAre(s: Store, cfg: Config, clk: Clock, op: Op, w: Write, key: string)
    requires Inv(s.mem, cfg, clk(s.tick))
    ensures var m, sweep := Apply(s, cfg, clk, op, w).0.mem, LastSweep(s, cfg, clk, op);
            && (sweep.Some? ==> m.entries == Evicted(sweep.value.0, sweep.value.1, cfg).entries)
            && (key in s.mem.entries && key !in (if sweep.Some? then sweep.value.0.entries else m.entries) ==>
                  Expired(s.mem.entries[key], clk(s.tick), cfg.ttlMs))
  {
    hide Inv, Evicted, KeyOf, Identity, Snapshot, Touch;
    SweepDecides(s.mem, cfg, clk(s.tick), key);
  }

  lemma SweptMemory(s: Store, cfg: Config, clk: Clock, op: Op)
    requires GoodClock(clk) && GoodConfig(cfg) && Inv(s.mem, cfg, clk(s.tick)) && Admissible(s.mem, op)
    requires Ordered(s.mem) && LastSweep(s, cfg, clk, op).Some?
    ensures var m := LastSweep(s, cfg, clk, op).value.0; Listing(m) && Ordered(m)
  {
    hide GoodClock, Inv, WellKept, Evicted, KeyOf, Identity, Adopt, GiveBack, Ordered;
    var now := clk(s.tick);
    InvKept(s.mem, cfg, now);
    if op.ResolveOp? {
      var swept, t := Evicted(s.mem, now, cfg), clk(s.tick + 2);
      ClockOrder(clk, s.tick, s.tick + 2);
      EvictedInv(s.mem, cfg, now, now);
      InvKept(swept, cfg, now);
      SweptFresh(s.mem, now, cfg, op.mint);
      SweepKeepsOrder(s.mem, now, cfg, now);
      AdoptKept(swept, op.principal, op.conversation, op.mint.value, op.lease, now, t, t);
      AdoptKeepsOrder(swept, op.principal, op.conversation, op.mint.value, op.lease, now, t);
      ListingOf(Adopt(swept, op.principal, op.conversation, op.mint.value, op.lease, t), t);
    } else {
      var key := KeyOf(op.principal, op.conversation);
      GiveBackKept(s.mem, key, now, now, now);
      GiveBackKeepsOrder(s.mem, key, now, now);
      ListingOf(GiveBack(s.mem, key, now), now);
    }
  }

  /** The operation drops this key although its entry has not expired at any reading it is judged by. */
  predicate DroppedLive(s: Store, cfg: Config, clk: Clock, op: Op, w: Write, key: string) {
    && (key in s.mem.entries ==> !Expired(s.mem.entries[key], clk(s.tick), cfg.ttlMs))
    && key !in Apply(s, cfg, clk, op, w).0.mem.entries
    && match LastSweep(s, cfg, clk, op)
       case Some(sweep) => key in sweep.0.entries && !Expired(sweep.0.entries[key], sweep.1, cfg.ttlMs)
       case None => key in s.mem.entries
  }

  function StoreOf(w: World): Store
    requires w.proc.Some?
  {
    Store(w.proc.value, w.disk, w.tick)
  }

  /**
    In any run without crash recovery, an entry that an operation drops before it has expired is
    dropped by the LRU pass that ends the operation, was idle there, and was last used no later
    than any idle entry the operation leaves.
   */
  lemma RunVictimIsOldest(events: seq<Event>, cfg: Config, clk: Clock, op: Op, w: Write, victim: string, kept: string)
    requires GoodClock(clk) && GoodConfig(cfg) && OnlyCalls(events) && Legal(FRESH_START, events, cfg, clk)
    requires Run(FRESH_START, events, cfg, clk).proc.Some?
    requires var s := StoreOf(Run(FRESH_START, events, cfg, clk));
             && Admissible(s.mem, op) && DroppedLive(s, cfg, clk, op, w, victim)
             && IsIdle(Apply(s, cfg, clk, op, w).0.mem.entries, kept)
    ensures var s := StoreOf(Run(FRESH_START, events, cfg, clk));
            var sweep, m := LastSweep(s, cfg, clk, op), Apply(s, cfg, clk, op, w).0.mem;
            && sweep.Some? && IsIdle(sweep.value.0.entries, victim)
            && sweep.value.0.entries[victim].lastUsedMs <= m.entries[kept].lastUsedMs
  {
    hide GoodClock, Inv, Evicted, LruOrdered, Run, Legal, NoDup, LastSweep, Apply;
    RunsKeepOrder(events, cfg, clk);
    var s := StoreOf(Run(FRESH_START, events, cfg, clk));
    DropsAre(s, cfg, clk, op, w, victim);
    SweptMemory(s, cfg, clk, op);
    var (mid, now) := LastSweep(s, cfg, clk, op).value;
    EvictedKeeps(mid, now, cfg, kept);
    VictimIsOldest(mid, now, cfg, victim, kept);
  }

  lemma EvictedKeeps(m: Memory, now: int, cfg: Config, key: string)
    ensures key in Evicted(m, now, cfg).entries
            ==> key in m.entries && Evicted(m, now, cfg).entries[key] == m.entries[key]
  {
  }

  // ---- runs with a victim ----

  const ONE_IDLE: Config := Config(100, 1)

  /** Readings of the two runs below: four for each new session, one for the use, then the reopening. */
  function Readings(i: nat): int {
    if i <= 3 then 1 else if i <= 7 then 3 else if i == 8 then 5 else 10
  }

  const AFTER: Clock := (i: nat) => Readings(i)

  function Opened(conversation: string, id: string, lease: bool): Event {
    Call(ResolveOp("p", conversation, lease, Some(id)), Written)
  }

  function Held(id: string, conversation: string, state: EntryState, created: int, used: int, leases: int): Entry {
    Entry(id, "p", conversation, state, created, used, leases)
  }

  lemma Keys()
    ensures Trim("p") == "p" && Trim("used") == "used" && Trim("old") == "old"
    ensures Identity("p", "used") && Identity("p", "old")
    ensures KeyOf("p", "used") != KeyOf("p", "old")
  {
    var a, b := KeyOf("p", "used"), KeyOf("p", "old");
    assert |a| != |b|;
  }

  /** A first session, leased or not, in an empty registry. */
  lemma FirstSession(a: string, lease: bool)
    requires ValidSessionId(a) && Trimmed(a)
    ensures var key := KeyOf("p", "used");
            var e := if lease then Held(a, "used", Active, 1, 1, 1) else Held(a, "used", Idle, 1, 1, 0);
            Next(FRESH_START, Opened("used", a, lease), ONE_IDLE, AFTER)
            == World(Some(Memory(map[key := e], [key], false, false)), Some([e]), 4)
    ensures Enabled(FRESH_START, Opened("used", a, lease))
  {
    Keys();
    hide ValidSessionId, Trim, Identity;
    var key := KeyOf("p", "used");
    hide KeyOf;
    var e := if lease then Held(a, "used", Active, 1, 1, 1) else Held(a, "used", Idle, 1, 1, 0);
    assert Evicted(EMPTY, 1, ONE_IDLE) == EMPTY;
    assert Adopt(EMPTY, "p", "used", a, lease, 1) == Memory(map[key := e], [key], false, false);
    OneKept(key, e);
  }

  lemma OneKept(key: string, e: Entry)
    requires e.lastUsedMs == 1
    ensures forall now :: 1 <= now <= 10 ==>
              Evicted(Memory(map[key := e], [key], false, false), now, ONE_IDLE)
                  == Memory(map[key := e], [key], false, false)
    ensures Snapshot(map[key := e], [key]) == [e]
  {
    var entries, order := map[key := e], [key];
    assert order[1..] == [];
    assert IdleCount(entries, order) <= 1;
    assert Restrict(entries, order) == entries;
    forall now | 1 <= now <= 10
      ensures Evicted(Memory(entries, order, false, false), now, ONE_IDLE) == Memory(entries, order, false, false)
    {
      assert Unexpired(entries, order, now, 100) == order;
    }
  }

  /** A second session beside one that was opened at 1: an idle one is its victim. */
  lemma SecondResolve(k: string, e: Entry, b: string)
    requires k == KeyOf("p", "used") && e.state != Terminated && e.lastUsedMs == 1
    ensures var l, f := KeyOf("p", "old"), Held(b, "old", Idle, 3, 3, 0);
            var s := Store(Memory(map[k := e], [k], false, false), Some([e]), 4);
            Resolve(s, ONE_IDLE, AFTER, "p", "old", false, Some(b), Written)
            == (if e.state == Idle then Store(Memory(map[l := f], [l], false, false), Some([f]), 8)
                else Store(Memory(map[k := e, l := f], [k, l], false, false), Some([e, f]), 8),
                Session(b))
  {
    Keys();
    var l, f := KeyOf("p", "old"), Held(b, "old", Idle, 3, 3, 0);
    hide Trim, Identity, KeyOf;
    OneKept(k, e);
    TwoSwept(k, e, l, f);
    var m, added := Memory(map[k := e], [k], false, false), Memory(map[k := e, l := f], [k, l], false, false);
    AddsSecond(m, k, e, b);
    assert AFTER(4) == AFTER(6) == AFTER(7) == 3;
    hide Adopt, Evicted, Snapshot, AFTER, Held, IsIdle, Use;
    var final := if e.state == Idle then Memory(map[l := f], [l], false, false) else added;
    assert Evicted(m, AFTER(4), ONE_IDLE) == m && l !in m.entries;
    assert Evicted(Adopt(m, "p", "old", b, false, AFTER(6)), AFTER(7), ONE_IDLE) == final;
    ResolveAdds(Store(m, Some([e]), 4), "old", b, final);
  }

  lemma AddsSecond(m: Memory, k: string, e: Entry, b: string)
    requires k == KeyOf("p", "used") && m == Memory(map[k := e], [k], false, false)
    ensures var l := KeyOf("p", "old");
            Adopt(m, "p", "old", b, false, 3)
            == Memory(map[k := e, l := Held(b, "old", Idle, 3, 3, 0)], [k, l], false, false)
  {
    Keys();
    hide Trim, KeyOf;
    assert Remove([k], KeyOf("p", "old")) == [k] by { assert [k][1..] == []; }
  }

  /** The minting path of Create, given what its two evictions come to. */
  lemma ResolveAdds(s: Store, c: string, id: string, final: Memory)
    requires Ready(s.mem) && Identity("p", c) && Evicted(s.mem, AFTER(s.tick), ONE_IDLE) == s.mem
    requires KeyOf("p", c) !in s.mem.entries && Ready(final)
    requires Evicted(Adopt(s.mem, "p", c, id, false, AFTER(s.tick + 2)), AFTER(s.tick + 3), ONE_IDLE) == final
    ensures Resolve(s, ONE_IDLE, AFTER, "p", c, false, Some(id), Written)
            == (Store(final, Some(Snapshot(final.entries, final.order)), s.tick + 4), Session(id))
  {
    hide Identity, KeyOf, Evicted, Adopt, Snapshot, AFTER, Use;
  }

  /** The first two sessions. */
  lemma SecondSession(a: string, b: string, lease: bool)
    requires ValidSessionId(a) && Trimmed(a) && ValidSessionId(b) && Trimmed(b) && a != b
    ensures var w := Next(FRESH_START, Opened("used", a, lease), ONE_IDLE, AFTER);
            var k, l := KeyOf("p", "used"), KeyOf("p", "old");
            var e, f := Held(a, "used", Active, 1, 1, 1), Held(b, "old", Idle, 3, 3, 0);
            && Enabled(w, Opened("old", b, false))
            && Next(w, Opened("old", b, false), ONE_IDLE, AFTER)
               == if lease then World(Some(Memory(map[k := e, l := f], [k, l], false, false)), Some([e, f]), 8)
                  else World(Some(Memory(map[l := f], [l], false, false)), Some([f]), 8)
  {
    FirstSession(a, lease);
    var k := KeyOf("p", "used");
    var e := if lease then Held(a, "used", Active, 1, 1, 1) else Held(a, "used", Idle, 1, 1, 0);
    SecondResolve(k, e, b);
    hide ValidSessionId, Trim, Identity, KeyOf, Resolve;
    var w := World(Some(Memory(map[k := e], [k], false, false)), Some([e]), 4);
    assert Enabled(w, Opened("old", b, false));
    NextIsCall(w, Opened("old", b, false));
  }

  lemma NextIsCall(w: World, e: Event)
    requires w.proc.Some? && e.Call?
    ensures var s := Apply(StoreOf(w), ONE_IDLE, AFTER, e.op, e.write).0;
            Next(w, e, ONE_IDLE, AFTER) == World(Some(s.mem), s.disk, s.tick)
  {
  }

  lemma TwoSwept(k: string, e: Entry, l: string, f: Entry)
    requires k != l && e.state != Terminated && e.lastUsedMs == 1 && f.state == Idle && f.lastUsedMs == 3
    ensures var m := Memory(map[k := e, l := f], [k, l], false, false);
            var m' := if e.state == Idle then Memory(map[l := f], [l], false, false) else m;
            && Evicted(m, 3, ONE_IDLE) == m'
            && Snapshot(m'.entries, m'.order) == if e.state == Idle then [f] else [e, f]
  {
    var entries, order := map[k := e, l := f], [k, l];
    assert order[1..] == [l] && [l][1..] == [];
    assert Unexpired(entries, [l], 3, 100) == [l] && order == [k] + [l];
    assert Unexpired(entries, order, 3, 100) == order;
    assert IdleCount(entries, [l]) == 1;
    if e.state == Idle {
      assert DropIdle(entries, order, 1) == [l];
      assert Restrict(entries, [l]) == map[l := f];
    } else {
      assert Restrict(entries, order) == entries;
    }
    assert Snapshot(entries, []) == [] && Snapshot(map[l := f], []) == [];
    assert Snapshot(map[l := f], [l]) == [f] && Snapshot(entries, [l]) == [f];
  }

  lemma RunOne(w: World, events: seq<Event>, e: Event)
    ensures Run(w, events + [e], ONE_IDLE, AFTER) == Next(Run(w, events, ONE_IDLE, AFTER), e, ONE_IDLE, AFTER)
    ensures Run(w, [], ONE_IDLE, AFTER) == w
    ensures Legal(w, events + [e], ONE_IDLE, AFTER)
            <==> Legal(w, events, ONE_IDLE, AFTER) && Enabled(Run(w, events, ONE_IDLE, AFTER), e)
    ensures Legal(w, [], ONE_IDLE, AFTER)
  {
    RunTail(w, events, e);
    LegalOne(w, events, e);
  }

  lemma RunTail(w: World, events: seq<Event>, e: Event)
    ensures Run(w, events + [e], ONE_IDLE, AFTER) == Next(Run(w, events, ONE_IDLE, AFTER), e, ONE_IDLE, AFTER)
    ensures Run(w, [], ONE_IDLE, AFTER) == w && Legal(w, [], ONE_IDLE, AFTER)
  {
    hide Next, Enabled;
    var all := events + [e];
    assert all[..|all| - 1] == events && all[|all| - 1] == e;
  }

  lemma LegalOne(w: World, events: seq<Event>, e: Event)
    ensures Legal(w, events + [e], ONE_IDLE, AFTER)
            <==> Legal(w, events, ONE_IDLE, AFTER) && Enabled(Run(w, events, ONE_IDLE, AFTER), e)
  {
    hide Next, Enabled, Run;
    var all := events + [e];
    assert all[..|events|] == events && all[|events|] == e;
    forall i | 0 <= i < |events|
      ensures Enabled(Run(w, all[..i], ONE_IDLE, AFTER), all[i])
              == Enabled(Run(w, events[..i], ONE_IDLE, AFTER), events[i])
    {
      assert all[..i] == events[..i] && all[i] == events[i];
    }
  }

  /** The LRU theorem speaks of something: in this run the second Create evicts the first session. */
  lemma VictimExists(a: string, b: string)
    requires ValidSessionId(a) && Trimmed(a) && ValidSessionId(b) && Trimmed(b) && a != b
    ensures var events := [Opened("used", a, false)];
            var op := ResolveOp("p", "old", false, Some(b));
            && GoodClock(AFTER) && OnlyCalls(events) && Legal(FRESH_START, events, ONE_IDLE, AFTER)
            && var w := Run(FRESH_START, events, ONE_IDLE, AFTER);
               && w.proc.Some? && Admissible(w.proc.value, op)
               && DroppedLive(StoreOf(w), ONE_IDLE, AFTER, op, Written, KeyOf("p", "used"))
               && IsIdle(Apply(StoreOf(w), ONE_IDLE, AFTER, op, Written).0.mem.entries, KeyOf("p", "old"))
  {
    FirstSession(a, false);
    Keys();
    GoodReadings();
    var k, l := KeyOf("p", "used"), KeyOf("p", "old");
    var e := Held(a, "used", Idle, 1, 1, 0);
    SecondResolve(k, e, b);
    OneKept(k, e);
    var first, op := Opened("used", a, false), ResolveOp("p", "old", false, Some(b));
    RunOne(FRESH_START, [], first);
    var w := World(Some(Memory(map[k := e], [k], false, false)), Some([e]), 4);
    assert Admissible(w.proc.value, op);
    hide ValidSessionId, Trim, Identity, KeyOf, Next, Evicted, Resolve, Run, Legal, Adopt, GoodClock, Enabled;
    assert [] + [first] == [first];
    AddsAfter(w.proc.value, k, b);
    assert LastSweep(StoreOf(w), ONE_IDLE, AFTER, op) == Some((Adopt(w.proc.value, "p", "old", b, false, 3), 3));
  }

  lemma AddsAfter(m: Memory, k: string, b: string)
    requires k == KeyOf("p", "used") && k in m.entries
    ensures var added := Adopt(m, "p", "old", b, false, 3); k in added.entries && added.entries[k] == m.entries[k]
  {
    Keys();
    hide KeyOf, Trim;
  }

  lemma GoodReadings()
    ensures GoodClock(AFTER)
  {
  }
}
