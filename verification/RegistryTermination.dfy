/**
  A terminated mapping is remembered and never resurrected until it ages out, through operations,
  failed writes, crashes and reopenings (plugins/opencode/registry.go).
 */
module RegistryTermination {
  import opened Prelude
  import opened Text
  import opened SessionId
  import opened Registry
  import opened RegistryOrder
  import opened RegistryInvariant
  import opened RegistryRecovery
  import opened RegistryRuns

  /** The entry of this key was terminated at t or later. */
  predicate Ended(m: Memory, key: string, t: int) {
    key in m.entries && m.entries[key].state == Terminated && t <= m.entries[key].lastUsedMs
  }

  predicate EndedIn(file: seq<Entry>, key: string, t: int) {
    exists e :: e in file && EntryKey(e) == key && e.state == Terminated && t <= e.lastUsedMs
  }

  predicate Remembered(w: World, key: string, t: int) {
    w.disk.Some? && EndedIn(w.disk.value, key, t) && (w.proc.Some? ==> Ended(w.proc.value, key, t))
  }

  // ---- one operation ----

  lemma SweepRemembers(m: Memory, now: int, cfg: Config, key: string, t: int)
    requires Listing(m) && Ended(m, key, t) && now - t <= cfg.ttlMs
    ensures Ended(Evicted(m, now, cfg), key, t)
  {
    assert key in Unexpired(m.entries, m.order, now, cfg.ttlMs);
  }

  lemma ResolveRemembers(s: Store, cfg: Config, clk: Clock, p: string, c: string, lease: bool, mint: Option<string>,
                         w: Write, key: string, t: int)
    requires GoodClock(clk) && GoodConfig(cfg) && Inv(s.mem, cfg, clk(s.tick)) && Fresh(s.mem, mint)
             && Ended(s.mem, key, t)
    requires clk(Resolve(s, cfg, clk, p, c, lease, mint, w).0.tick) - t <= cfg.ttlMs
    ensures var (s', reply) := Resolve(s, cfg, clk, p, c, lease, mint, w);
            Ended(s'.mem, key, t) && (key == KeyOf(p, c) ==> reply == Refused)
  {
    hide GoodClock, WellKept, Inv, Evicted, KeyOf, Identity, ValidSessionId, Trimmed, Snapshot, Touch, Listing;
    if Identity(p, c) && Ready(s.mem) {
      var now := clk(s.tick);
      var s' := Resolve(s, cfg, clk, p, c, lease, mint, w).0;
      ClockOrder(clk, s.tick, s'.tick);
      InvKept(s.mem, cfg, now);
      KeptListing(s.mem, now);
      SweepRemembers(s.mem, now, cfg, key, t);
      var swept := Evicted(s.mem, now, cfg);
      if KeyOf(p, c) !in swept.entries && mint.Some? {
        EvictedInv(s.mem, cfg, now, now);
        InvKept(swept, cfg, now);
        SweptFresh(s.mem, now, cfg, mint);
        ClockOrder(clk, s.tick, s.tick + 2);
        ClockOrder(clk, s.tick + 3, s.tick + 4);
        AdoptKept(swept, p, c, mint.value, lease, now, clk(s.tick + 2), clk(s.tick + 2));
        var added := Adopt(swept, p, c, mint.value, lease, clk(s.tick + 2));
        KeptListing(added, clk(s.tick + 2));
        SweepRemembers(added, clk(s.tick + 3), cfg, key, t);
      }
    }
  }

  lemma KeptListing(m: Memory, now: int)
    requires WellKept(m, now)
    ensures Listing(m)
  {
  }

  lemma ReleaseRemembers(s: Store, cfg: Config, clk: Clock, p: string, c: string, w: Write, key: string, t: int)
    requires GoodClock(clk) && GoodConfig(cfg) && Inv(s.mem, cfg, clk(s.tick)) && Ended(s.mem, key, t)
    requires clk(Release(s, cfg, clk, p, c, w).0.tick) - t <= cfg.ttlMs
    ensures Ended(Release(s, cfg, clk, p, c, w).0.mem, key, t)
  {
    hide GoodClock, WellKept, Inv, Evicted, KeyOf, Snapshot, Touch, Listing, GiveBack;
    var k := KeyOf(p, c);
    if Ready(s.mem) && k in s.mem.entries && s.mem.entries[k].state != Terminated && s.mem.entries[k].leases > 0 {
      var now := clk(s.tick);
      var tick := if s.mem.entries[k].leases == 1 then s.tick + 1 else s.tick;
      InvKept(s.mem, cfg, now);
      GiveBackKept(s.mem, k, now, now, now);
      KeptListing(GiveBack(s.mem, k, now), now);
      ClockOrder(clk, tick, tick + 1);
      GiveBackElsewhere(s.mem, k, now, key);
      SweepRemembers(GiveBack(s.mem, k, now), clk(tick), cfg, key, t);
    }
  }

  lemma GiveBackElsewhere(m: Memory, k: string, now: int, key: string)
    requires k in m.entries && key in m.entries && key != k
    ensures key in GiveBack(m, k, now).entries && GiveBack(m, k, now).entries[key] == m.entries[key]
  {
  }

  lemma MarkRemembers(s: Store, cfg: Config, clk: Clock, op: Op, w: Write, key: string, t: int)
    requires GoodClock(clk) && Inv(s.mem, cfg, clk(s.tick)) && Ended(s.mem, key, t)
    requires op.ReferenceOp? || op.TerminateOp? || op.LookupOp? || op.CloseOp?
    ensures var (s', reply) := Apply(s, cfg, clk, op, w);
            && Ended(s'.mem, key, t)
            && (op.ReferenceOp? && key == KeyOf(op.principal, op.conversation) ==> reply == Refused)
            && (op.LookupOp? && key == KeyOf(op.principal, op.conversation) ==> reply == Session(""))
  {
    hide GoodClock, KeyOf, ValidSessionId, Identity, Trimmed, Snapshot, NoDup, IdleCount;
    assert s.mem.entries[key].lastUsedMs <= clk(s.tick);
  }

  /**
    Until the TTL has passed since the termination, no operation changes that the mapping is
    terminated, and no Create, Acquire, Reference or Lookup of it succeeds.
   */
  lemma TerminationHolds(s: Store, cfg: Config, clk: Clock, op: Op, w: Write, key: string, t: int)
    requires GoodClock(clk) && GoodConfig(cfg) && Inv(s.mem, cfg, clk(s.tick)) && Admissible(s.mem, op)
    requires Ended(s.mem, key, t) && clk(Apply(s, cfg, clk, op, w).0.tick) - t <= cfg.ttlMs
    ensures var (s', reply) := Apply(s, cfg, clk, op, w);
            && Ended(s'.mem, key, t)
            && ((op.ResolveOp? || op.ReferenceOp?) && key == KeyOf(op.principal, op.conversation) ==> reply == Refused)
            && (op.LookupOp? && key == KeyOf(op.principal, op.conversation) ==> reply == Session(""))
  {
    hide GoodClock, Inv, KeyOf, Ended, Resolve, Release, Reference, Terminate, Lookup;
    match op
    case ResolveOp(p, c, lease, mint) => ResolveRemembers(s, cfg, clk, p, c, lease, mint, w, key, t);
    case ReleaseOp(p, c) => ReleaseRemembers(s, cfg, clk, p, c, w, key, t);
    case _ => MarkRemembers(s, cfg, clk, op, w, key, t);
  }

  /** A Terminate that succeeds is durable. */
  lemma TerminateRecords(s: Store, cfg: Config, clk: Clock, p: string, c: string, w: Write)
    requires GoodClock(clk) && GoodConfig(cfg) && Inv(s.mem, cfg, clk(s.tick)) && Terminate(s, clk, p, c, w).1 == Done
    ensures var s' := Terminate(s, clk, p, c, w).0;
            Remembered(World(Some(s'.mem), s'.disk, s'.tick), KeyOf(p, c), clk(s.tick))
  {
    hide GoodClock, Inv, KeyOf, FileOf;
    var s' := Terminate(s, clk, p, c, w).0;
    MarkKeepsInv(s, cfg, clk, TerminateOp(p, c), w);
    InvKept(s'.mem, cfg, clk(s'.tick));
    EndedOnDisk(s'.mem, clk(s'.tick), KeyOf(p, c), clk(s.tick));
    SnapshotIsFile(s'.mem);
  }

  lemma SnapshotIsFile(m: Memory)
    ensures FileOf(m) == Snapshot(m.entries, m.order)
  {
  }

  // ---- memory and file ----

  lemma EndedOnDisk(m: Memory, now: int, key: string, t: int)
    requires WellKept(m, now) && Ended(m, key, t)
    ensures EndedIn(FileOf(m), key, t)
  {
    hide ValidSessionId, Identity, Trimmed, NoDup, KeyOf;
    SnapshotMembers(m.entries, m.order);
    var i :| 0 <= i < |m.order| && m.order[i] == key;
    assert FileOf(m)[i] in FileOf(m);
  }

  lemma EndedInMemory(m: Memory, now: int, key: string, t: int)
    requires WellKept(m, now) && EndedIn(FileOf(m), key, t)
    ensures Ended(m, key, t)
  {
    hide ValidSessionId, Identity, Trimmed, NoDup, KeyOf;
    SnapshotMembers(m.entries, m.order);
    var e :| e in FileOf(m) && EntryKey(e) == key && e.state == Terminated && t <= e.lastUsedMs;
    var i :| 0 <= i < |FileOf(m)| && FileOf(m)[i] == e;
    assert m.order[i] in m.order;
  }

  // ---- recovery ----

  lemma {:induction false} RecoveredEnded(file: seq<Entry>, now: int, e: Entry)
    requires e in file && e.state == Terminated
    ensures e in RecoveredFile(file, now)
  {
    if file[0] != e {
      RecoveredEnded(file[1..], now, e);
    }
  }

  lemma {:induction false} UnexpiredEnded(file: seq<Entry>, now: int, ttlMs: int, e: Entry)
    requires e in file && !Expired(e, now, ttlMs)
    ensures e in UnexpiredFile(file, now, ttlMs)
  {
    if file[0] != e {
      UnexpiredEnded(file[1..], now, ttlMs, e);
    }
  }

  lemma {:induction false} DroppedEnded(file: seq<Entry>, n: nat, e: Entry)
    requires e in file && e.state != Idle
    ensures e in DropIdleFile(file, n)
  {
    if n != 0 {
      if file[0].state == Idle {
        DroppedEnded(file[1..], n - 1, e);
      } else if file[0] != e {
        DroppedEnded(file[1..], n, e);
      }
    }
  }

  lemma RecoveryRemembers(file: seq<Entry>, cfg: Config, clk: Clock, tick: nat, key: string, t: int)
    requires EndedIn(file, key, t) && clk(tick + 1) - t <= cfg.ttlMs
    ensures EndedIn(Recovery(file, cfg, clk, tick), key, t)
  {
    hide KeyOf, RecoveredFile, UnexpiredFile, DropIdleFile;
    var e :| e in file && EntryKey(e) == key && e.state == Terminated && t <= e.lastUsedMs;
    RecoveredEnded(file, clk(tick), e);
    UnexpiredEnded(RecoveredFile(file, clk(tick)), clk(tick + 1), cfg.ttlMs, e);
    var live := UnexpiredFile(RecoveredFile(file, clk(tick)), clk(tick + 1), cfg.ttlMs);
    DroppedEnded(live, Excess(IdleInFile(live), cfg.maxIdle), e);
  }

  // ---- whole runs ----

  lemma CallRemembers(w: World, e: Event, cfg: Config, clk: Clock, key: string, t: int)
    requires GoodClock(clk) && GoodConfig(cfg) && WorldInv(w, cfg, clk) && Enabled(w, e) && e.Call? && w.proc.Some?
    requires Remembered(w, key, t) && clk(Next(w, e, cfg, clk).tick) - t <= cfg.ttlMs
    ensures Remembered(Next(w, e, cfg, clk), key, t)
  {
    hide GoodClock, Inv, Apply, Ended, EndedIn, FileOf, DiskOk, Agrees, KeyOf;
    var s := Store(w.proc.value, w.disk, w.tick);
    TerminationHolds(s, cfg, clk, e.op, e.write, key, t);
    StepOnDisk(s, cfg, clk, e.op, e.write);
    StepKeepsInv(s, cfg, clk, e.op, e.write);
    var s' := Apply(s, cfg, clk, e.op, e.write).0;
    InvKept(s'.mem, cfg, clk(s'.tick));
    EndedOnDisk(s'.mem, clk(s'.tick), key, t);
  }

  lemma BootRemembers(w: World, write: Write, cfg: Config, clk: Clock, key: string, t: int)
    requires GoodClock(clk) && GoodConfig(cfg) && WorldInv(w, cfg, clk) && w.proc.None?
    requires Remembered(w, key, t) && clk(w.tick + 2) - t <= cfg.ttlMs
    ensures Remembered(Next(w, Boot(write), cfg, clk), key, t)
  {
    hide GoodClock, Inv, Open, Ended, EndedIn, FileOf, Recovery, FileOk, Unlapsed;
    ClockOrder(clk, w.tick + 1, w.tick + 2);
    OpenRecovers(w.disk.value, w.tick, cfg, clk, write);
    RecoveryRemembers(w.disk.value, cfg, clk, w.tick, key, t);
    var (disk, mem) := Open(w.disk, w.tick, cfg, clk, write);
    if mem.Some? {
      InvKept(mem.value, cfg, clk(w.tick + 2));
      EndedInMemory(mem.value, clk(w.tick + 2), key, t);
    }
  }

  lemma NextRemembers(w: World, e: Event, cfg: Config, clk: Clock, key: string, t: int)
    requires GoodClock(clk) && GoodConfig(cfg) && WorldInv(w, cfg, clk) && Enabled(w, e)
    requires Remembered(w, key, t) && clk(Next(w, e, cfg, clk).tick) - t <= cfg.ttlMs
    ensures Remembered(Next(w, e, cfg, clk), key, t)
  {
    hide GoodClock, WorldInv, Apply, Open, Ended, EndedIn, Admissible;
    if e.Call? && w.proc.Some? {
      CallRemembers(w, e, cfg, clk, key, t);
    } else if e.Boot? && w.proc.None? {
      BootRemembers(w, e.bootWrite, cfg, clk, key, t);
    }
  }

  lemma TicksGrow(w: World, e: Event, cfg: Config, clk: Clock)
    requires GoodClock(clk) && GoodConfig(cfg) && WorldInv(w, cfg, clk) && Enabled(w, e)
    ensures w.tick <= Next(w, e, cfg, clk).tick
  {
    hide GoodClock, Inv, Apply, Open, DiskOk, Agrees;
    if e.Call? && w.proc.Some? {
      StepKeepsInv(Store(w.proc.value, w.disk, w.tick), cfg, clk, e.op, e.write);
    }
  }

  /**
    Never silently resurrected: once a termination is on disk, every later moment of the run within
    the TTL of it, through crashes, failed writes and reopenings, still has it on disk and in memory.
   */
  lemma {:induction false} TerminationOutlivesRuns(w: World, events: seq<Event>, cfg: Config, clk: Clock,
                                                   key: string, t: int)
    requires GoodClock(clk) && GoodConfig(cfg) && WorldInv(w, cfg, clk) && Legal(w, events, cfg, clk)
    requires Remembered(w, key, t) && clk(Run(w, events, cfg, clk).tick) - t <= cfg.ttlMs
    ensures WorldInv(Run(w, events, cfg, clk), cfg, clk) && Remembered(Run(w, events, cfg, clk), key, t)
  {
    hide GoodClock, WorldInv, Next, Enabled, Remembered;
    if events != [] {
      var init, last := events[..|events| - 1], events[|events| - 1];
      assert forall i :: 0 <= i < |init| ==> init[..i] == events[..i] && init[i] == events[i];
      var before := Run(w, init, cfg, clk);
      assert Enabled(before, last);
      KeptSoFar(w, init, cfg, clk);
      TicksGrow(before, last, cfg, clk);
      ClockOrder(clk, before.tick, Run(w, events, cfg, clk).tick);
      TerminationOutlivesRuns(w, init, cfg, clk, key, t);
      NextRemembers(before, last, cfg, clk, key, t);
      NextKeepsWorld(before, last, cfg, clk);
    }
  }

  lemma {:induction false} KeptSoFar(w: World, events: seq<Event>, cfg: Config, clk: Clock)
    requires GoodClock(clk) && GoodConfig(cfg) && WorldInv(w, cfg, clk) && Legal(w, events, cfg, clk)
    ensures WorldInv(Run(w, events, cfg, clk), cfg, clk)
  {
    hide GoodClock, WorldInv, Next, Enabled;
    if events != [] {
      var init := events[..|events| - 1];
      assert forall i :: 0 <= i < |init| ==> init[..i] == events[..i] && init[i] == events[i];
      KeptSoFar(w, init, cfg, clk);
      assert Enabled(Run(w, init, cfg, clk), events[|events| - 1]);
      NextKeepsWorld(Run(w, init, cfg, clk), events[|events| - 1], cfg, clk);
    }
  }
}
