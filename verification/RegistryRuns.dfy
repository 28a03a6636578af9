/** Whole runs of the registry: operations, crashes and reopenings in any order. */
module RegistryRuns {
  import opened Prelude
  import opened Text
  import opened SessionId
  import opened Registry
  import opened RegistryOrder
  import opened RegistryInvariant
  import opened RegistryRecovery

  // ---- memory against disk ----

  /**
    The memory is the file without the entries that were expired at some earlier reading: resolve
    may evict and then report a terminated session, or fail to mint, without writing.
   */
  ghost predicate Agrees(m: Memory, disk: Option<seq<Entry>>, cfg: Config, now: int) {
    match disk
    case None => FileOf(m) == []
    case Some(file) => exists h :: 0 <= h <= now && FileOf(m) == UnexpiredFile(file, h, cfg.ttlMs)
  }

  ghost predicate DiskOk(disk: Option<seq<Entry>>, now: int) {
    disk.Some? ==> FileOk(disk.value, now)
  }

  lemma {:induction false} NothingExpiredAtZero(file: seq<Entry>, ttlMs: int)
    requires ttlMs > 0 && forall i :: 0 <= i < |file| ==> file[i].lastUsedMs > 0
    ensures UnexpiredFile(file, 0, ttlMs) == file
  {
    if file != [] {
      NothingExpiredAtZero(file[1..], ttlMs);
    }
  }

  lemma {:induction false} UnexpiredTwice(file: seq<Entry>, h: int, now: int, ttlMs: int)
    requires h <= now
    ensures UnexpiredFile(UnexpiredFile(file, h, ttlMs), now, ttlMs) == UnexpiredFile(file, now, ttlMs)
  {
    if file != [] {
      UnexpiredTwice(file[1..], h, now, ttlMs);
      var rest := UnexpiredFile(file[1..], h, ttlMs);
      if !Expired(file[0], h, ttlMs) {
        assert UnexpiredFile(file, h, ttlMs)[1..] == rest;
      } else {
        assert UnexpiredFile(file, h, ttlMs) == rest;
      }
    }
  }

  lemma {:induction false} RecoveryForgetsExpired(file: seq<Entry>, h: int, now: int, later: int, ttlMs: int)
    requires h <= now <= later
    ensures UnexpiredFile(RecoveredFile(UnexpiredFile(file, h, ttlMs), now), later, ttlMs)
            == UnexpiredFile(RecoveredFile(file, now), later, ttlMs)
  {
    if file != [] {
      RecoveryForgetsExpired(file[1..], h, now, later, ttlMs);
      var rest := UnexpiredFile(file[1..], h, ttlMs);
      assert RecoveredFile(file, now)[1..] == RecoveredFile(file[1..], now);
      if !Expired(file[0], h, ttlMs) {
        assert UnexpiredFile(file, h, ttlMs)[1..] == rest;
        var r := RecoveredFile(UnexpiredFile(file, h, ttlMs), now);
        assert r[1..] == RecoveredFile(rest, now);
      } else {
        assert UnexpiredFile(file, h, ttlMs) == rest;
      }
    }
  }

  /** The crash simulation: recovering the file is recovering the memory that was lost. */
  lemma CrashSimulation(m: Memory, file: seq<Entry>, cfg: Config, clk: Clock, tick: nat)
    requires GoodClock(clk) && Agrees(m, Some(file), cfg, clk(tick))
    ensures Recovery(file, cfg, clk, tick) == Recovery(FileOf(m), cfg, clk, tick)
  {
    var h :| 0 <= h <= clk(tick) && FileOf(m) == UnexpiredFile(file, h, cfg.ttlMs);
    ClockOrder(clk, tick, tick + 1);
    RecoveryForgetsExpired(file, h, clk(tick), clk(tick + 1), cfg.ttlMs);
  }

  lemma SnapshotAgrees(m: Memory, cfg: Config, now: int)
    requires WellKept(m, now) && GoodConfig(cfg) && now > 0
    ensures Agrees(m, Some(FileOf(m)), cfg, now)
  {
    hide Sane, KeyOf, NoDup, UnexpiredFile, Snapshot;
    SnapshotFileOk(m, now);
    PositiveTimes(FileOf(m), now);
    NothingExpiredAtZero(FileOf(m), cfg.ttlMs);
  }

  lemma PositiveTimes(file: seq<Entry>, now: int)
    requires FileOk(file, now)
    ensures forall i :: 0 <= i < |file| ==> file[i].lastUsedMs > 0
  {
    hide ValidSessionId, Identity, Trimmed, KeyOf;
  }

  /** Evicting without writing keeps the agreement, because between operations only the TTL evicts. */
  lemma SweepAgrees(m: Memory, disk: Option<seq<Entry>>, cfg: Config, now: int)
    requires Inv(m, cfg, now) && Agrees(m, disk, cfg, now) && now >= 0
    ensures Agrees(Evicted(m, now, cfg), disk, cfg, now)
  {
    hide Sane, KeyOf, NoDup;
    EvictedWithinBound(m, now, cfg);
    SnapshotUnexpired(m.entries, m.order, now, cfg.ttlMs);
    var m' := Evicted(m, now, cfg);
    SnapshotFrame(m.entries, m'.entries, m'.order);
    assert FileOf(m') == UnexpiredFile(FileOf(m), now, cfg.ttlMs);
    if disk.Some? {
      var h :| 0 <= h <= now && FileOf(m) == UnexpiredFile(disk.value, h, cfg.ttlMs);
      UnexpiredTwice(disk.value, h, now, cfg.ttlMs);
    }
  }

  // ---- one operation ----

  /** An operation either commits its memory, or leaves the file alone. */
  predicate Committed(s: Store, s': Store) {
    s'.disk == Some(FileOf(s'.mem))
  }

  /** Operations that write nothing: the memory is unchanged or only swept of expired entries. */
  ghost predicate Unwritten(s: Store, s': Store, cfg: Config, clk: Clock) {
    && s'.disk == s.disk && s'.mem.failed == s.mem.failed
    && (FileOf(s'.mem) == FileOf(s.mem)
        || (Ready(s.mem) && s.tick < s'.tick && FileOf(s'.mem) == FileOf(Evicted(s.mem, clk(s.tick), cfg))))
  }

  /** Every operation commits atomically, writes nothing, or fails for good. */
  lemma StepOnDisk(s: Store, cfg: Config, clk: Clock, op: Op, w: Write)
    ensures var (s', reply) := Apply(s, cfg, clk, op, w);
            || (Committed(s, s') && (s'.mem.failed <==> w != Written || s.mem.failed))
            || Unwritten(s, s', cfg, clk)
            || (s'.disk == s.disk && s'.mem.failed && reply == Refused)
  {
    hide EvictedOrder, Restrict, KeyOf, Identity, Touch, Snapshot;
  }

  lemma StepKeepsDisk(s: Store, cfg: Config, clk: Clock, op: Op, w: Write)
    requires GoodClock(clk) && GoodConfig(cfg) && Inv(s.mem, cfg, clk(s.tick)) && Admissible(s.mem, op)
    requires DiskOk(s.disk, clk(s.tick)) && (!s.mem.failed ==> Agrees(s.mem, s.disk, cfg, clk(s.tick)))
    ensures var s' := Apply(s, cfg, clk, op, w).0;
            DiskOk(s'.disk, clk(s'.tick)) && (!s'.mem.failed ==> Agrees(s'.mem, s'.disk, cfg, clk(s'.tick)))
  {
    hide GoodClock, Inv, WellKept, Evicted, FileOk, Agrees, Apply, FileOf;
    var s' := Apply(s, cfg, clk, op, w).0;
    var now := clk(s'.tick);
    StepOnDisk(s, cfg, clk, op, w);
    StepKeepsInv(s, cfg, clk, op, w);
    ClockOrder(clk, s.tick, s'.tick);
    InvKept(s'.mem, cfg, now);
    if Committed(s, s') {
      SnapshotFileOk(s'.mem, now);
      SnapshotAgrees(s'.mem, cfg, now);
    } else {
      if s.disk.Some? {
        FileOkLater(s.disk.value, clk(s.tick), now);
      }
      if Unwritten(s, s', cfg, clk) && !s.mem.failed {
        SweepAgrees(s.mem, s.disk, cfg, clk(s.tick));
        AgreesLater(s.mem, s'.mem, s.disk, cfg, clk(s.tick), now);
        AgreesLater(Evicted(s.mem, clk(s.tick), cfg), s'.mem, s.disk, cfg, clk(s.tick), now);
      }
    }
  }

  lemma AgreesLater(m: Memory, m': Memory, disk: Option<seq<Entry>>, cfg: Config, now: int, later: int)
    requires Agrees(m, disk, cfg, now) && now <= later
    ensures FileOf(m') == FileOf(m) ==> Agrees(m', disk, cfg, later)
  {
    hide UnexpiredFile, FileOf;
  }

  // ---- durability of what was answered ----

  /** The entry of a key in the file, if any. */
  predicate Recorded(disk: Option<seq<Entry>>, key: string, id: string) {
    disk.Some? && exists e :: e in disk.value && EntryKey(e) == key && e.sessionId == id
  }

  /** The two readings a fresh Create is exposed to: entry time, and the eviction that follows. */
  predicate OutlivesOwnEviction(s: Store, cfg: Config, clk: Clock) {
    clk(s.tick + 3) - clk(s.tick + 2) <= cfg.ttlMs
  }

  lemma RecordedIff(m: Memory, now: int, key: string, id: string)
    requires WellKept(m, now)
    ensures Recorded(Some(FileOf(m)), key, id) <==> key in m.entries && m.entries[key].sessionId == id
  {
    hide ValidSessionId, Identity, Trimmed, NoDup, KeyOf;
    var file := FileOf(m);
    SnapshotMembers(m.entries, m.order);
    if key in m.entries {
      var i :| 0 <= i < |m.order| && m.order[i] == key;
      assert file[i] in file;
    }
    forall e | e in file ensures EntryKey(e) in m.entries && m.entries[EntryKey(e)] == e {
      var i :| 0 <= i < |file| && file[i] == e;
      assert m.order[i] in m.order;
    }
  }

  /**
    Every identifier a caller is given is on disk under its own key before the call returns: for
    Acquire always, for Create exactly unless the clock jumped by more than the TTL between
    stamping the new entry and evicting.
   */
  lemma AnsweredIsDurable(s: Store, cfg: Config, clk: Clock, p: string, c: string, lease: bool,
                          mint: Option<string>, w: Write)
    requires GoodClock(clk) && GoodConfig(cfg) && Inv(s.mem, cfg, clk(s.tick)) && Fresh(s.mem, mint)
    requires Resolve(s, cfg, clk, p, c, lease, mint, w).1.Session?
    ensures var (s', reply) := Resolve(s, cfg, clk, p, c, lease, mint, w);
            Recorded(s'.disk, KeyOf(p, c), reply.id)
            <==> lease || KeyOf(p, c) in Evicted(s.mem, clk(s.tick), cfg).entries || OutlivesOwnEviction(s, cfg, clk)
  {
    hide GoodClock, WellKept, Inv, Evicted, Use, Adopt, KeyOf, Identity, Snapshot, ValidSessionId, Trimmed;
    var (s', reply) := Resolve(s, cfg, clk, p, c, lease, mint, w);
    var op := ResolveOp(p, c, lease, mint);
    assert Apply(s, cfg, clk, op, w) == (s', reply);
    StepKeepsInv(s, cfg, clk, op, w);
    InvKept(s'.mem, cfg, clk(s'.tick));
    var key := KeyOf(p, c);
    var swept := Evicted(s.mem, clk(s.tick), cfg);
    RecordedIff(s'.mem, clk(s'.tick), key, reply.id);
    if key in swept.entries {
      UsedEntry(swept, key, lease, clk(s.tick + 1));
    } else {
      var t := clk(s.tick + 2);
      InvKept(s.mem, cfg, clk(s.tick));
      EvictedInv(s.mem, cfg, clk(s.tick), clk(s.tick));
      AdoptedStays(swept, cfg, p, c, mint.value, lease, clk(s.tick), t, clk(s.tick + 3));
    }
  }

  lemma UsedEntry(m: Memory, key: string, lease: bool, now: int)
    requires key in m.entries
    ensures key in Use(m, key, lease, now).entries
    ensures Use(m, key, lease, now).entries[key].sessionId == m.entries[key].sessionId
  {
  }

  /** The entry just added sits at the tail: only its own expiry can evict it. */
  lemma AdoptedStays(m: Memory, cfg: Config, p: string, c: string, id: string, lease: bool, now: int, t: int,
                     later: int)
    requires Inv(m, cfg, now) && GoodConfig(cfg) && KeyOf(p, c) !in m.entries
    ensures var added := Adopt(m, p, c, id, lease, t);
            var final := Evicted(added, later, cfg);
            && (KeyOf(p, c) in final.entries <==> lease || later - t <= cfg.ttlMs)
            && (KeyOf(p, c) in final.entries ==> final.entries[KeyOf(p, c)].sessionId == id)
  {
    hide ValidSessionId, Identity, Trimmed, KeyOf, EvictedOrder, NoDup, IdleCount;
    var key := KeyOf(p, c);
    var added := Adopt(m, p, c, id, lease, t);
    assert key !in m.order;
    RemoveAbsent(m.order, key);
    IdleCountAgrees(m.entries, added.entries, m.order);
    TailEviction(added.entries, m.order, key, later, cfg);
  }

  /** Within the idle bound, eviction takes the key at the tail only if it has expired. */
  lemma TailEviction(entries: map<string, Entry>, order: seq<string>, key: string, now: int, cfg: Config)
    requires key in entries && key !in order && IdleCount(entries, order) <= cfg.maxIdle && cfg.maxIdle > 0
    ensures key in EvictedOrder(entries, order + [key], now, cfg) <==> !Expired(entries[key], now, cfg.ttlMs)
  {
    hide DropIdle, Unexpired, Expired, IdleCount;
    var rest := Unexpired(entries, order, now, cfg.ttlMs);
    UnexpiredAppend(entries, order, key, now, cfg.ttlMs);
    IdleCountUnexpired(entries, order, now, cfg.ttlMs);
    IdleCountAppend(entries, rest, key);
    if !Expired(entries[key], now, cfg.ttlMs) {
      TailStays(entries, rest, key, Excess(IdleCount(entries, rest + [key]), cfg.maxIdle));
    } else {
      assert rest + [] == rest;
    }
  }

  lemma {:induction false} RemoveAbsent(order: seq<string>, key: string)
    requires key !in order
    ensures Remove(order, key) == order
  {
    if order != [] {
      RemoveAbsent(order[1..], key);
    }
  }

  lemma {:induction false} UnexpiredAppend(entries: map<string, Entry>, order: seq<string>, key: string, now: int,
                                           ttlMs: int)
    ensures Unexpired(entries, order + [key], now, ttlMs)
            == Unexpired(entries, order, now, ttlMs)
               + (if key in entries && !Expired(entries[key], now, ttlMs) then [key] else [])
  {
    var r := order + [key];
    if order == [] {
      assert r[1..] == [];
    } else {
      UnexpiredAppend(entries, order[1..], key, now, ttlMs);
      assert r[1..] == order[1..] + [key];
    }
  }

  lemma {:induction false} TailStays(entries: map<string, Entry>, order: seq<string>, key: string, n: nat)
    requires n <= IdleCount(entries, order)
    ensures key in DropIdle(entries, order + [key], n)
  {
    var r := order + [key];
    if n != 0 && order != [] {
      assert r[1..] == order[1..] + [key];
      if IsIdle(entries, order[0]) {
        TailStays(entries, order[1..], key, n - 1);
      } else {
        TailStays(entries, order[1..], key, n);
      }
    }
  }

  /** A Create that answers an identifier nobody will find: the clock jumps past the TTL inside the call. */
  lemma CreateCanForget(id: string)
    requires ValidSessionId(id) && Trimmed(id)
    ensures var clk: Clock := i => if i <= 2 then 1 else 12;
            var cfg := Config(10, 1);
            var s := Store(EMPTY, None, 0);
            var (s', reply) := Resolve(s, cfg, clk, "p", "c", false, Some(id), Written);
            GoodClock(clk) && Inv(s.mem, cfg, clk(0)) && Fresh(s.mem, Some(id))
            && reply == Session(id) && s'.mem.entries == map[] && s'.disk == Some([])
  {
    hide ValidSessionId;
    var clk: Clock := i => if i <= 2 then 1 else 12;
    var cfg := Config(10, 1);
    var key := KeyOf("p", "c");
    assert Trim("p") == "p" && Trim("c") == "c";
    assert Evicted(EMPTY, 1, cfg) == EMPTY;
    var added := Adopt(EMPTY, "p", "c", id, false, 1);
    assert added.order == [key];
    assert added.order[1..] == [];
    assert Unexpired(added.entries, added.order, 12, 10) == [];
    assert Evicted(added, 12, cfg).entries == map[];
  }

  // ---- runs ----

  datatype World = World(proc: Option<Memory>, disk: Option<seq<Entry>>, tick: nat)

  datatype Event = Call(op: Op, write: Write) | Crash | Boot(bootWrite: Write)

  /** A crash loses the memory; the file lock lets a new process start only when none runs. */
  function Next(w: World, e: Event, cfg: Config, clk: Clock): World {
    match e
    case Call(op, write) =>
      if w.proc.None? then w
      else
        var s := Apply(Store(w.proc.value, w.disk, w.tick), cfg, clk, op, write).0;
        World(Some(s.mem), s.disk, s.tick)
    case Crash => w.(proc := None)
    case Boot(write) =>
      if w.proc.Some? then w
      else
        var (disk, mem) := Open(w.disk, w.tick, cfg, clk, write);
        World(mem, disk, w.tick + 2)
  }

  ghost predicate Enabled(w: World, e: Event) {
    e.Call? && w.proc.Some? ==> Admissible(w.proc.value, e.op)
  }

  function Run(w: World, events: seq<Event>, cfg: Config, clk: Clock): World {
    if events == [] then w
    else Next(Run(w, events[..|events| - 1], cfg, clk), events[|events| - 1], cfg, clk)
  }

  ghost predicate Legal(w: World, events: seq<Event>, cfg: Config, clk: Clock) {
    forall i :: 0 <= i < |events| ==> Enabled(Run(w, events[..i], cfg, clk), events[i])
  }

  ghost predicate WorldInv(w: World, cfg: Config, clk: Clock) {
    && DiskOk(w.disk, clk(w.tick))
    && (w.proc.Some? ==>
          Inv(w.proc.value, cfg, clk(w.tick))
          && (!w.proc.value.failed ==> Agrees(w.proc.value, w.disk, cfg, clk(w.tick))))
  }

  const PRISTINE: World := World(None, None, 0)

  lemma EmptyInv(cfg: Config, now: int)
    requires GoodConfig(cfg)
    ensures Inv(EMPTY, cfg, now) && FileOf(EMPTY) == []
  {
  }

  lemma {:induction false} UnlapsedWithoutActive(file: seq<Entry>, now: int, ttlMs: int)
    requires ttlMs > 0 && forall i :: 0 <= i < |file| ==> file[i].state != Active
    ensures forall later :: later >= now ==>
              UnexpiredFile(Unlapsed(file, now, ttlMs), later, ttlMs) == UnexpiredFile(file, later, ttlMs)
  {
    forall later | later >= now
      ensures UnexpiredFile(Unlapsed(file, now, ttlMs), later, ttlMs) == UnexpiredFile(file, later, ttlMs)
    {
      LapsedAreEvicted(file, now, later, ttlMs);
      RecoveredUnchanged(file, now);
    }
  }

  lemma {:induction false} RecoveredUnchanged(file: seq<Entry>, now: int)
    requires forall i :: 0 <= i < |file| ==> file[i].state != Active
    ensures RecoveredFile(file, now) == file
  {
    if file != [] {
      RecoveredUnchanged(file[1..], now);
    }
  }

  /** A reopened registry that had nothing to write still agrees with the file it read. */
  lemma OpenAgrees(m: Memory, file: seq<Entry>, cfg: Config, clk: Clock, tick: nat)
    requires GoodClock(clk) && GoodConfig(cfg)
    requires Inv(m, cfg, clk(tick + 2)) && FileOf(m) == Recovery(file, cfg, clk, tick)
    requires FileOf(m) == Unlapsed(file, clk(tick), cfg.ttlMs)
    requires forall i :: 0 <= i < |file| ==> file[i].state != Active
    ensures Agrees(m, Some(file), cfg, clk(tick + 2))
  {
    hide GoodClock, Sane, KeyOf, NoDup, Unlapsed, UnexpiredFile;
    var later := clk(tick + 1);
    ClockOrder(clk, tick, tick + 1);
    ClockOrder(clk, tick + 1, tick + 2);
    UnlapsedWithoutActive(file, clk(tick), cfg.ttlMs);
    RecoveredUnchanged(file, clk(tick));
    EvictFileUnexpired(file, later, cfg, FileOf(m));
    assert FileOf(m) == UnexpiredFile(file, later, cfg.ttlMs);
  }

  lemma EvictFileUnexpired(file: seq<Entry>, later: int, cfg: Config, kept: seq<Entry>)
    requires kept == EvictFile(file, later, cfg)
    requires UnexpiredFile(kept, later, cfg.ttlMs) == UnexpiredFile(file, later, cfg.ttlMs)
    ensures kept == UnexpiredFile(file, later, cfg.ttlMs)
  {
    var live := UnexpiredFile(file, later, cfg.ttlMs);
    DropIdleFileShrinks(live, Excess(IdleInFile(live), cfg.maxIdle));
    UnexpiredFileShrinks(kept, later, cfg.ttlMs);
  }

  lemma {:induction false} DropIdleFileShrinks(file: seq<Entry>, n: nat)
    ensures |DropIdleFile(file, n)| <= |file|
    ensures |DropIdleFile(file, n)| == |file| ==> DropIdleFile(file, n) == file
  {
    if n != 0 && file != [] {
      DropIdleFileShrinks(file[1..], n);
      DropIdleFileShrinks(file[1..], n - 1);
    }
  }

  lemma {:induction false} UnexpiredFileShrinks(file: seq<Entry>, now: int, ttlMs: int)
    ensures |UnexpiredFile(file, now, ttlMs)| <= |file|
  {
    if file != [] {
      UnexpiredFileShrinks(file[1..], now, ttlMs);
    }
  }

  lemma BootKeepsWorld(w: World, write: Write, cfg: Config, clk: Clock)
    requires GoodClock(clk) && GoodConfig(cfg) && WorldInv(w, cfg, clk) && w.proc.None?
    ensures WorldInv(Next(w, Boot(write), cfg, clk), cfg, clk)
  {
    hide GoodClock, Inv, FileOk, Agrees, Recovery, Open, FileOf, Unlapsed;
    var (disk, mem) := Open(w.disk, w.tick, cfg, clk, write);
    var now := clk(w.tick + 2);
    ClockOrder(clk, w.tick, w.tick + 2);
    match w.disk
    case None =>
      EmptyInv(cfg, now);
      OpenAbsent(w.tick, cfg, clk, write);
    case Some(file) =>
      OpenRecovers(file, w.tick, cfg, clk, write);
      FileOkLater(file, clk(w.tick), now);
      if mem.Some? {
        InvKept(mem.value, cfg, now);
        SnapshotAgrees(mem.value, cfg, now);
        if disk != Some(FileOf(mem.value)) {
          OpenAgrees(mem.value, file, cfg, clk, w.tick);
        }
      }
  }

  lemma OpenAbsent(tick: nat, cfg: Config, clk: Clock, write: Write)
    ensures Open(None, tick, cfg, clk, write) == (None, Some(EMPTY))
    ensures Agrees(EMPTY, None, cfg, clk(tick + 2))
  {
  }

  lemma NextKeepsWorld(w: World, e: Event, cfg: Config, clk: Clock)
    requires GoodClock(clk) && GoodConfig(cfg) && WorldInv(w, cfg, clk) && Enabled(w, e)
    ensures WorldInv(Next(w, e, cfg, clk), cfg, clk)
  {
    hide GoodClock, Inv, DiskOk, Agrees, Apply, Admissible, Open;
    match e
    case Call(op, write) =>
      if w.proc.Some? {
        var s := Store(w.proc.value, w.disk, w.tick);
        StepKeepsInv(s, cfg, clk, op, write);
        StepKeepsDisk(s, cfg, clk, op, write);
      }
    case Crash =>
    case Boot(write) =>
      if w.proc.None? {
        BootKeepsWorld(w, write, cfg, clk);
      }
  }

  /** The invariant of every reachable world. */
  lemma {:induction false} RunsKeepWorld(events: seq<Event>, cfg: Config, clk: Clock)
    requires GoodClock(clk) && GoodConfig(cfg) && Legal(PRISTINE, events, cfg, clk)
    ensures WorldInv(Run(PRISTINE, events, cfg, clk), cfg, clk)
  {
    hide GoodClock, WorldInv, Enabled, Next;
    if events == [] {
      PristineInv(cfg, clk);
    } else {
      var init, last := events[..|events| - 1], events[|events| - 1];
      assert forall i :: 0 <= i < |init| ==> init[..i] == events[..i] && init[i] == events[i];
      RunsKeepWorld(init, cfg, clk);
      NextKeepsWorld(Run(PRISTINE, init, cfg, clk), last, cfg, clk);
    }
  }

  lemma PristineInv(cfg: Config, clk: Clock)
    ensures WorldInv(PRISTINE, cfg, clk)
  {
  }

  /**
    After any run, whatever crashed or failed, a reopening whose write succeeds is never refused,
    and the registry it yields is exactly the recovery of the file.  If the last process had not
    failed, that is the recovery of the memory it lost.
   */
  lemma ReopenAfterAnyRun(events: seq<Event>, cfg: Config, clk: Clock)
    requires GoodClock(clk) && GoodConfig(cfg) && Legal(PRISTINE, events, cfg, clk)
    ensures var w := Run(PRISTINE, events, cfg, clk);
            var lost := if w.proc.Some? && !w.proc.value.failed then Some(FileOf(w.proc.value)) else w.disk;
            var m := Open(w.disk, w.tick, cfg, clk, Written).1;
            && m.Some? && Ready(m.value) && Inv(m.value, cfg, clk(w.tick + 2))
            && FileOf(m.value) == Recovery(if lost.None? then [] else lost.value, cfg, clk, w.tick)
  {
    hide GoodClock, Inv, FileOk, Recovery, Open, FileOf, Run, Legal;
    RunsKeepWorld(events, cfg, clk);
    var w := Run(PRISTINE, events, cfg, clk);
    EmptyInv(cfg, clk(w.tick + 2));
    RecoveryOfNothing(cfg, clk, w.tick);
    match w.disk
    case None => OpenAbsent(w.tick, cfg, clk, Written);
    case Some(file) =>
      OpenRecovers(file, w.tick, cfg, clk, Written);
      if w.proc.Some? && !w.proc.value.failed {
        CrashSimulation(w.proc.value, file, cfg, clk, w.tick);
      }
  }

  lemma RecoveryOfNothing(cfg: Config, clk: Clock, tick: nat)
    ensures Recovery([], cfg, clk, tick) == []
  {
  }
}
