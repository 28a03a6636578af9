/**
  The registry under any clock, running backwards included: which readings make it write a state
  file that it will refuse to load, and that no others do.
 */
module RegistryClock {
  import opened Prelude
  import opened Text
  import opened SessionId
  import opened Registry
  import opened RegistryOrder
  import opened RegistryInvariant
  import opened RegistryRecovery
  import opened RegistryRuns
  import opened RegistryIdentity

  // ---- what load accepts ----

  /** An entry as it should be in every respect but its times. */
  ghost predicate Formed(e: Entry) {
    && ValidSessionId(e.sessionId) && Trimmed(e.sessionId)
    && Trim(e.principal) != "" && Trim(e.conversation) != ""
    && NUL !in e.principal && NUL !in e.conversation
    && e.leases >= 0 && (e.state == Active <==> e.leases > 0)
  }

  predicate Timed(e: Entry) {
    0 < e.createdMs <= e.lastUsedMs
  }

  /** A memory as it should be in every respect but the times of its entries. */
  ghost predicate Shaped(m: Memory) {
    && Listing(m)
    && (forall k :: k in m.entries ==> Formed(m.entries[k]) && k == EntryKey(m.entries[k]))
    && DistinctIds(m.entries)
  }

  ghost predicate Timely(m: Memory) {
    forall k :: k in m.entries ==> Timed(m.entries[k])
  }

  lemma AcceptableIff(e: Entry)
    ensures Acceptable(e) <==> Formed(e) && Timed(e)
  {
    hide ValidSessionId;
  }

  /** What the source demands of a state file, for any file at any reading. */
  ghost predicate Loadable(file: seq<Entry>, now: int, ttlMs: int) {
    && (forall i :: 0 <= i < |file| ==> Acceptable(file[i]))
    && (forall i, j :: 0 <= i < j < |file| ==> file[i].sessionId != file[j].sessionId)
    && (forall i, j :: 0 <= i < j < |file| && EntryKey(file[i]) == EntryKey(file[j]) ==> Lapsed(file[i], now, ttlMs))
  }

  function LoadedMemory(l: Loading): Memory {
    Memory(l.entries, l.order, false, false)
  }

  ghost predicate Loaded(l: Loading, file: seq<Entry>, now: int, ttlMs: int) {
    && Shaped(LoadedMemory(l))
    && FileOf(LoadedMemory(l)) == Unlapsed(file, now, ttlMs)
    && Seen(l, file, now, ttlMs)
  }

  ghost predicate Seen(l: Loading, file: seq<Entry>, now: int, ttlMs: int) {
    && (forall k :: k in l.entries
                    <==> exists i :: 0 <= i < |file| && EntryKey(file[i]) == k && !Lapsed(file[i], now, ttlMs))
    && (forall id :: id in l.ids <==> exists i :: 0 <= i < |file| && file[i].sessionId == id)
    && (forall k :: k in l.entries ==> l.entries[k].sessionId in l.ids)
    && (l.recovered <==> exists i :: 0 <= i < |file| && file[i].state == Active)
  }

  lemma RecoveredFormed(e: Entry, now: int)
    requires Formed(e)
    ensures var r := Recovered(e, now); Formed(r) && EntryKey(r) == EntryKey(e) && r.sessionId == e.sessionId
  {
    hide ValidSessionId, Trimmed, Trim;
  }

  lemma PutShaped(m: Memory, key: string, e: Entry, order: seq<string>)
    requires Shaped(m) && Formed(e) && key == EntryKey(e)
    requires forall k :: k in m.entries && k != key ==> m.entries[k].sessionId != e.sessionId
    requires NoDup(order) && forall k :: k in order <==> k in m.order || k == key
    ensures Shaped(m.(entries := m.entries[key := e], order := order))
  {
    hide Formed, KeyOf, NoDup;
  }

  lemma SeenStep(l: Loading, file: seq<Entry>, e: Entry, now: int, ttlMs: int)
    requires Seen(l, file, now, ttlMs) && LoadOne(l, e, now, ttlMs).Some?
    ensures Seen(LoadOne(l, e, now, ttlMs).value, file + [e], now, ttlMs)
  {
    hide KeyOf, Acceptable;
    var next, l' := file + [e], LoadOne(l, e, now, ttlMs).value;
    assert next[|file|] == e;
    assert forall i :: 0 <= i < |file| ==> next[i] == file[i];
    RecoveredKeepsId(e, now);
    forall k ensures k in l'.entries
                     <==> exists i :: 0 <= i < |next| && EntryKey(next[i]) == k && !Lapsed(next[i], now, ttlMs)
    {
      if k in l.entries {
        var i :| 0 <= i < |file| && EntryKey(file[i]) == k && !Lapsed(file[i], now, ttlMs);
        assert next[i] == file[i];
      }
    }
    if l.recovered {
      var i :| 0 <= i < |file| && file[i].state == Active;
      assert next[i].state == Active;
    }
  }

  /** The next entry is taken exactly when it is acceptable and neither its id nor its live key was seen. */
  lemma LoadStep(l: Loading, file: seq<Entry>, e: Entry, now: int, ttlMs: int)
    requires Loaded(l, file, now, ttlMs)
    ensures LoadOne(l, e, now, ttlMs).Some?
            <==> Acceptable(e) && forall i :: 0 <= i < |file| ==>
                   && file[i].sessionId != e.sessionId
                   && (EntryKey(file[i]) == EntryKey(e) ==> Lapsed(file[i], now, ttlMs))
    ensures LoadOne(l, e, now, ttlMs).Some? ==> Loaded(LoadOne(l, e, now, ttlMs).value, file + [e], now, ttlMs)
  {
    hide Formed, KeyOf, NoDup, Acceptable, Snapshot, Recovered, Lapsed;
    assert (file + [e])[..|file|] == file;
    var m, key := LoadedMemory(l), EntryKey(e);
    if LoadOne(l, e, now, ttlMs).Some? {
      SeenStep(l, file, e, now, ttlMs);
      AcceptableIff(e);
      RecoveredFormed(e, now);
      if !Lapsed(e, now, ttlMs) {
        assert key !in m.order;
        AppendNoDup(l.order, key);
        SnapshotAppend(l.entries, l.order, key, Recovered(e, now));
        PutShaped(m, key, Recovered(e, now), l.order + [key]);
      } else {
        assert Unlapsed(file, now, ttlMs) + [] == Unlapsed(file, now, ttlMs);
      }
    }
  }

  lemma LoadableStep(file: seq<Entry>, e: Entry, now: int, ttlMs: int)
    ensures Loadable(file + [e], now, ttlMs)
            <==> Loadable(file, now, ttlMs) && Acceptable(e) && forall i :: 0 <= i < |file| ==>
                   && file[i].sessionId != e.sessionId
                   && (EntryKey(file[i]) == EntryKey(e) ==> Lapsed(file[i], now, ttlMs))
  {
    hide KeyOf, Acceptable, Lapsed;
    var next := file + [e];
    assert next[|file|] == e;
    assert forall i :: 0 <= i < |file| ==> next[i] == file[i];
  }

  /**
    Exactly which files are loaded: every entry acceptable, no session id twice, and no key twice
    unless the earlier entry is a terminated one past its TTL.
   */
  lemma {:induction false} LoadExact(file: seq<Entry>, now: int, ttlMs: int)
    ensures LoadAll(file, now, ttlMs).Some? <==> Loadable(file, now, ttlMs)
    ensures LoadAll(file, now, ttlMs).Some? ==> Loaded(LoadAll(file, now, ttlMs).value, file, now, ttlMs)
  {
    hide LoadOne, KeyOf, Acceptable, Lapsed, Loadable, Loaded;
    if file == [] {
      NothingLoaded(now, ttlMs);
    } else {
      var init, e := file[..|file| - 1], file[|file| - 1];
      assert init + [e] == file;
      LoadExact(init, now, ttlMs);
      LoadableStep(init, e, now, ttlMs);
      if LoadAll(init, now, ttlMs).Some? {
        LoadStep(LoadAll(init, now, ttlMs).value, init, e, now, ttlMs);
      }
    }
  }

  lemma NothingLoaded(now: int, ttlMs: int)
    ensures Loadable([], now, ttlMs) && Loaded(Loading(map[], [], {}, false), [], now, ttlMs)
  {
  }

  // ---- files a registry writes, under any clock ----

  ghost predicate FileFormed(file: seq<Entry>) {
    && (forall i :: 0 <= i < |file| ==> Formed(file[i]))
    && (forall i, j :: 0 <= i < j < |file| ==>
          EntryKey(file[i]) != EntryKey(file[j]) && file[i].sessionId != file[j].sessionId)
  }

  predicate FileTimed(file: seq<Entry>) {
    forall i :: 0 <= i < |file| ==> Timed(file[i])
  }

  lemma ShapedFile(m: Memory)
    requires Shaped(m)
    ensures FileFormed(FileOf(m)) && (FileTimed(FileOf(m)) <==> Timely(m))
  {
    hide Formed, Timed, KeyOf, NoDup, Snapshot;
    SnapshotMembers(m.entries, m.order);
    var file := FileOf(m);
    assert forall i :: 0 <= i < |m.order| ==> m.order[i] in m.order;
    forall i, j | 0 <= i < j < |file|
      ensures EntryKey(file[i]) != EntryKey(file[j]) && file[i].sessionId != file[j].sessionId
    {
      NoDupIndices(m.order, i, j);
    }
    if FileTimed(file) {
      forall k | k in m.entries ensures Timed(m.entries[k]) {
        var i :| 0 <= i < |m.order| && m.order[i] == k;
        assert Timed(file[i]);
      }
    }
  }

  /** Such a file is loaded at every reading or refused at every reading: the times alone decide. */
  lemma TimesDecide(file: seq<Entry>, now: int, ttlMs: int)
    requires FileFormed(file)
    ensures LoadAll(file, now, ttlMs).Some? <==> FileTimed(file)
  {
    hide Formed, Timed, Acceptable, KeyOf, LoadAll;
    LoadExact(file, now, ttlMs);
    forall i | 0 <= i < |file| ensures Acceptable(file[i]) <==> Timed(file[i]) {
      AcceptableIff(file[i]);
    }
  }

  // ---- what each operation stamps ----

  /** The standing invariant without the times. */
  ghost predicate Standing(m: Memory, cfg: Config) {
    Shaped(m) && IdleCount(m.entries, m.order) <= cfg.maxIdle
  }

  /** A time written into an entry, and the reading of the eviction that follows if it is idle by then. */
  datatype Stamp = Stamp(key: string, createdMs: int, readMs: int, sweepMs: Option<int>)

  function StampOf(s: Store, cfg: Config, clk: Clock, op: Op): Option<Stamp> {
    if !Ready(s.mem) || op.CloseOp? || op.LookupOp? then None
    else
      var key := KeyOf(op.principal, op.conversation);
      var known := key in s.mem.entries;
      match op
      case ResolveOp(p, c, lease, mint) =>
        if !Identity(p, c) then None
        else if known && !Expired(s.mem.entries[key], clk(s.tick), cfg.ttlMs) then
          if s.mem.entries[key].state == Terminated then None
          else Some(Stamp(key, s.mem.entries[key].createdMs, clk(s.tick + 1), None))
        else if mint.None? then None
        else Some(Stamp(key, clk(s.tick + 2), clk(s.tick + 2), if lease then None else Some(clk(s.tick + 3))))
      case ReferenceOp(_, _) =>
        if !Live(s.mem, key, clk(s.tick), cfg.ttlMs) then None
        else Some(Stamp(key, s.mem.entries[key].createdMs, clk(s.tick + TestReadings(s.mem, key)), None))
      case ReleaseOp(_, _) =>
        if !known || s.mem.entries[key].leases != 1 then None
        else Some(Stamp(key, s.mem.entries[key].createdMs, clk(s.tick), Some(clk(s.tick + 1))))
      case TerminateOp(_, _) =>
        if !known || s.mem.entries[key].leases > 0 then None
        else Some(Stamp(key, s.mem.entries[key].createdMs, clk(s.tick), None))
      case _ => None
  }

  predicate Survives(stamp: Stamp, cfg: Config) {
    stamp.sweepMs.None? || stamp.sweepMs.value - stamp.readMs <= cfg.ttlMs
  }

  /** The stamp is not positive or lies before the creation of its entry, and the entry stays. */
  predicate LocksOut(s: Store, cfg: Config, clk: Clock, op: Op) {
    var stamp := StampOf(s, cfg, clk, op);
    stamp.Some? && !(0 < stamp.value.createdMs <= stamp.value.readMs) && Survives(stamp.value, cfg)
  }

  /** Every entry is as it was, but for the stamped one, which carries the stamp and stays exactly when it survives. */
  ghost predicate Restamped(m: Memory, m': Memory, stamp: Option<Stamp>, cfg: Config) {
    && (stamp.Some? ==> (stamp.value.key in m'.entries <==> Survives(stamp.value, cfg)))
    && forall k :: k in m'.entries ==>
         if stamp.Some? && k == stamp.value.key then
           m'.entries[k].createdMs == stamp.value.createdMs && m'.entries[k].lastUsedMs == stamp.value.readMs
         else
           && k in m.entries && m'.entries[k].createdMs == m.entries[k].createdMs
           && m'.entries[k].lastUsedMs == m.entries[k].lastUsedMs
  }

  lemma EvictedStanding(m: Memory, now: int, cfg: Config)
    requires Shaped(m) && GoodConfig(cfg)
    ensures Standing(Evicted(m, now, cfg), cfg)
    ensures forall k :: k in Evicted(m, now, cfg).entries ==>
              k in m.entries && Evicted(m, now, cfg).entries[k] == m.entries[k]
  {
    hide Formed, KeyOf, NoDup, EvictedOrder;
    EvictedListing(m, now, cfg);
    EvictedBound(m, now, cfg);
  }

  lemma SweptExactly(m: Memory, cfg: Config, now: int, key: string)
    requires Standing(m, cfg)
    ensures key in Evicted(m, now, cfg).entries <==> key in m.entries && !Expired(m.entries[key], now, cfg.ttlMs)
    ensures key in Evicted(m, now, cfg).entries ==> Evicted(m, now, cfg).entries[key] == m.entries[key]
  {
    hide Formed, KeyOf, NoDup, EvictedOrder;
    EvictedWithinBound(m, now, cfg);
  }

  /** Changing state, leases and time of use of a listed entry, with or without moving it to the tail. */
  lemma ChangeShaped(m: Memory, key: string, e: Entry, touch: bool)
    requires Shaped(m) && key in m.entries
    requires e == m.entries[key].(state := e.state, leases := e.leases, lastUsedMs := e.lastUsedMs)
    requires e.leases >= 0 && (e.state == Active <==> e.leases > 0)
    ensures var m' := m.(entries := m.entries[key := e], order := if touch then Touch(m.order, key) else m.order);
            Shaped(m') && IdleCount(m'.entries, m'.order) == IdleCount(m.entries, m.order)
                            - (if IsIdle(m.entries, key) then 1 else 0) + (if e.state == Idle then 1 else 0)
  {
    hide NoDup, Touch, IdleCount, KeyOf;
    PutIdle(m, key, e, touch);
    ChangedFormed(m.entries[key], e);
    PutShaped(m, key, e, if touch then Touch(m.order, key) else m.order);
  }

  lemma ChangedFormed(e: Entry, e': Entry)
    requires Formed(e) && e' == e.(state := e'.state, leases := e'.leases, lastUsedMs := e'.lastUsedMs)
    requires e'.leases >= 0 && (e'.state == Active <==> e'.leases > 0)
    ensures Formed(e') && EntryKey(e') == EntryKey(e)
  {
    hide ValidSessionId, Trimmed, Trim;
  }

  lemma AdoptShaped(m: Memory, p: string, c: string, id: string, lease: bool, now: int)
    requires Shaped(m) && Identity(p, c) && Fresh(m, Some(id))
    ensures Shaped(Adopt(m, p, c, id, lease, now))
  {
    hide NoDup, Touch, IdleCount, ValidSessionId;
    var key := KeyOf(p, c);
    TouchNoDup(m.order, key);
    var e := Leased(Entry(id, Trim(p), Trim(c), Idle, now, now, 0), lease);
    assert Formed(e) && EntryKey(e) == key;
    PutShaped(m, key, e, Touch(m.order, key));
  }

  /** Within the idle bound the entry just moved to the tail goes only by its own expiry. */
  lemma TouchedSurvives(m: Memory, key: string, e: Entry, later: int, cfg: Config)
    requires Standing(m, cfg) && GoodConfig(cfg)
    ensures var m' := m.(entries := m.entries[key := e], order := Touch(m.order, key));
            key in Evicted(m', later, cfg).entries <==> !Expired(e, later, cfg.ttlMs)
  {
    hide Formed, KeyOf, NoDup, EvictedOrder, IdleCount;
    var rest, entries := Remove(m.order, key), m.entries[key := e];
    RemoveNoDup(m.order, key);
    IdleCountRemove(m.entries, m.order, key);
    IdleCountAgrees(m.entries, entries, rest);
    TailEviction(entries, rest, key, later, cfg);
  }

  lemma SweptShapes(s: Store, cfg: Config, clk: Clock, mint: Option<string>)
    requires GoodConfig(cfg) && Standing(s.mem, cfg) && Fresh(s.mem, mint)
    ensures var swept := Evicted(s.mem, clk(s.tick), cfg); Standing(swept, cfg) && Fresh(swept, mint)
  {
    hide Shaped, Evicted, Fresh;
    EvictedStanding(s.mem, clk(s.tick), cfg);
    SweptFresh(s.mem, clk(s.tick), cfg, mint);
  }

  lemma UseStamps(m: Memory, key: string, lease: bool, t: int, cfg: Config)
    requires Standing(m, cfg) && key in m.entries && m.entries[key].state != Terminated
    ensures Standing(Use(m, key, lease, t), cfg)
    ensures Restamped(m, Use(m, key, lease, t), Some(Stamp(key, m.entries[key].createdMs, t, None)), cfg)
  {
    hide NoDup, Touch, IdleCount, KeyOf, Formed;
    UnleasedOrActive(m, key);
    ChangeShaped(m, key, Leased(m.entries[key].(lastUsedMs := t), lease), true);
  }

  lemma UnleasedOrActive(m: Memory, key: string)
    requires Shaped(m) && key in m.entries
    ensures m.entries[key].leases >= 0 && (m.entries[key].state == Active <==> m.entries[key].leases > 0)
  {
    hide ValidSessionId, KeyOf, NoDup;
  }

  lemma AdoptStamps(m: Memory, p: string, c: string, id: string, lease: bool, t: int, later: int, cfg: Config)
    requires GoodConfig(cfg) && Standing(m, cfg) && Identity(p, c) && Fresh(m, Some(id)) && KeyOf(p, c) !in m.entries
    ensures var final := Evicted(Adopt(m, p, c, id, lease, t), later, cfg);
            && Standing(final, cfg)
            && Restamped(m, final, Some(Stamp(KeyOf(p, c), t, t, if lease then None else Some(later))), cfg)
  {
    hide NoDup, Touch, IdleCount, KeyOf, Formed, Evicted, Identity, Fresh, Shaped;
    AdoptShaped(m, p, c, id, lease, t);
    var added := Adopt(m, p, c, id, lease, t);
    EvictedStanding(added, later, cfg);
    TouchedSurvives(m, KeyOf(p, c), added.entries[KeyOf(p, c)], later, cfg);
  }

  lemma GiveBackStamps(m: Memory, key: string, t: int, later: int, cfg: Config)
    requires GoodConfig(cfg) && Standing(m, cfg) && key in m.entries && m.entries[key].leases > 0
    ensures var final := Evicted(GiveBack(m, key, t), later, cfg);
            var stamp := if m.entries[key].leases != 1 then None
                         else Some(Stamp(key, m.entries[key].createdMs, t, Some(later)));
            Standing(final, cfg) && Restamped(m, final, stamp, cfg)
  {
    hide NoDup, Touch, IdleCount, KeyOf, Formed, Evicted, Shaped;
    UnleasedOrActive(m, key);
    var e := m.entries[key];
    if e.leases == 1 {
      var idle := e.(leases := 0, state := Idle, lastUsedMs := t);
      ChangeShaped(m, key, idle, true);
      TouchedSurvives(m, key, idle, later, cfg);
    } else {
      ChangeShaped(m, key, e.(leases := e.leases - 1), false);
    }
    EvictedStanding(GiveBack(m, key, t), later, cfg);
  }

  lemma MarkStamps(m: Memory, key: string, e: Entry, cfg: Config)
    requires Standing(m, cfg) && key in m.entries && e.state != Idle
    requires e == m.entries[key].(state := e.state, leases := e.leases, lastUsedMs := e.lastUsedMs)
    requires e.leases >= 0 && (e.state == Active <==> e.leases > 0)
    ensures var m' := m.(entries := m.entries[key := e]);
            Standing(m', cfg) && Restamped(m, m', Some(Stamp(key, e.createdMs, e.lastUsedMs, None)), cfg)
  {
    hide NoDup, Touch, IdleCount, KeyOf, Formed, Shaped;
    ChangeShaped(m, key, e, false);
  }

  lemma FlagsAside(m: Memory, m': Memory, was: Memory, stamp: Option<Stamp>, cfg: Config)
    requires Standing(m, cfg) && Restamped(was, m, stamp, cfg) && m'.entries == m.entries && m'.order == m.order
    ensures Standing(m', cfg) && Restamped(was, m', stamp, cfg)
  {
    hide Formed, KeyOf, NoDup;
  }

  lemma SweptRestamps(m: Memory, swept: Memory, m': Memory, stamp: Option<Stamp>, cfg: Config)
    requires forall k :: k in swept.entries ==> k in m.entries && swept.entries[k] == m.entries[k]
    requires Restamped(swept, m', stamp, cfg)
    ensures Restamped(m, m', stamp, cfg)
  {
    hide Survives;
  }

  lemma Unstamped(m: Memory, m': Memory, cfg: Config)
    requires forall k :: k in m'.entries ==> k in m.entries && m'.entries[k] == m.entries[k]
    ensures Restamped(m, m', None, cfg)
  {
  }

  /** What Create and Acquire stamp after the first eviction, and the memory they leave. */
  lemma ResolveMemory(s: Store, cfg: Config, clk: Clock, op: Op, w: Write)
    requires op.ResolveOp? && Identity(op.principal, op.conversation) && Ready(s.mem)
    requires var key := KeyOf(op.principal, op.conversation);
             key in Evicted(s.mem, clk(s.tick), cfg).entries
             <==> key in s.mem.entries && !Expired(s.mem.entries[key], clk(s.tick), cfg.ttlMs)
    requires var swept := Evicted(s.mem, clk(s.tick), cfg);
             forall k :: k in swept.entries ==> k in s.mem.entries && swept.entries[k] == s.mem.entries[k]
    ensures var m', stamp := Apply(s, cfg, clk, op, w).0.mem, StampOf(s, cfg, clk, op);
            var (p, c, t) := (op.principal, op.conversation, s.tick);
            var key, swept := KeyOf(p, c), Evicted(s.mem, clk(t), cfg);
            if key in swept.entries && swept.entries[key].state != Terminated then
              var used := Use(swept, key, op.lease, clk(t + 1));
              && m'.entries == used.entries && m'.order == used.order
              && stamp == Some(Stamp(key, swept.entries[key].createdMs, clk(t + 1), None))
            else if key !in swept.entries && op.mint.Some? then
              var added := Evicted(Adopt(swept, p, c, op.mint.value, op.lease, clk(t + 2)), clk(t + 3), cfg);
              && m'.entries == added.entries && m'.order == added.order
              && stamp == Some(Stamp(key, clk(t + 2), clk(t + 2), if op.lease then None else Some(clk(t + 3))))
            else
              m'.entries == swept.entries && m'.order == swept.order && stamp == None
  {
    hide Evicted, Use, Adopt, Identity, KeyOf, Snapshot, Expired;
  }

  lemma ResolveStamps(s: Store, cfg: Config, clk: Clock, op: Op, w: Write)
    requires GoodConfig(cfg) && Standing(s.mem, cfg) && Admissible(s.mem, op) && op.ResolveOp?
    ensures var s' := Apply(s, cfg, clk, op, w).0;
            Standing(s'.mem, cfg) && Restamped(s.mem, s'.mem, StampOf(s, cfg, clk, op), cfg)
  {
    hide Standing, Evicted, Use, Adopt, Identity, KeyOf, Resolve, StampOf, Restamped, Shaped, Fresh;
    var (p, c, t) := (op.principal, op.conversation, s.tick);
    if Identity(p, c) && Ready(s.mem) {
      var key, swept := KeyOf(p, c), Evicted(s.mem, clk(t), cfg);
      var m', stamp := Apply(s, cfg, clk, op, w).0.mem, StampOf(s, cfg, clk, op);
      ShapedStanding(s.mem, cfg);
      SweptExactly(s.mem, cfg, clk(t), key);
      SweptShapes(s, cfg, clk, op.mint);
      EvictedStanding(s.mem, clk(t), cfg);
      ResolveMemory(s, cfg, clk, op, w);
      if key in swept.entries && swept.entries[key].state != Terminated {
        UseStamps(swept, key, op.lease, clk(t + 1), cfg);
        FlagsAside(Use(swept, key, op.lease, clk(t + 1)), m', swept, stamp, cfg);
      } else if key !in swept.entries && op.mint.Some? {
        var added := Evicted(Adopt(swept, p, c, op.mint.value, op.lease, clk(t + 2)), clk(t + 3), cfg);
        AdoptStamps(swept, p, c, op.mint.value, op.lease, clk(t + 2), clk(t + 3), cfg);
        FlagsAside(added, m', swept, stamp, cfg);
      } else {
        Unstamped(swept, swept, cfg);
        FlagsAside(swept, m', swept, stamp, cfg);
      }
      SweptRestamps(s.mem, swept, m', stamp, cfg);
    } else {
      ResolveRefused(s, cfg, clk, op, w);
      Unstamped(s.mem, s.mem, cfg);
    }
  }

  lemma ResolveRefused(s: Store, cfg: Config, clk: Clock, op: Op, w: Write)
    requires op.ResolveOp? && !(Identity(op.principal, op.conversation) && Ready(s.mem))
    ensures Apply(s, cfg, clk, op, w).0.mem == s.mem && StampOf(s, cfg, clk, op) == None
  {
    hide Identity, KeyOf;
  }

  lemma ShapedStanding(m: Memory, cfg: Config)
    requires Standing(m, cfg)
    ensures Shaped(m)
  {
  }

  lemma NothingStamped(s: Store, cfg: Config, clk: Clock, op: Op, w: Write)
    requires Standing(s.mem, cfg) && !op.ResolveOp?
    requires op.LookupOp? || op.CloseOp? || !Ready(s.mem) || KeyOf(op.principal, op.conversation) !in s.mem.entries
    ensures var s' := Apply(s, cfg, clk, op, w).0;
            Standing(s'.mem, cfg) && Restamped(s.mem, s'.mem, StampOf(s, cfg, clk, op), cfg)
  {
    hide Standing, KeyOf;
    Unstamped(s.mem, s.mem, cfg);
    FlagsAside(s.mem, Apply(s, cfg, clk, op, w).0.mem, s.mem, None, cfg);
  }

  lemma ReleaseStamps(s: Store, cfg: Config, clk: Clock, op: Op, w: Write)
    requires GoodConfig(cfg) && Standing(s.mem, cfg) && Ready(s.mem)
    requires op.ReleaseOp? && KeyOf(op.principal, op.conversation) in s.mem.entries
    ensures var s' := Apply(s, cfg, clk, op, w).0;
            Standing(s'.mem, cfg) && Restamped(s.mem, s'.mem, StampOf(s, cfg, clk, op), cfg)
  {
    hide Standing, Shaped, Evicted, GiveBack, KeyOf, Snapshot, Restamped;
    var key, t := KeyOf(op.principal, op.conversation), s.tick;
    var e := s.mem.entries[key];
    ShapedStanding(s.mem, cfg);
    UnleasedOrActive(s.mem, key);
    var m', stamp := Apply(s, cfg, clk, op, w).0.mem, StampOf(s, cfg, clk, op);
    if e.leases > 0 {
      var later := clk(if e.leases == 1 then t + 1 else t);
      GiveBackStamps(s.mem, key, clk(t), later, cfg);
      FlagsAside(Evicted(GiveBack(s.mem, key, clk(t)), later, cfg), m', s.mem, stamp, cfg);
    } else {
      Unstamped(s.mem, s.mem, cfg);
    }
  }

  /** Reference and Terminate change one entry where it stands. */
  lemma MarksStamp(s: Store, cfg: Config, clk: Clock, op: Op, w: Write)
    requires Standing(s.mem, cfg) && Ready(s.mem) && (op.ReferenceOp? || op.TerminateOp?)
    requires KeyOf(op.principal, op.conversation) in s.mem.entries
    ensures var s' := Apply(s, cfg, clk, op, w).0;
            Standing(s'.mem, cfg) && Restamped(s.mem, s'.mem, StampOf(s, cfg, clk, op), cfg)
  {
    hide Standing, Shaped, KeyOf, Snapshot, Restamped, Apply, StampOf, Ready;
    var key := KeyOf(op.principal, op.conversation);
    var e := s.mem.entries[key];
    ShapedStanding(s.mem, cfg);
    UnleasedOrActive(s.mem, key);
    MarkedIs(s, cfg, clk, op, w);
    var m', stamp := Apply(s, cfg, clk, op, w).0.mem, StampOf(s, cfg, clk, op);
    if stamp.Some? {
      var marked := Mark(e, op, stamp.value.readMs);
      MarkStamps(s.mem, key, marked, cfg);
      FlagsAside(s.mem.(entries := s.mem.entries[key := marked]), m', s.mem, stamp, cfg);
    } else {
      Unstamped(s.mem, s.mem, cfg);
    }
  }

  function Mark(e: Entry, op: Op, t: int): Entry {
    if op.ReferenceOp? then Leased(e, true).(lastUsedMs := t)
    else e.(state := EntryState.Terminated, lastUsedMs := t)
  }

  lemma MarkedIs(s: Store, cfg: Config, clk: Clock, op: Op, w: Write)
    requires Ready(s.mem) && (op.ReferenceOp? || op.TerminateOp?)
    requires KeyOf(op.principal, op.conversation) in s.mem.entries
    ensures var key, stamp := KeyOf(op.principal, op.conversation), StampOf(s, cfg, clk, op);
            var m', e := Apply(s, cfg, clk, op, w).0.mem, s.mem.entries[key];
            if stamp.None? then m' == s.mem
            else
              && stamp.value == Stamp(key, e.createdMs, stamp.value.readMs, None)
              && (op.ReferenceOp? ==> e.state != Terminated) && (op.TerminateOp? ==> e.leases <= 0)
              && m'.entries == s.mem.entries[key := Mark(e, op, stamp.value.readMs)] && m'.order == s.mem.order
  {
    hide KeyOf, Snapshot;
  }

  /**
    Every operation, under any clock and with any write outcome, keeps the invariant without times,
    and changes the times of one entry at most: that of its stamp, which stays exactly when it
    survives the eviction that follows.
   */
  lemma StepStamps(s: Store, cfg: Config, clk: Clock, op: Op, w: Write)
    requires GoodConfig(cfg) && Standing(s.mem, cfg) && Admissible(s.mem, op)
    ensures var s' := Apply(s, cfg, clk, op, w).0;
            Standing(s'.mem, cfg) && Restamped(s.mem, s'.mem, StampOf(s, cfg, clk, op), cfg)
  {
    hide Standing, Restamped, Apply, StampOf, KeyOf, Ready;
    if op.ResolveOp? {
      ResolveStamps(s, cfg, clk, op, w);
    } else if op.LookupOp? || op.CloseOp? {
      NothingStamped(s, cfg, clk, op, w);
    } else if !Ready(s.mem) || KeyOf(op.principal, op.conversation) !in s.mem.entries {
      NothingStamped(s, cfg, clk, op, w);
    } else if op.ReleaseOp? {
      ReleaseStamps(s, cfg, clk, op, w);
    } else {
      MarksStamp(s, cfg, clk, op, w);
    }
  }

  // ---- what an operation leaves in the file ----

  /** A file that every reopening loads, and one that no reopening does, whatever the clock says then. */
  ghost predicate Opens(disk: Option<seq<Entry>>, cfg: Config) {
    disk.Some? ==> forall now :: LoadAll(disk.value, now, cfg.ttlMs).Some?
  }

  ghost predicate Rejected(disk: Option<seq<Entry>>, cfg: Config) {
    disk.Some? && forall now :: LoadAll(disk.value, now, cfg.ttlMs).None?
  }

  ghost predicate DiskFormed(disk: Option<seq<Entry>>) {
    disk.Some? ==> FileFormed(disk.value)
  }

  predicate DiskTimed(disk: Option<seq<Entry>>) {
    disk.Some? ==> FileTimed(disk.value)
  }

  lemma DiskDecides(disk: Option<seq<Entry>>, cfg: Config)
    requires DiskFormed(disk)
    ensures if DiskTimed(disk) then Opens(disk, cfg) && !Rejected(disk, cfg)
            else Rejected(disk, cfg) && !Opens(disk, cfg)
  {
    hide LoadAll, FileFormed, FileTimed;
    if disk.Some? {
      forall now ensures LoadAll(disk.value, now, cfg.ttlMs).Some? <==> FileTimed(disk.value) {
        TimesDecide(disk.value, now, cfg.ttlMs);
      }
      assert LoadAll(disk.value, 0, cfg.ttlMs).Some? <==> FileTimed(disk.value);
    }
  }

  lemma TimelyIff(m: Memory, m': Memory, stamp: Option<Stamp>, cfg: Config)
    requires Restamped(m, m', stamp, cfg) && Timely(m)
    ensures Timely(m') <==> !(stamp.Some? && !(0 < stamp.value.createdMs <= stamp.value.readMs)
                              && Survives(stamp.value, cfg))
  {
    hide Survives;
  }

  /** A stamp is written to the file in the same call; without one the file is the old or holds the memory. */
  lemma StampCommits(s: Store, cfg: Config, clk: Clock, op: Op, w: Write)
    requires Standing(s.mem, cfg)
    ensures var s' := Apply(s, cfg, clk, op, w).0;
            && (s'.disk == s.disk || s'.disk == Some(FileOf(s'.mem)))
            && (w == NotWritten ==> s'.disk == s.disk)
            && (StampOf(s, cfg, clk, op).Some? && w != NotWritten ==> s'.disk == Some(FileOf(s'.mem)))
  {
    hide Standing, Evicted, Use, Adopt, GiveBack, Identity, KeyOf, Snapshot, Expired;
    if op.ResolveOp? {
      SweptExactly(s.mem, cfg, clk(s.tick), KeyOf(op.principal, op.conversation));
    } else if op.ReleaseOp? && KeyOf(op.principal, op.conversation) in s.mem.entries {
      ShapedStanding(s.mem, cfg);
      UnleasedOrActive(s.mem, KeyOf(op.principal, op.conversation));
    }
  }

  /**
    Per operation, under any clock: a readable file stays readable, unless the call writes and its
    stamp locks out; then the file it wrote is rejected at every later reading.
   */
  lemma StepLoadsIff(s: Store, cfg: Config, clk: Clock, op: Op, w: Write)
    requires GoodConfig(cfg) && Standing(s.mem, cfg) && Timely(s.mem) && Admissible(s.mem, op)
    requires DiskFormed(s.disk) && DiskTimed(s.disk)
    ensures var s' := Apply(s, cfg, clk, op, w).0;
            && (Timely(s'.mem) <==> !LocksOut(s, cfg, clk, op))
            && DiskFormed(s'.disk)
            && (DiskTimed(s'.disk) <==> w == NotWritten || !LocksOut(s, cfg, clk, op))
            && (if w != NotWritten && LocksOut(s, cfg, clk, op) then Rejected(s'.disk, cfg) else Opens(s'.disk, cfg))
  {
    hide Apply, StampOf, Standing, Timely, Restamped, Shaped, FileFormed, FileTimed, Opens, Rejected, Survives, FileOf,
         Admissible;
    var s' := Apply(s, cfg, clk, op, w).0;
    StepStamps(s, cfg, clk, op, w);
    TimelyIff(s.mem, s'.mem, StampOf(s, cfg, clk, op), cfg);
    StampCommits(s, cfg, clk, op, w);
    ShapedStanding(s'.mem, cfg);
    ShapedFile(s'.mem);
    DiskDecides(s'.disk, cfg);
  }

  // ---- what a reopening stamps ----

  /** The file as reopened: lapsed terminated entries dropped, old leases lapsed, then eviction. */
  function Reopened(file: seq<Entry>, cfg: Config, clk: Clock, tick: nat): seq<Entry> {
    EvictFile(Unlapsed(file, clk(tick), cfg.ttlMs), clk(tick + 1), cfg)
  }

  /** A lease of the dead process lapses at a reading before the creation of its entry, and the entry stays. */
  predicate RecoveryLocksOut(file: seq<Entry>, cfg: Config, clk: Clock, tick: nat) {
    exists i :: 0 <= i < |file| && file[i].state == Active && clk(tick) < file[i].createdMs
                && Recovered(file[i], clk(tick)) in Reopened(file, cfg, clk, tick)
  }

  lemma {:induction false} UnlapsedMember(file: seq<Entry>, now: int, ttlMs: int, e: Entry)
    requires e in Unlapsed(file, now, ttlMs)
    ensures exists i :: 0 <= i < |file| && e == Recovered(file[i], now)
  {
    var init, last := file[..|file| - 1], file[|file| - 1];
    if e in Unlapsed(init, now, ttlMs) {
      UnlapsedMember(init, now, ttlMs, e);
      var i :| 0 <= i < |init| && e == Recovered(init[i], now);
      assert file[i] == init[i];
    } else {
      assert e == Recovered(last, now);
    }
  }

  lemma ReopenedMember(file: seq<Entry>, cfg: Config, clk: Clock, tick: nat, e: Entry)
    requires e in Reopened(file, cfg, clk, tick)
    ensures exists i :: 0 <= i < |file| && e == Recovered(file[i], clk(tick))
  {
    hide Recovered, Unlapsed;
    var live := UnexpiredFile(Unlapsed(file, clk(tick), cfg.ttlMs), clk(tick + 1), cfg.ttlMs);
    DropMember(live, Excess(IdleInFile(live), cfg.maxIdle), e);
    UnlapsedMember(file, clk(tick), cfg.ttlMs, e);
  }

  lemma ReopenedTimes(file: seq<Entry>, cfg: Config, clk: Clock, tick: nat)
    requires FileTimed(file)
    ensures FileTimed(Reopened(file, cfg, clk, tick)) <==> !RecoveryLocksOut(file, cfg, clk, tick)
  {
    hide Reopened;
    var kept, now := Reopened(file, cfg, clk, tick), clk(tick);
    forall k | 0 <= k < |kept| && !Timed(kept[k]) ensures RecoveryLocksOut(file, cfg, clk, tick) {
      ReopenedMember(file, cfg, clk, tick, kept[k]);
      var i :| 0 <= i < |file| && kept[k] == Recovered(file[i], now);
      assert Timed(file[i]);
    }
    if RecoveryLocksOut(file, cfg, clk, tick) {
      var i :| 0 <= i < |file| && file[i].state == Active && now < file[i].createdMs && Recovered(file[i], now) in kept;
      var k :| 0 <= k < |kept| && kept[k] == Recovered(file[i], now);
      assert !Timed(kept[k]);
    }
  }

  /** Opening, under any clock: refused for an untimed entry, or the reopened file in memory and on disk. */
  lemma OpenExact(file: seq<Entry>, tick: nat, cfg: Config, clk: Clock, w: Write)
    requires GoodConfig(cfg) && FileFormed(file)
    ensures var (disk, mem) := Open(Some(file), tick, cfg, clk, w);
            if !FileTimed(file) then disk == Some(file) && mem == None
            else
              && FileFormed(Reopened(file, cfg, clk, tick))
              && (w == Written ==> mem.Some?)
              && (mem.Some? ==> Standing(mem.value, cfg) && Ready(mem.value)
                                && FileOf(mem.value) == Reopened(file, cfg, clk, tick))
              && (|| (w != NotWritten && disk == Some(Reopened(file, cfg, clk, tick)))
                  || (disk == Some(file) && w == NotWritten)
                  || (disk == Some(file) && forall i :: 0 <= i < |file| ==> file[i].state != Active))
  {
    hide Open, LoadAll, FileFormed, FileTimed, Shaped, Evicted, EvictFile, Unlapsed, FileOf, Standing;
    TimesDecide(file, clk(tick), cfg.ttlMs);
    LoadExact(file, clk(tick), cfg.ttlMs);
    OpenIs(file, tick, cfg, clk, w);
    if FileTimed(file) {
      var l := LoadAll(file, clk(tick), cfg.ttlMs).value;
      var mem := Evicted(LoadedMemory(l), clk(tick + 1), cfg);
      ShapedListing(LoadedMemory(l));
      EvictedStanding(LoadedMemory(l), clk(tick + 1), cfg);
      SnapshotEvicted(LoadedMemory(l), clk(tick + 1), cfg);
      EvictedReady(LoadedMemory(l), clk(tick + 1), cfg);
      ShapedStanding(mem, cfg);
      ShapedFile(mem);
    }
  }

  lemma OpenIs(file: seq<Entry>, tick: nat, cfg: Config, clk: Clock, w: Write)
    ensures var (disk, mem) := Open(Some(file), tick, cfg, clk, w);
            match LoadAll(file, clk(tick), cfg.ttlMs)
            case None => disk == Some(file) && mem == None
            case Some(l) =>
              var m := Evicted(LoadedMemory(l), clk(tick + 1), cfg);
              if !l.recovered && |m.order| == |l.order| then disk == Some(file) && mem == Some(m)
              else
                && disk == (if w == NotWritten then Some(file) else Some(FileOf(m)))
                && mem == (if w == Written then Some(m) else None)
  {
    hide LoadAll, Evicted, Snapshot;
  }

  lemma ShapedListing(m: Memory)
    requires Shaped(m)
    ensures Listing(m)
  {
  }

  /** A readable file stays readable over a reopening, unless that writes and a recovery stamp locks out. */
  lemma OpenLoadsIff(file: seq<Entry>, tick: nat, cfg: Config, clk: Clock, w: Write)
    requires GoodConfig(cfg) && FileFormed(file) && FileTimed(file)
    ensures var (disk, mem) := Open(Some(file), tick, cfg, clk, w);
            var locked := RecoveryLocksOut(file, cfg, clk, tick);
            && DiskFormed(disk) && (DiskTimed(disk) <==> w == NotWritten || !locked)
            && (if w != NotWritten && locked then Rejected(disk, cfg) else Opens(disk, cfg))
            && (mem.Some? ==> Standing(mem.value, cfg) && (Timely(mem.value) <==> !locked))
  {
    hide Open, FileFormed, FileTimed, Opens, Rejected, Reopened, Standing, Shaped, Timely, FileOf;
    var (disk, mem) := Open(Some(file), tick, cfg, clk, w);
    OpenExact(file, tick, cfg, clk, w);
    ReopenedTimes(file, cfg, clk, tick);
    DiskDecides(disk, cfg);
    if mem.Some? {
      ShapedStanding(mem.value, cfg);
      ShapedFile(mem.value);
    }
  }

  // ---- runs under any clock ----

  ghost predicate WorldFormed(w: World, cfg: Config) {
    DiskFormed(w.disk) && (w.proc.Some? ==> Standing(w.proc.value, cfg))
  }

  ghost predicate WorldTimely(w: World) {
    DiskTimed(w.disk) && (w.proc.Some? && !w.proc.value.failed ==> Timely(w.proc.value))
  }

  /** The event writes a stamp that locks out. */
  predicate Locks(w: World, e: Event, cfg: Config, clk: Clock) {
    match e
    case Call(op, write) =>
      w.proc.Some? && write != NotWritten && LocksOut(Store(w.proc.value, w.disk, w.tick), cfg, clk, op)
    case Crash => false
    case Boot(write) =>
      && w.proc.None? && w.disk.Some? && FileTimed(w.disk.value) && write != NotWritten
      && RecoveryLocksOut(w.disk.value, cfg, clk, w.tick)
  }

  lemma FailedKeepsDisk(s: Store, cfg: Config, clk: Clock, op: Op, w: Write)
    requires s.mem.failed
    ensures var s' := Apply(s, cfg, clk, op, w).0; s'.disk == s.disk && s'.mem.failed
    ensures StampOf(s, cfg, clk, op) == None
  {
    hide KeyOf, Identity, Evicted, Live;
  }

  lemma WriteFails(s: Store, cfg: Config, clk: Clock, op: Op, w: Write)
    requires StampOf(s, cfg, clk, op).Some? && w != Written && Standing(s.mem, cfg)
    ensures Apply(s, cfg, clk, op, w).0.mem.failed
  {
    hide Standing, Evicted, Use, Adopt, GiveBack, Identity, KeyOf, Snapshot, Expired;
    if op.ResolveOp? {
      SweptExactly(s.mem, cfg, clk(s.tick), KeyOf(op.principal, op.conversation));
    } else if op.ReleaseOp? && KeyOf(op.principal, op.conversation) in s.mem.entries {
      ShapedStanding(s.mem, cfg);
      UnleasedOrActive(s.mem, KeyOf(op.principal, op.conversation));
    }
  }

  lemma NextFormed(w: World, e: Event, cfg: Config, clk: Clock)
    requires GoodConfig(cfg) && WorldFormed(w, cfg) && Enabled(w, e)
    ensures WorldFormed(Next(w, e, cfg, clk), cfg)
  {
    hide Standing, FileFormed, Apply, Admissible, Open, Shaped, FileOf;
    match e
    case Call(op, write) =>
      if w.proc.Some? {
        var s := Store(w.proc.value, w.disk, w.tick);
        var s' := Apply(s, cfg, clk, op, write).0;
        StepStamps(s, cfg, clk, op, write);
        StampCommits(s, cfg, clk, op, write);
        ShapedStanding(s'.mem, cfg);
        ShapedFile(s'.mem);
      }
    case Crash =>
    case Boot(write) =>
      if w.proc.None? {
        match w.disk
        case None =>
          OpenAbsent(w.tick, cfg, clk, write);
          EmptyStands(cfg);
        case Some(file) => OpenExact(file, w.tick, cfg, clk, write);
      }
  }

  lemma EmptyStands(cfg: Config)
    requires GoodConfig(cfg)
    ensures Standing(EMPTY, cfg) && Timely(EMPTY)
  {
  }

  /** One event: a readable world stays so unless the event locks out; then the file is rejected. */
  lemma NextLoadsIff(w: World, e: Event, cfg: Config, clk: Clock)
    requires GoodConfig(cfg) && WorldFormed(w, cfg) && WorldTimely(w) && Enabled(w, e)
    ensures var w' := Next(w, e, cfg, clk);
            if Locks(w, e, cfg, clk) then Rejected(w'.disk, cfg) else WorldTimely(w')
  {
    hide Standing, DiskFormed, FileTimed, Apply, Admissible, Open, Timely, LocksOut, RecoveryLocksOut, Opens, Rejected;
    match e
    case Call(op, write) =>
      if w.proc.Some? {
        var s := Store(w.proc.value, w.disk, w.tick);
        if s.mem.failed {
          FailedKeepsDisk(s, cfg, clk, op, write);
          NoStampNoLock(s, cfg, clk, op);
        } else {
          StepLoadsIff(s, cfg, clk, op, write);
          if LocksOut(s, cfg, clk, op) && write == NotWritten { LockFails(s, cfg, clk, op, write); }
        }
      }
    case Crash =>
    case Boot(write) =>
      if w.proc.None? {
        match w.disk
        case None =>
          OpenAbsent(w.tick, cfg, clk, write);
          EmptyStands(cfg);
        case Some(file) =>
          FormedIs(file);
          OpenLoadsIff(file, w.tick, cfg, clk, write);
          if RecoveryLocksOut(file, cfg, clk, w.tick) && write == NotWritten {
            OpenUnwritten(file, w.tick, cfg, clk, write);
          }
      }
  }

  lemma FormedIs(file: seq<Entry>)
    ensures DiskFormed(Some(file)) == FileFormed(file) && DiskTimed(Some(file)) == FileTimed(file)
  {
  }

  lemma NoStampNoLock(s: Store, cfg: Config, clk: Clock, op: Op)
    requires StampOf(s, cfg, clk, op) == None
    ensures !LocksOut(s, cfg, clk, op)
  {
  }

  lemma LockFails(s: Store, cfg: Config, clk: Clock, op: Op, w: Write)
    requires LocksOut(s, cfg, clk, op) && w != Written && Standing(s.mem, cfg)
    ensures Apply(s, cfg, clk, op, w).0.mem.failed
  {
    hide Apply, StampOf, Standing;
    WriteFails(s, cfg, clk, op, w);
  }

  /** A reopening that had to write and could not yields no registry. */
  lemma OpenUnwritten(file: seq<Entry>, tick: nat, cfg: Config, clk: Clock, w: Write)
    requires GoodConfig(cfg) && FileFormed(file) && FileTimed(file)
    requires RecoveryLocksOut(file, cfg, clk, tick) && w == NotWritten
    ensures Open(Some(file), tick, cfg, clk, w).1 == None
  {
    hide LoadAll, FileFormed, FileTimed, Shaped, Evicted, Reopened;
    LoadExact(file, clk(tick), cfg.ttlMs);
    TimesDecide(file, clk(tick), cfg.ttlMs);
  }

  lemma PristineStands(cfg: Config)
    ensures WorldFormed(PRISTINE, cfg) && WorldTimely(PRISTINE)
  {
  }

  ghost predicate NeverLocks(w: World, events: seq<Event>, cfg: Config, clk: Clock) {
    forall k :: 0 <= k < |events| ==> !Locks(Run(w, events[..k], cfg, clk), events[k], cfg, clk)
  }

  ghost predicate AlwaysOpens(w: World, events: seq<Event>, cfg: Config, clk: Clock) {
    forall k :: 0 <= k <= |events| ==> Opens(Run(w, events[..k], cfg, clk).disk, cfg)
  }

  lemma LegalInit(w: World, events: seq<Event>, cfg: Config, clk: Clock)
    requires events != [] && Legal(w, events, cfg, clk)
    ensures var init, last := events[..|events| - 1], events[|events| - 1];
            && Legal(w, init, cfg, clk) && Enabled(Run(w, init, cfg, clk), last)
            && Run(w, events, cfg, clk) == Next(Run(w, init, cfg, clk), last, cfg, clk)
            && (NeverLocks(w, events, cfg, clk)
                <==> NeverLocks(w, init, cfg, clk) && !Locks(Run(w, init, cfg, clk), last, cfg, clk))
            && (AlwaysOpens(w, events, cfg, clk)
                <==> AlwaysOpens(w, init, cfg, clk) && Opens(Run(w, events, cfg, clk).disk, cfg))
  {
    hide Enabled, Next, Opens, Locks;
    var init := events[..|events| - 1];
    assert forall i :: 0 <= i <= |init| ==> init[..i] == events[..i];
    assert forall i :: 0 <= i < |init| ==> init[i] == events[i];
    assert events[..|init|] == init && events[..|events|] == events;
    assert init[..|init|] == init;
  }

  /** The invariant without times holds in every run, whatever the clock does. */
  lemma {:induction false} RunsKeepFormed(w: World, events: seq<Event>, cfg: Config, clk: Clock)
    requires GoodConfig(cfg) && WorldFormed(w, cfg) && Legal(w, events, cfg, clk)
    ensures WorldFormed(Run(w, events, cfg, clk), cfg)
  {
    hide WorldFormed, Legal, Next, Enabled, NeverLocks, AlwaysOpens;
    if events != [] {
      var init, last := events[..|events| - 1], events[|events| - 1];
      LegalInit(w, events, cfg, clk);
      RunsKeepFormed(w, init, cfg, clk);
      NextFormed(Run(w, init, cfg, clk), last, cfg, clk);
    }
  }

  /** The two sides agree step by step, and while they hold every entry in memory and file is timed. */
  lemma {:induction false} LocksDecide(w: World, events: seq<Event>, cfg: Config, clk: Clock)
    requires GoodConfig(cfg) && WorldFormed(w, cfg) && WorldTimely(w) && Legal(w, events, cfg, clk)
    ensures AlwaysOpens(w, events, cfg, clk) <==> NeverLocks(w, events, cfg, clk)
    ensures NeverLocks(w, events, cfg, clk) ==> WorldTimely(Run(w, events, cfg, clk))
  {
    hide WorldFormed, WorldTimely, Legal, Next, Enabled, Locks, Opens, Rejected;
    if events == [] {
      assert events[..0] == events;
      DiskOpens(w, cfg);
    } else {
      hide NeverLocks, AlwaysOpens, Run;
      var init, last := events[..|events| - 1], events[|events| - 1];
      LegalInit(w, events, cfg, clk);
      LocksDecide(w, init, cfg, clk);
      RunsKeepFormed(w, init, cfg, clk);
      RunsKeepFormed(w, events, cfg, clk);
      if NeverLocks(w, init, cfg, clk) {
        var w1, w2 := Run(w, init, cfg, clk), Run(w, events, cfg, clk);
        NextLoadsIff(w1, last, cfg, clk);
        if Locks(w1, last, cfg, clk) { NotBoth(w2.disk, cfg); } else { DiskOpens(w2, cfg); }
      }
    }
  }

  lemma DiskOpens(w: World, cfg: Config)
    requires WorldFormed(w, cfg) && WorldTimely(w)
    ensures Opens(w.disk, cfg)
  {
    hide Standing, Timely, FileFormed, FileTimed, Opens;
    DiskDecides(w.disk, cfg);
  }

  lemma NotBoth(disk: Option<seq<Entry>>, cfg: Config)
    requires Rejected(disk, cfg)
    ensures !Opens(disk, cfg)
  {
    assert LoadAll(disk.value, 0, cfg.ttlMs).None?;
  }

  /**
    Exactly when the registry stays open, for every clock and every run of calls, failed writes,
    crashes and reopenings: its file is loadable at every moment if and only if no event writes a
    stamp that locks out.  The first that does leaves a file which is rejected at every reading.
   */
  lemma StaysOpenIff(w: World, events: seq<Event>, cfg: Config, clk: Clock)
    requires GoodConfig(cfg) && WorldFormed(w, cfg) && WorldTimely(w) && Legal(w, events, cfg, clk)
    ensures (forall k :: 0 <= k <= |events| ==> Opens(Run(w, events[..k], cfg, clk).disk, cfg))
            <==> forall k :: 0 <= k < |events| ==> !Locks(Run(w, events[..k], cfg, clk), events[k], cfg, clk)
    ensures forall k :: 0 <= k < |events| && NeverLocks(w, events[..k], cfg, clk)
                        && Locks(Run(w, events[..k], cfg, clk), events[k], cfg, clk) ==>
              Rejected(Run(w, events[..k + 1], cfg, clk).disk, cfg)
  {
    hide WorldFormed, WorldTimely, Legal, Next, Enabled, Locks, Opens, Rejected, Run;
    LocksDecide(w, events, cfg, clk);
    forall k | 0 <= k < |events| && NeverLocks(w, events[..k], cfg, clk)
               && Locks(Run(w, events[..k], cfg, clk), events[k], cfg, clk)
      ensures Rejected(Run(w, events[..k + 1], cfg, clk).disk, cfg)
    {
      hide NeverLocks;
      LegalPrefix(w, events, k, cfg, clk);
      LegalPrefix(w, events, k + 1, cfg, clk);
      assert events[..k + 1][..k] == events[..k];
      LegalInit(w, events[..k + 1], cfg, clk);
      LocksDecide(w, events[..k], cfg, clk);
      RunsKeepFormed(w, events[..k], cfg, clk);
      NextLoadsIff(Run(w, events[..k], cfg, clk), events[k], cfg, clk);
    }
  }

  lemma LegalPrefix(w: World, events: seq<Event>, n: nat, cfg: Config, clk: Clock)
    requires n <= |events| && Legal(w, events, cfg, clk)
    ensures Legal(w, events[..n], cfg, clk)
  {
    hide Enabled, Run;
    assert forall i :: 0 <= i < n ==> events[..n][..i] == events[..i] && events[..n][i] == events[i];
  }

  /**
    Reopening after any run under any clock, whatever that clock reads then: it is refused exactly
    for an entry created at no positive time or last used before its creation.
   */
  lemma ReopenIff(w: World, events: seq<Event>, cfg: Config, clk: Clock, later: Clock, tick: nat)
    requires GoodConfig(cfg) && WorldFormed(w, cfg) && Legal(w, events, cfg, clk)
    ensures var disk := Run(w, events, cfg, clk).disk;
            var mem := Open(disk, tick, cfg, later, Written).1;
            && (mem.Some? <==> disk.None? || forall i :: 0 <= i < |disk.value| ==> Timed(disk.value[i]))
            && (mem.Some? && disk.Some? ==> FileOf(mem.value) == Reopened(disk.value, cfg, later, tick))
  {
    hide Standing, FileFormed, Legal, Open, Reopened, FileOf, Timed, Run;
    RunsKeepFormed(w, events, cfg, clk);
    match Run(w, events, cfg, clk).disk
    case None => OpenAbsent(tick, cfg, later, Written);
    case Some(file) => OpenExact(file, tick, cfg, later, Written);
  }

  /** A positive clock that never runs back locks nobody out. */
  lemma GoodClockNeverLocks(events: seq<Event>, cfg: Config, clk: Clock)
    requires GoodClock(clk) && GoodConfig(cfg) && Legal(PRISTINE, events, cfg, clk)
    ensures forall k :: 0 <= k < |events| ==>
              !Locks(Run(PRISTINE, events[..k], cfg, clk), events[k], cfg, clk)
  {
    hide GoodClock, WorldFormed, WorldTimely, Legal, Locks, Opens, Run;
    PristineStands(cfg);
    LocksDecide(PRISTINE, events, cfg, clk);
    forall k | 0 <= k <= |events| ensures Opens(Run(PRISTINE, events[..k], cfg, clk).disk, cfg) {
      LegalPrefix(PRISTINE, events, k, cfg, clk);
      RunsKeepWorld(events[..k], cfg, clk);
      RunsKeepFormed(PRISTINE, events[..k], cfg, clk);
      GoodDiskOpens(Run(PRISTINE, events[..k], cfg, clk), cfg, clk);
    }
  }

  lemma GoodDiskOpens(w: World, cfg: Config, clk: Clock)
    requires WorldInv(w, cfg, clk) && WorldFormed(w, cfg)
    ensures Opens(w.disk, cfg)
  {
    hide Inv, Agrees, FileOk, FileFormed, FileTimed, LoadAll, Standing;
    if w.disk.Some? {
      LoadAccepts(w.disk.value, clk(w.tick), cfg.ttlMs);
      TimesDecide(w.disk.value, clk(w.tick), cfg.ttlMs);
      DiskDecides(w.disk, cfg);
    }
  }

  // ---- a run that locks out ----

  /** An instance: a lease given back at a reading before it was taken writes a file nobody can open. */
  lemma BackwardsClockLocksOut(id: string)
    requires ValidSessionId(id) && Trimmed(id)
    ensures var clk: Clock := i => if i <= 3 then 5 else 3;
            var cfg := Config(10, 1);
            var (s1, taken) := Resolve(Store(EMPTY, None, 0), cfg, clk, "p", "c", true, Some(id), Written);
            var (s2, given) := Release(s1, cfg, clk, "p", "c", Written);
            && taken == Session(id) && given == Done && !s2.mem.failed
            && LocksOut(s1, cfg, clk, ReleaseOp("p", "c"))
            && Open(s2.disk, s2.tick, cfg, clk, Written).1.None?
  {
    hide ValidSessionId, Resolve;
    var clk: Clock := i => if i <= 3 then 5 else 3;
    var cfg := Config(10, 1);
    var key := KeyOf("p", "c");
    LeaseTaken(id, clk, cfg);
    assert Trim("p") == "p" && Trim("c") == "c";
    hide Trim;
    var taken := Entry(id, "p", "c", Active, 5, 5, 1);
    var given := Entry(id, "p", "c", Idle, 5, 3, 0);
    OneStays(key, given, 3, cfg);
    assert Touch([key], key) == [key];
    var s1 := Resolve(Store(EMPTY, None, 0), cfg, clk, "p", "c", true, Some(id), Written).0;
    assert GiveBack(s1.mem, key, 3) == Memory(map[key := given], [key], false, false);
    var s2 := Release(s1, cfg, clk, "p", "c", Written).0;
    assert s2.mem == Memory(map[key := given], [key], false, false);
    assert s2.disk == Some([given]);
    assert [given][..0] == [] && !Acceptable(given);
  }

  lemma LeaseTaken(id: string, clk: Clock, cfg: Config)
    requires ValidSessionId(id) && Trimmed(id) && cfg == Config(10, 1) && forall i: nat :: i <= 3 ==> clk(i) == 5
    ensures var key, taken := KeyOf("p", "c"), Entry(id, "p", "c", Active, 5, 5, 1);
            Resolve(Store(EMPTY, None, 0), cfg, clk, "p", "c", true, Some(id), Written)
            == (Store(Memory(map[key := taken], [key], false, false), Some([taken]), 4), Session(id))
  {
    hide ValidSessionId;
    var key, taken := KeyOf("p", "c"), Entry(id, "p", "c", Active, 5, 5, 1);
    assert Trim("p") == "p" && Trim("c") == "c";
    hide Trim;
    assert Evicted(EMPTY, 5, cfg) == EMPTY;
    OneStays(key, taken, 5, cfg);
    assert Touch([], key) == [key];
    assert Adopt(EMPTY, "p", "c", id, true, 5).entries == map[key := taken];
  }

  lemma OneStays(key: string, e: Entry, now: int, cfg: Config)
    requires e.lastUsedMs == now && cfg == Config(10, 1)
    ensures Evicted(Memory(map[key := e], [key], false, false), now, cfg) == Memory(map[key := e], [key], false, false)
    ensures Snapshot(map[key := e], [key]) == [e]
  {
    var entries, order := map[key := e], [key];
    assert order[1..] == [];
    assert Unexpired(entries, order, now, cfg.ttlMs) == order;
    assert IdleCount(entries, order) <= 1;
    assert Restrict(entries, order) == entries;
  }
}
