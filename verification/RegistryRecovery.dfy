/**
  Crashes and reopening: the state file against the memory of the registry, over whole runs.

  A file is a sequence of entries, so recovery is stated on sequences: old leases lapse, then
  eviction applies.  The theorems show that NewSessionRegistry computes exactly that, that it
  accepts every file a registry wrote, and that a crash between operations loses nothing.
 */
module RegistryRecovery {
  import opened Prelude
  import opened Text
  import opened SessionId
  import opened Registry
  import opened RegistryOrder
  import opened RegistryInvariant

  // ---- recovery on sequences of entries ----

  function UnexpiredFile(file: seq<Entry>, now: int, ttlMs: int): (r: seq<Entry>)
    ensures forall e :: e in r ==> e in file
  {
    if file == [] then []
    else (if Expired(file[0], now, ttlMs) then [] else [file[0]]) + UnexpiredFile(file[1..], now, ttlMs)
  }

  function IdleInFile(file: seq<Entry>): nat {
    if file == [] then 0 else (if file[0].state == Idle then 1 else 0) + IdleInFile(file[1..])
  }

  function DropIdleFile(file: seq<Entry>, n: nat): seq<Entry> {
    if n == 0 || file == [] then file
    else if file[0].state == Idle then DropIdleFile(file[1..], n - 1)
    else [file[0]] + DropIdleFile(file[1..], n)
  }

  function EvictFile(file: seq<Entry>, now: int, cfg: Config): seq<Entry> {
    var live := UnexpiredFile(file, now, cfg.ttlMs);
    DropIdleFile(live, Excess(IdleInFile(live), cfg.maxIdle))
  }

  function RecoveredFile(file: seq<Entry>, now: int): seq<Entry> {
    if file == [] then [] else [Recovered(file[0], now)] + RecoveredFile(file[1..], now)
  }

  /** What a reopened registry holds: no leases, then the ordinary eviction. */
  function Recovery(file: seq<Entry>, cfg: Config, clk: Clock, tick: nat): seq<Entry> {
    EvictFile(RecoveredFile(file, clk(tick)), clk(tick + 1), cfg)
  }

  function FileOf(m: Memory): seq<Entry> {
    Snapshot(m.entries, m.order)
  }

  // ---- snapshots of a well-kept memory ----

  lemma {:induction false} SnapshotFrame(a: map<string, Entry>, b: map<string, Entry>, order: seq<string>)
    requires forall k :: k in order ==> (k in a <==> k in b) && (k in a ==> a[k] == b[k])
    ensures Snapshot(a, order) == Snapshot(b, order)
  {
    if order != [] {
      SnapshotFrame(a, b, order[1..]);
    }
  }

  lemma {:induction false} SnapshotMembers(entries: map<string, Entry>, order: seq<string>)
    requires forall k :: k in order ==> k in entries
    ensures |Snapshot(entries, order)| == |order|
    ensures forall i :: 0 <= i < |order| ==> Snapshot(entries, order)[i] == entries[order[i]]
  {
    if order != [] {
      SnapshotMembers(entries, order[1..]);
      assert forall i :: 1 <= i < |order| ==> order[i] == order[1..][i - 1];
    }
  }

  lemma {:induction false} SnapshotUnexpired(entries: map<string, Entry>, order: seq<string>, now: int, ttlMs: int)
    requires forall k :: k in order ==> k in entries
    ensures Snapshot(entries, Unexpired(entries, order, now, ttlMs))
            == UnexpiredFile(Snapshot(entries, order), now, ttlMs)
  {
    if order != [] {
      SnapshotUnexpired(entries, order[1..], now, ttlMs);
      var rest := Unexpired(entries, order[1..], now, ttlMs);
      assert ([order[0]] + rest)[1..] == rest;
      assert Snapshot(entries, order)[1..] == Snapshot(entries, order[1..]);
    }
  }

  /** The snapshot of a listed key and the rest. */
  lemma SnapshotStep(entries: map<string, Entry>, key: string, rest: seq<string>)
    requires key in entries
    ensures Snapshot(entries, [key] + rest) == [entries[key]] + Snapshot(entries, rest)
  {
    assert ([key] + rest)[1..] == rest;
  }

  lemma {:induction false} SnapshotIdle(entries: map<string, Entry>, order: seq<string>)
    requires forall k :: k in order ==> k in entries
    ensures IdleInFile(Snapshot(entries, order)) == IdleCount(entries, order)
  {
    hide Snapshot;
    if order == [] {
      assert Snapshot(entries, order) == [] by { SnapshotNothing(entries); }
    } else {
      var key, rest := order[0], order[1..];
      assert order == [key] + rest;
      SnapshotIdle(entries, rest);
      SnapshotStep(entries, key, rest);
      assert Snapshot(entries, order)[1..] == Snapshot(entries, rest);
    }
  }

  lemma SnapshotNothing(entries: map<string, Entry>)
    ensures Snapshot(entries, []) == []
  {
  }

  lemma {:induction false} SnapshotDrop(entries: map<string, Entry>, order: seq<string>, n: nat)
    requires forall k :: k in order ==> k in entries
    ensures Snapshot(entries, DropIdle(entries, order, n)) == DropIdleFile(Snapshot(entries, order), n)
  {
    hide Snapshot;
    if order == [] {
      SnapshotNothing(entries);
    } else if n != 0 {
      var key, rest := order[0], order[1..];
      assert order == [key] + rest;
      SnapshotStep(entries, key, rest);
      assert Snapshot(entries, order)[1..] == Snapshot(entries, rest);
      if IsIdle(entries, key) {
        SnapshotDrop(entries, rest, n - 1);
      } else {
        SnapshotDrop(entries, rest, n);
        SnapshotStep(entries, key, DropIdle(entries, rest, n));
      }
    }
  }

  /** Evicting the memory is evicting the file. */
  lemma SnapshotEvicted(m: Memory, now: int, cfg: Config)
    requires Listing(m)
    ensures FileOf(Evicted(m, now, cfg)) == EvictFile(FileOf(m), now, cfg)
  {
    var live := Unexpired(m.entries, m.order, now, cfg.ttlMs);
    var n := Excess(IdleCount(m.entries, live), cfg.maxIdle);
    SnapshotUnexpired(m.entries, m.order, now, cfg.ttlMs);
    SnapshotIdle(m.entries, live);
    SnapshotDrop(m.entries, live, n);
    var m' := Evicted(m, now, cfg);
    SnapshotFrame(m.entries, m'.entries, m'.order);
  }

  lemma {:induction false} SnapshotAppend(entries: map<string, Entry>, order: seq<string>, key: string, e: Entry)
    requires key !in order
    ensures Snapshot(entries[key := e], order + [key]) == Snapshot(entries, order) + [e]
  {
    var r := order + [key];
    if order == [] {
      assert r[1..] == [];
    } else {
      SnapshotAppend(entries, order[1..], key, e);
      assert r[1..] == order[1..] + [key];
    }
  }

  // ---- files a registry writes ----

  ghost predicate FileOk(file: seq<Entry>, now: int) {
    && (forall i :: 0 <= i < |file| ==> Sane(file[i], now))
    && (forall i, j :: 0 <= i < j < |file| ==>
          EntryKey(file[i]) != EntryKey(file[j]) && file[i].sessionId != file[j].sessionId)
  }

  lemma {:induction false} NoDupIndices(s: seq<string>, i: nat, j: nat)
    requires NoDup(s) && i < j < |s|
    ensures s[i] != s[j]
  {
    if i == 0 {
      assert s[j] in s[1..];
    } else {
      NoDupIndices(s[1..], i - 1, j - 1);
    }
  }

  lemma SnapshotFileOk(m: Memory, now: int)
    requires WellKept(m, now)
    ensures FileOk(FileOf(m), now)
  {
    hide Sane, KeyOf, NoDup;
    SnapshotMembers(m.entries, m.order);
    var file := FileOf(m);
    forall i | 0 <= i < |file|
      ensures Sane(file[i], now) && m.order[i] in m.entries && m.order[i] == EntryKey(file[i])
    {
      assert m.order[i] in m.order;
    }
    forall i, j | 0 <= i < j < |file|
      ensures EntryKey(file[i]) != EntryKey(file[j]) && file[i].sessionId != file[j].sessionId
    {
      NoDupIndices(m.order, i, j);
    }
  }

  lemma FileOkLater(file: seq<Entry>, now: int, later: int)
    requires FileOk(file, now) && now <= later
    ensures FileOk(file, later)
  {
    hide ValidSessionId, Identity, Trimmed, KeyOf;
  }

  lemma SaneIsAcceptable(e: Entry, now: int)
    requires Sane(e, now)
    ensures Acceptable(e)
  {
    hide ValidSessionId;
  }

  // ---- NewSessionRegistry reads such a file exactly ----

  /** The entries load keeps: everything but the terminated ones past their TTL. */
  function Unlapsed(file: seq<Entry>, now: int, ttlMs: int): seq<Entry> {
    if file == [] then []
    else
      Unlapsed(file[..|file| - 1], now, ttlMs)
      + (if Lapsed(file[|file| - 1], now, ttlMs) then [] else [Recovered(file[|file| - 1], now)])
  }

  ghost predicate LoadedFrom(l: Loading, file: seq<Entry>, now: int, ttlMs: int) {
    && WellKept(Memory(l.entries, l.order, false, false), now)
    && Snapshot(l.entries, l.order) == Unlapsed(file, now, ttlMs)
    && Sourced(l, file, now)
  }

  /** Everything loaded comes from the file, and every identifier of the file was seen. */
  ghost predicate Sourced(l: Loading, file: seq<Entry>, now: int) {
    && (forall k :: k in l.entries ==> exists i :: 0 <= i < |file| && k == EntryKey(file[i])
                                                 && l.entries[k] == Recovered(file[i], now))
    && (forall id :: id in l.ids <==> exists i :: 0 <= i < |file| && file[i].sessionId == id)
    && (!l.recovered ==> forall i :: 0 <= i < |file| ==> file[i].state != Active)
  }

  lemma RecoveredSane(e: Entry, now: int)
    requires Sane(e, now)
    ensures Sane(Recovered(e, now), now) && EntryKey(Recovered(e, now)) == EntryKey(e)
  {
    hide ValidSessionId, Identity, Trimmed, KeyOf;
  }

  lemma SourcedStep(l: Loading, l': Loading, file: seq<Entry>, e: Entry, now: int)
    requires Sourced(l, file, now)
    requires l'.entries == l.entries || l'.entries == l.entries[EntryKey(e) := Recovered(e, now)]
    requires l'.ids == l.ids + {e.sessionId} && l'.recovered == (l.recovered || e.state == Active)
    ensures Sourced(l', file + [e], now)
  {
    hide KeyOf, Recovered;
    var next := file + [e];
    assert next[|file|] == e;
    assert forall i :: 0 <= i < |file| ==> next[i] == file[i];
  }

  /** A good file names each key and each identifier once, so the next entry is new. */
  lemma NextIsNew(l: Loading, file: seq<Entry>, e: Entry, now: int)
    requires Sourced(l, file, now) && FileOk(file + [e], now)
    ensures Sane(e, now) && EntryKey(e) !in l.entries && e.sessionId !in l.ids
    ensures forall k :: k in l.entries ==> l.entries[k].sessionId != e.sessionId
  {
    hide Sane, KeyOf;
    var next := file + [e];
    assert next[|file|] == e;
    assert forall i :: 0 <= i < |file| ==> next[i] == file[i];
  }

  lemma LoadOneStep(l: Loading, file: seq<Entry>, e: Entry, now: int, ttlMs: int)
    requires LoadedFrom(l, file, now, ttlMs) && FileOk(file + [e], now)
    ensures LoadOne(l, e, now, ttlMs).Some?
    ensures LoadedFrom(LoadOne(l, e, now, ttlMs).value, file + [e], now, ttlMs)
  {
    hide Sane, KeyOf, NoDup, Acceptable, Snapshot, Sourced, FileOk, Recovered;
    assert (file + [e])[..|file|] == file;
    NextIsNew(l, file, e, now);
    SaneIsAcceptable(e, now);
    RecoveredSane(e, now);
    var m, key := Memory(l.entries, l.order, false, false), EntryKey(e);
    SourcedStep(l, LoadOne(l, e, now, ttlMs).value, file, e, now);
    if !Lapsed(e, now, ttlMs) {
      KeptIsListed(m, now);
      AppendNoDup(l.order, key);
      SnapshotAppend(l.entries, l.order, key, Recovered(e, now));
      RecoveredKeepsId(e, now);
      PutKept(m, key, Recovered(e, now), l.order + [key], now);
    } else {
      assert Unlapsed(file, now, ttlMs) + [] == Unlapsed(file, now, ttlMs);
    }
  }

  lemma KeptIsListed(m: Memory, now: int)
    requires WellKept(m, now)
    ensures NoDup(m.order) && forall k :: k in m.order <==> k in m.entries
  {
  }

  lemma RecoveredKeepsId(e: Entry, now: int)
    ensures Recovered(e, now).sessionId == e.sessionId
  {
  }

  lemma {:induction false} LoadAccepts(file: seq<Entry>, now: int, ttlMs: int)
    requires FileOk(file, now)
    ensures LoadAll(file, now, ttlMs).Some?
    ensures LoadedFrom(LoadAll(file, now, ttlMs).value, file, now, ttlMs)
  {
    hide Sane, LoadOne, KeyOf;
    if file != [] {
      var init, e := file[..|file| - 1], file[|file| - 1];
      assert FileOk(init, now) by {
        assert forall i :: 0 <= i < |init| ==> init[i] == file[i];
      }
      LoadAccepts(init, now, ttlMs);
      assert init + [e] == file;
      LoadOneStep(LoadAll(init, now, ttlMs).value, init, e, now, ttlMs);
    }
  }

  lemma {:induction false} UnexpiredFileAppend(file: seq<Entry>, e: Entry, now: int, ttlMs: int)
    ensures UnexpiredFile(file + [e], now, ttlMs)
            == UnexpiredFile(file, now, ttlMs) + (if Expired(e, now, ttlMs) then [] else [e])
  {
    var r := file + [e];
    if file == [] {
      assert r[1..] == [];
    } else {
      UnexpiredFileAppend(file[1..], e, now, ttlMs);
      assert r[1..] == file[1..] + [e];
    }
  }

  lemma {:induction false} RecoveredFileAppend(file: seq<Entry>, e: Entry, now: int)
    ensures RecoveredFile(file + [e], now) == RecoveredFile(file, now) + [Recovered(e, now)]
  {
    var r := file + [e];
    if file == [] {
      assert r[1..] == [];
    } else {
      RecoveredFileAppend(file[1..], e, now);
      assert r[1..] == file[1..] + [e];
    }
  }

  /** Dropping lapsed entries while reading changes nothing that eviction would not drop. */
  lemma {:induction false} LapsedAreEvicted(file: seq<Entry>, now: int, later: int, ttlMs: int)
    requires now <= later
    ensures UnexpiredFile(Unlapsed(file, now, ttlMs), later, ttlMs)
            == UnexpiredFile(RecoveredFile(file, now), later, ttlMs)
  {
    if file != [] {
      var init, e := file[..|file| - 1], file[|file| - 1];
      assert file == init + [e];
      LapsedAreEvicted(init, now, later, ttlMs);
      RecoveredFileAppend(init, e, now);
      UnexpiredFileAppend(RecoveredFile(init, now), Recovered(e, now), later, ttlMs);
      if !Lapsed(e, now, ttlMs) {
        UnexpiredFileAppend(Unlapsed(init, now, ttlMs), Recovered(e, now), later, ttlMs);
      } else {
        assert Unlapsed(file, now, ttlMs) == Unlapsed(init, now, ttlMs);
      }
    }
  }

  /**
    Reopening a file some registry wrote never fails but for the write itself, and yields
    exactly the recovery of that file: same identities, no leases, then eviction.
   */
  lemma OpenRecovers(file: seq<Entry>, tick: nat, cfg: Config, clk: Clock, w: Write)
    requires GoodClock(clk) && GoodConfig(cfg) && FileOk(file, clk(tick))
    ensures var (disk, mem) := Open(Some(file), tick, cfg, clk, w);
            && (w == Written ==> mem.Some?)
            && (mem.Some? ==>
                  && Inv(mem.value, cfg, clk(tick + 2)) && Ready(mem.value)
                  && FileOf(mem.value) == Recovery(file, cfg, clk, tick)
                  && (disk == Some(FileOf(mem.value))
                      || (disk == Some(file) && FileOf(mem.value) == Unlapsed(file, clk(tick), cfg.ttlMs)
                                                          && forall i :: 0 <= i < |file| ==> file[i].state != Active)))
            && (mem.None? ==> disk == Some(file) || disk == Some(Recovery(file, cfg, clk, tick)))
            && FileOk(Recovery(file, cfg, clk, tick), clk(tick + 2))
  {
    hide GoodClock, Sane, KeyOf, NoDup, Inv, WellKept, Evicted, EvictFile, Unlapsed;
    var now, later := clk(tick), clk(tick + 1);
    ClockOrder(clk, tick, tick + 1);
    ClockOrder(clk, tick, tick + 2);
    LoadAccepts(file, now, cfg.ttlMs);
    var l := LoadAll(file, now, cfg.ttlMs).value;
    var loaded := Memory(l.entries, l.order, false, false);
    var mem := Evicted(loaded, later, cfg);
    KeptLater(loaded, now, clk(tick + 2));
    EvictedInv(loaded, cfg, later, clk(tick + 2));
    ListingOf(loaded, now);
    SnapshotEvicted(loaded, later, cfg);
    SameRecovery(file, now, later, cfg);
    EvictedReady(loaded, later, cfg);
    InvKept(mem, cfg, clk(tick + 2));
    SnapshotFileOk(mem, clk(tick + 2));
    if |mem.order| == |l.order| {
      NothingEvicted(loaded, later, cfg);
    }
  }

  lemma ListingOf(m: Memory, now: int)
    requires WellKept(m, now)
    ensures Listing(m)
  {
  }

  lemma EvictedReady(m: Memory, now: int, cfg: Config)
    ensures Evicted(m, now, cfg).closed == m.closed && Evicted(m, now, cfg).failed == m.failed
  {
  }

  lemma SameRecovery(file: seq<Entry>, now: int, later: int, cfg: Config)
    requires now <= later
    ensures EvictFile(Unlapsed(file, now, cfg.ttlMs), later, cfg) == EvictFile(RecoveredFile(file, now), later, cfg)
  {
    LapsedAreEvicted(file, now, later, cfg.ttlMs);
  }

  lemma {:induction false} UnexpiredShrinks(entries: map<string, Entry>, order: seq<string>, now: int, ttlMs: int)
    ensures |Unexpired(entries, order, now, ttlMs)| <= |order|
    ensures |Unexpired(entries, order, now, ttlMs)| == |order| ==> Unexpired(entries, order, now, ttlMs) == order
  {
    if order != [] {
      UnexpiredShrinks(entries, order[1..], now, ttlMs);
    }
  }

  lemma {:induction false} DropIdleShrinks(entries: map<string, Entry>, order: seq<string>, n: nat)
    ensures |DropIdle(entries, order, n)| <= |order|
    ensures |DropIdle(entries, order, n)| == |order| ==> DropIdle(entries, order, n) == order
  {
    if n != 0 && order != [] {
      DropIdleShrinks(entries, order[1..], n);
      DropIdleShrinks(entries, order[1..], n - 1);
    }
  }

  /** evictLocked returning 0 means the memory is as it was. */
  lemma NothingEvicted(m: Memory, now: int, cfg: Config)
    requires Listing(m) && |Evicted(m, now, cfg).order| == |m.order|
    ensures FileOf(Evicted(m, now, cfg)) == FileOf(m)
  {
    var live := Unexpired(m.entries, m.order, now, cfg.ttlMs);
    UnexpiredShrinks(m.entries, m.order, now, cfg.ttlMs);
    DropIdleShrinks(m.entries, live, Excess(IdleCount(m.entries, live), cfg.maxIdle));
    var m' := Evicted(m, now, cfg);
    SnapshotFrame(m.entries, m'.entries, m'.order);
  }
}
