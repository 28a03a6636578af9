/** Identities across whole runs: what a key is called, and what callers are answered. */
module RegistryIdentity {
  import opened Prelude
  import opened Text
  import opened SessionId
  import opened Registry
  import opened RegistryOrder
  import opened RegistryInvariant
  import opened RegistryRecovery
  import opened RegistryRuns

  // ---- an identity is stable until eviction ----

  /**
    The identifier a world holds for a key: in the running registry; in the file, when its process
    is dead or has failed a write and only recovery can follow.
   */
  ghost predicate Names(w: World, key: string, id: string) {
    if w.proc.Some? && !w.proc.value.failed then
      key in w.proc.value.entries && w.proc.value.entries[key].sessionId == id
    else Recorded(w.disk, key, id)
  }

  ghost predicate Named(w: World, key: string) {
    exists id :: Names(w, key, id)
  }

  /** The call itself finds the entry of this key expired, evicts it and may mint anew. */
  predicate Remints(w: World, e: Event, key: string, cfg: Config, clk: Clock) {
    && e.Call? && e.op.ResolveOp? && key == KeyOf(e.op.principal, e.op.conversation)
    && w.proc.Some? && key in w.proc.value.entries
    && Expired(w.proc.value.entries[key], clk(w.tick), cfg.ttlMs)
  }

  lemma RecordedUnique(file: seq<Entry>, now: int, key: string, a: string, b: string)
    requires FileOk(file, now) && Recorded(Some(file), key, a) && Recorded(Some(file), key, b)
    ensures a == b
  {
    hide Sane, KeyOf;
    var e :| e in file && EntryKey(e) == key && e.sessionId == a;
    var f :| f in file && EntryKey(f) == key && f.sessionId == b;
    var i :| 0 <= i < |file| && file[i] == e;
    var j :| 0 <= j < |file| && file[j] == f;
    assert i == j;
  }

  lemma {:induction false} DropMember(file: seq<Entry>, n: nat, e: Entry)
    requires e in DropIdleFile(file, n)
    ensures e in file
  {
    if n != 0 && file != [] {
      if file[0].state == Idle {
        DropMember(file[1..], n - 1, e);
      } else if e != file[0] {
        DropMember(file[1..], n, e);
      }
    }
  }

  lemma {:induction false} RecoveredMember(file: seq<Entry>, now: int, e: Entry) returns (before: Entry)
    requires e in RecoveredFile(file, now)
    ensures before in file && e == Recovered(before, now)
  {
    before := file[0];
    if e != Recovered(file[0], now) {
      before := RecoveredMember(file[1..], now, e);
    }
  }

  /** Recovery never changes an identifier. */
  lemma RecoveryKeepsIdentity(file: seq<Entry>, cfg: Config, clk: Clock, tick: nat, key: string, id: string)
    requires Recorded(Some(Recovery(file, cfg, clk, tick)), key, id)
    ensures Recorded(Some(file), key, id)
  {
    hide KeyOf, IdleInFile;
    var e :| e in Recovery(file, cfg, clk, tick) && EntryKey(e) == key && e.sessionId == id;
    var recovered := RecoveredFile(file, clk(tick));
    var live := UnexpiredFile(recovered, clk(tick + 1), cfg.ttlMs);
    DropMember(live, Excess(IdleInFile(live), cfg.maxIdle), e);
    var before := RecoveredMember(file, clk(tick), e);
    assert EntryKey(before) == key;
  }

  /** A reopened registry starts without leases: those of the dead process have lapsed. */
  lemma OpenHasNoLeases(file: seq<Entry>, tick: nat, cfg: Config, clk: Clock, w: Write, key: string)
    requires GoodClock(clk) && GoodConfig(cfg) && FileOk(file, clk(tick))
    requires Open(Some(file), tick, cfg, clk, w).1.Some?
    ensures LeasesOf(Open(Some(file), tick, cfg, clk, w).1.value, key) == 0
  {
    hide GoodClock, Open, FileOk, KeyOf, IdleInFile, NoDup, ValidSessionId, Identity, Trimmed, Unlapsed;
    OpenRecovers(file, tick, cfg, clk, w);
    var m := Open(Some(file), tick, cfg, clk, w).1.value;
    InvKept(m, cfg, clk(tick + 2));
    if key in m.entries {
      var e := m.entries[key];
      RecordedIff(m, clk(tick + 2), key, e.sessionId);
      EntryInFile(m, clk(tick + 2), key);
      var live := UnexpiredFile(RecoveredFile(file, clk(tick)), clk(tick + 1), cfg.ttlMs);
      DropMember(live, Excess(IdleInFile(live), cfg.maxIdle), e);
      var before := RecoveredMember(file, clk(tick), e);
    }
  }

  lemma EntryInFile(m: Memory, now: int, key: string)
    requires WellKept(m, now) && key in m.entries
    ensures m.entries[key] in FileOf(m)
  {
    hide Sane, KeyOf, NoDup;
    SnapshotMembers(m.entries, m.order);
    var i :| 0 <= i < |m.order| && m.order[i] == key;
    assert FileOf(m)[i] == m.entries[key];
  }

  lemma CallKeepsName(w: World, e: Event, cfg: Config, clk: Clock, key: string, a: string, b: string)
    requires GoodClock(clk) && GoodConfig(cfg) && WorldInv(w, cfg, clk) && Enabled(w, e)
    requires e.Call? && w.proc.Some? && !w.proc.value.failed
    requires Names(w, key, a) && Names(Next(w, e, cfg, clk), key, b)
    ensures a == b || Remints(w, e, key, cfg, clk)
  {
    hide GoodClock, Inv, DiskOk, Agrees, Recorded, KeyOf, Apply, Admissible, FileOf;
    if !Remints(w, e, key, cfg, clk) {
      var s := Store(w.proc.value, w.disk, w.tick);
      var s' := Apply(s, cfg, clk, e.op, e.write).0;
      if s'.mem.failed {
        StepOnDisk(s, cfg, clk, e.op, e.write);
        if s'.disk == s.disk {
          CrashKeepsName(w, cfg, clk, key, a, b);
          return;
        }
        StepKeepsInv(s, cfg, clk, e.op, e.write);
        InvKept(s'.mem, cfg, clk(s'.tick));
        RecordedIff(s'.mem, clk(s'.tick), key, b);
      }
      OtherKeysKeepIdentity(s, cfg, clk, e.op, e.write, key);
    }
  }

  /** A registry that has failed a write never touches its file again. */
  lemma FailedLeavesFile(w: World, e: Event, cfg: Config, clk: Clock)
    requires e.Call? && w.proc.Some? && w.proc.value.failed
    ensures var w' := Next(w, e, cfg, clk); w'.disk == w.disk && w'.proc.Some? && w'.proc.value.failed
  {
    hide KeyOf, Evicted, Use, Adopt, GiveBack, Identity, Live;
  }

  /** An entry that stays keeps its identifier, unless this very call found it expired and minted anew. */
  lemma OtherKeysKeepIdentity(s: Store, cfg: Config, clk: Clock, op: Op, w: Write, key: string)
    requires Inv(s.mem, cfg, clk(s.tick))
    requires key in s.mem.entries && key in Apply(s, cfg, clk, op, w).0.mem.entries
    requires !(op.ResolveOp? && key == KeyOf(op.principal, op.conversation)
               && Expired(s.mem.entries[key], clk(s.tick), cfg.ttlMs))
    ensures Apply(s, cfg, clk, op, w).0.mem.entries[key].sessionId == s.mem.entries[key].sessionId
  {
    hide EvictedOrder, KeyOf, Identity, Snapshot, Touch, Inv;
    SweepDecides(s.mem, cfg, clk(s.tick), key);
  }

  lemma CrashKeepsName(w: World, cfg: Config, clk: Clock, key: string, a: string, b: string)
    requires WorldInv(w, cfg, clk) && w.proc.Some?
    requires Names(w, key, a) && Recorded(w.disk, key, b)
    ensures a == b
  {
    hide Sane, KeyOf, IdleCount, Listing, DistinctIds;
    if w.proc.value.failed {
      SameDiskSameName(w, cfg, clk, key, a, b);
      return;
    }
    var m, file := w.proc.value, w.disk.value;
    InvKept(m, cfg, clk(w.tick));
    RecordedIff(m, clk(w.tick), key, a);
    var h :| 0 <= h <= clk(w.tick) && FileOf(m) == UnexpiredFile(file, h, cfg.ttlMs);
    var e :| e in FileOf(m) && EntryKey(e) == key && e.sessionId == a;
    assert e in file;
    RecordedUnique(file, clk(w.tick), key, a, b);
  }

  lemma BootKeepsName(w: World, write: Write, cfg: Config, clk: Clock, key: string, a: string, b: string)
    requires GoodClock(clk) && GoodConfig(cfg) && WorldInv(w, cfg, clk) && w.proc.None?
    requires Names(w, key, a) && Names(Next(w, Boot(write), cfg, clk), key, b)
    ensures a == b
  {
    hide GoodClock, Inv, FileOk, Open, Recovery, FileOf, Recorded, Agrees, Unlapsed;
    RecordedSome(w.disk, key, a);
    var file := w.disk.value;
    var now := clk(w.tick + 2);
    OpenRecovers(file, w.tick, cfg, clk, write);
    var w' := Next(w, Boot(write), cfg, clk);
    if w'.proc.Some? {
      InvKept(w'.proc.value, cfg, now);
      RecordedIff(w'.proc.value, now, key, b);
      RecoveryKeepsIdentity(file, cfg, clk, w.tick, key, b);
    } else if w'.disk != w.disk {
      RecoveryKeepsIdentity(file, cfg, clk, w.tick, key, b);
    }
    RecordedUnique(file, clk(w.tick), key, a, b);
  }

  lemma RecordedSome(disk: Option<seq<Entry>>, key: string, id: string)
    requires Recorded(disk, key, id)
    ensures disk.Some?
  {
  }

  lemma NameStable(w: World, e: Event, cfg: Config, clk: Clock, key: string, a: string, b: string)
    requires GoodClock(clk) && GoodConfig(cfg) && WorldInv(w, cfg, clk) && Enabled(w, e)
    requires Names(w, key, a) && Names(Next(w, e, cfg, clk), key, b)
    ensures a == b || Remints(w, e, key, cfg, clk)
  {
    hide GoodClock, WorldInv, Recorded, Remints, Enabled, Apply, Open;
    match e
    case Call(op, write) =>
      if w.proc.None? {
        SameDiskSameName(w, cfg, clk, key, a, b);
      } else if w.proc.value.failed {
        FailedLeavesFile(w, e, cfg, clk);
        SameDiskSameName(w, cfg, clk, key, a, b);
      } else {
        CallKeepsName(w, e, cfg, clk, key, a, b);
      }
    case Crash =>
      if w.proc.Some? {
        CrashKeepsName(w, cfg, clk, key, a, b);
      } else {
        SameDiskSameName(w, cfg, clk, key, a, b);
      }
    case Boot(write) =>
      if w.proc.None? {
        BootKeepsName(w, write, cfg, clk, key, a, b);
      } else {
        SameMomentSameName(w, cfg, clk, key, a, b);
      }
  }

  lemma SameMomentSameName(w: World, cfg: Config, clk: Clock, key: string, a: string, b: string)
    requires WorldInv(w, cfg, clk) && Names(w, key, a) && Names(w, key, b)
    ensures a == b
  {
    hide DiskOk, Inv, Recorded, Agrees;
    if w.proc.None? || w.proc.value.failed {
      SameDiskSameName(w, cfg, clk, key, a, b);
    }
  }

  lemma SameDiskSameName(w: World, cfg: Config, clk: Clock, key: string, a: string, b: string)
    requires WorldInv(w, cfg, clk) && Recorded(w.disk, key, a) && Recorded(w.disk, key, b)
    ensures a == b
  {
    hide FileOk;
    RecordedUnique(w.disk.value, clk(w.tick), key, a, b);
  }

  /** The key is named at every moment from i to j, and no call re-mints it after expiry. */
  ghost predicate HeldThroughout(events: seq<Event>, i: nat, j: nat, key: string, cfg: Config, clk: Clock)
    requires i <= j <= |events|
  {
    && (forall k :: i <= k <= j ==> Named(Run(PRISTINE, events[..k], cfg, clk), key))
    && (forall k :: i <= k < j ==> !Remints(Run(PRISTINE, events[..k], cfg, clk), events[k], key, cfg, clk))
  }

  /**
    While a key stays in the registry, or in the file of a crashed one, its identifier is one and
    the same: across any operations of anybody, any failed writes, any crashes and reopenings.
   */
  lemma {:induction false} IdentityAcrossRuns(events: seq<Event>, i: nat, j: nat, key: string, cfg: Config, clk: Clock,
                                              a: string, b: string)
    requires GoodClock(clk) && GoodConfig(cfg) && Legal(PRISTINE, events, cfg, clk)
    requires i <= j <= |events| && HeldThroughout(events, i, j, key, cfg, clk)
    requires Names(Run(PRISTINE, events[..i], cfg, clk), key, a)
    requires Names(Run(PRISTINE, events[..j], cfg, clk), key, b)
    ensures a == b
    decreases j
  {
    hide GoodClock, WorldInv, Names, Remints, Enabled, Next;
    if i == j {
      NameAtOneMoment(events, i, key, cfg, clk, a, b);
    } else {
      var before := Run(PRISTINE, events[..j - 1], cfg, clk);
      assert Named(before, key);
      var c :| Names(before, key, c);
      IdentityAcrossRuns(events, i, j - 1, key, cfg, clk, a, c);
      PrefixLegal(events, j - 1, cfg, clk);
      RunsKeepWorld(events[..j - 1], cfg, clk);
      assert events[..j][..j - 1] == events[..j - 1];
      assert Run(PRISTINE, events[..j], cfg, clk) == Next(before, events[j - 1], cfg, clk);
      NameStable(before, events[j - 1], cfg, clk, key, c, b);
    }
  }

  lemma PrefixLegal(events: seq<Event>, n: nat, cfg: Config, clk: Clock)
    requires n <= |events| && Legal(PRISTINE, events, cfg, clk)
    ensures Legal(PRISTINE, events[..n], cfg, clk)
  {
    hide Enabled, Run;
    assert forall i :: 0 <= i < n ==> events[..n][..i] == events[..i];
  }

  lemma NameAtOneMoment(events: seq<Event>, i: nat, key: string, cfg: Config, clk: Clock, a: string, b: string)
    requires GoodClock(clk) && GoodConfig(cfg) && Legal(PRISTINE, events, cfg, clk) && i <= |events|
    requires Names(Run(PRISTINE, events[..i], cfg, clk), key, a)
    requires Names(Run(PRISTINE, events[..i], cfg, clk), key, b)
    ensures a == b
  {
    hide GoodClock, WorldInv, Names, Run, Legal;
    PrefixLegal(events, i, cfg, clk);
    RunsKeepWorld(events[..i], cfg, clk);
    SameMomentSameName(Run(PRISTINE, events[..i], cfg, clk), cfg, clk, key, a, b);
  }

  // ---- what callers are answered ----

  /** What the call at position i of a run answered. */
  function ReplyAt(events: seq<Event>, i: nat, cfg: Config, clk: Clock): Reply
    requires i < |events|
  {
    var w := Run(PRISTINE, events[..i], cfg, clk);
    if events[i].Call? && w.proc.Some? then
      Apply(Store(w.proc.value, w.disk, w.tick), cfg, clk, events[i].op, events[i].write).1
    else Refused
  }

  /** A Create or Acquire of the key was answered with an identifier. */
  predicate Answered(events: seq<Event>, i: nat, key: string, id: string, cfg: Config, clk: Clock)
    requires i < |events|
  {
    && events[i].Call? && events[i].op.ResolveOp?
    && KeyOf(events[i].op.principal, events[i].op.conversation) == key
    && ReplyAt(events, i, cfg, clk) == Session(id)
  }

  /** An answered identifier is the one the registry then holds, if it holds any. */
  lemma AnswerIsName(s: Store, cfg: Config, clk: Clock, op: Op, w: Write, key: string)
    requires GoodClock(clk) && GoodConfig(cfg) && Inv(s.mem, cfg, clk(s.tick)) && Admissible(s.mem, op)
    requires op.ResolveOp? && key == KeyOf(op.principal, op.conversation) && Apply(s, cfg, clk, op, w).1.Session?
    ensures var (s', reply) := Apply(s, cfg, clk, op, w);
            !s'.mem.failed && (key in s'.mem.entries ==> s'.mem.entries[key].sessionId == reply.id)
  {
    hide GoodClock, WellKept, Inv, Evicted, Use, Adopt, KeyOf, Identity, Snapshot, ValidSessionId, Trimmed;
    var swept := Evicted(s.mem, clk(s.tick), cfg);
    EvictedReady(s.mem, clk(s.tick), cfg);
    if key in swept.entries {
      UsedEntry(swept, key, op.lease, clk(s.tick + 1));
      UseReady(swept, key, op.lease, clk(s.tick + 1));
    } else {
      InvKept(s.mem, cfg, clk(s.tick));
      EvictedInv(s.mem, cfg, clk(s.tick), clk(s.tick));
      var t, later := clk(s.tick + 2), clk(s.tick + 3);
      AdoptedStays(swept, cfg, op.principal, op.conversation, op.mint.value, op.lease, clk(s.tick), t, later);
      AdoptReady(swept, op.principal, op.conversation, op.mint.value, op.lease, t);
      EvictedReady(Adopt(swept, op.principal, op.conversation, op.mint.value, op.lease, t), later, cfg);
    }
  }

  lemma UseReady(m: Memory, key: string, lease: bool, now: int)
    requires key in m.entries
    ensures Use(m, key, lease, now).failed == m.failed
  {
  }

  lemma AdoptReady(m: Memory, p: string, c: string, id: string, lease: bool, now: int)
    ensures Adopt(m, p, c, id, lease, now).failed == m.failed
  {
  }

  lemma AnswerNames(events: seq<Event>, i: nat, key: string, id: string, cfg: Config, clk: Clock)
    requires GoodClock(clk) && GoodConfig(cfg) && Legal(PRISTINE, events, cfg, clk) && i < |events|
    requires Answered(events, i, key, id, cfg, clk)
    requires Named(Run(PRISTINE, events[..i + 1], cfg, clk), key)
    ensures Names(Run(PRISTINE, events[..i + 1], cfg, clk), key, id)
  {
    hide GoodClock, Inv, DiskOk, Agrees, KeyOf, Apply, Admissible, Recorded;
    PrefixLegal(events, i, cfg, clk);
    RunsKeepWorld(events[..i], cfg, clk);
    var w := Run(PRISTINE, events[..i], cfg, clk);
    assert events[..i + 1][..i] == events[..i];
    AnswerIsName(Store(w.proc.value, w.disk, w.tick), cfg, clk, events[i].op, events[i].write, key);
  }

  /**
    Repeated Create and Acquire: two calls for one key are answered the same identifier, whatever
    happened in between, as long as the key was held all the while.
   */
  lemma SameAnswer(events: seq<Event>, i: nat, j: nat, key: string, cfg: Config, clk: Clock, a: string, b: string)
    requires GoodClock(clk) && GoodConfig(cfg) && Legal(PRISTINE, events, cfg, clk) && i < j < |events|
    requires Answered(events, i, key, a, cfg, clk) && Answered(events, j, key, b, cfg, clk)
    requires HeldThroughout(events, i + 1, j + 1, key, cfg, clk)
    ensures a == b
  {
    hide GoodClock, Names, Remints, Answered, Run;
    AnswerNames(events, i, key, a, cfg, clk);
    AnswerNames(events, j, key, b, cfg, clk);
    IdentityAcrossRuns(events, i + 1, j + 1, key, cfg, clk, a, b);
  }
}
