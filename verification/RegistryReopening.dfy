/** What a crash recovery does to the LRU order: the eviction of the reopening itself, and those after it. */
module RegistryReopening {
  import opened Prelude
  import opened Text
  import opened SessionId
  import opened Registry
  import opened RegistryOrder
  import opened RegistryInvariant
  import opened RegistryRecovery
  import opened RegistryRuns
  import opened RegistryIdentity
  import opened RegistryLru

  // ---- recovered files, entry by entry ----

  ghost predicate FileOrdered(file: seq<Entry>) {
    forall i, j :: 0 <= i < j < |file| && file[i].state == Idle && file[j].state == Idle ==>
      file[i].lastUsedMs <= file[j].lastUsedMs
  }

  lemma {:induction false} RecoveredAt(file: seq<Entry>, now: int)
    ensures |RecoveredFile(file, now)| == |file|
    ensures forall i :: 0 <= i < |file| ==> RecoveredFile(file, now)[i] == Recovered(file[i], now)
  {
    if file != [] {
      RecoveredAt(file[1..], now);
      assert forall i :: 1 <= i < |file| ==> file[i] == file[1..][i - 1];
    }
  }

  // ---- order of last use, and the victims ----

  /** However many idle entries the LRU bound takes, each of them was used no later than any idle one that stays. */
  ghost predicate EveryVictimOldest(m: Memory) {
    forall n: nat, v, k ::
      v in m.order && v !in DropIdle(m.entries, m.order, n) && k in DropIdle(m.entries, m.order, n)
      && IsIdle(m.entries, v) && IsIdle(m.entries, k) ==>
        m.entries[v].lastUsedMs <= m.entries[k].lastUsedMs
  }

  ghost predicate OrderedAt(entries: map<string, Entry>, order: seq<string>) {
    forall i, j :: 0 <= i < j < |order| && IsIdle(entries, order[i]) && IsIdle(entries, order[j]) ==>
      entries[order[i]].lastUsedMs <= entries[order[j]].lastUsedMs
  }

  lemma {:induction false} OrderedAtIff(entries: map<string, Entry>, order: seq<string>)
    ensures LruOrdered(entries, order) <==> OrderedAt(entries, order)
  {
    if order != [] {
      var rest := order[1..];
      OrderedAtIff(entries, rest);
      assert forall i :: 1 <= i < |order| ==> order[i] == rest[i - 1];
      if OrderedAt(entries, order) {
        forall i, j | 0 <= i < j < |rest| && IsIdle(entries, rest[i]) && IsIdle(entries, rest[j])
          ensures entries[rest[i]].lastUsedMs <= entries[rest[j]].lastUsedMs
        {
          assert rest[i] == order[i + 1] && rest[j] == order[j + 1];
        }
      }
    }
  }

  lemma {:induction false} IdleCountPrefix(entries: map<string, Entry>, order: seq<string>, i: nat, j: nat)
    requires i <= j <= |order|
    ensures IdleCount(entries, order[..i]) <= IdleCount(entries, order[..j])
    decreases j
  {
    if i < j {
      IdleCountPrefix(entries, order, i, j - 1);
      IdleCountAppend(entries, order[..j - 1], order[j - 1]);
      assert order[..j - 1] + [order[j - 1]] == order[..j];
    }
  }

  /** The order of use is right exactly when every victim it can yield is. */
  lemma OrderedIff(m: Memory)
    requires Listing(m)
    ensures LruOrdered(m.entries, m.order) <==> EveryVictimOldest(m)
  {
    if LruOrdered(m.entries, m.order) { OrderedVictims(m); }
    if EveryVictimOldest(m) { VictimsOrdered(m); }
  }

  lemma OrderedVictims(m: Memory)
    requires Listing(m) && LruOrdered(m.entries, m.order)
    ensures EveryVictimOldest(m)
  {
    hide LruOrdered, NoDup, DropIdle;
    forall n: nat, v, k |
      v in m.order && v !in DropIdle(m.entries, m.order, n) && k in DropIdle(m.entries, m.order, n)
      && IsIdle(m.entries, v) && IsIdle(m.entries, k)
      ensures m.entries[v].lastUsedMs <= m.entries[k].lastUsedMs
    {
      OrderedDrop(m.entries, m.order, n);
    }
  }

  lemma VictimsOrdered(m: Memory)
    requires Listing(m) && EveryVictimOldest(m)
    ensures LruOrdered(m.entries, m.order)
  {
    hide LruOrdered, NoDup, DropIdle, IdleCount;
    var entries, order := m.entries, m.order;
    forall i, j | 0 <= i < j < |order| && IsIdle(entries, order[i]) && IsIdle(entries, order[j])
      ensures entries[order[i]].lastUsedMs <= entries[order[j]].lastUsedMs
    {
      SplitAt(entries, order, i, j);
      var n := IdleCount(entries, order[..i]) + 1;
      assert order[i] !in DropIdle(entries, order, n) && order[j] in DropIdle(entries, order, n);
    }
    OrderedAtIff(entries, order);
  }

  /** Dropping one idle key more than stand before the i-th takes that and spares all later ones. */
  lemma SplitAt(entries: map<string, Entry>, order: seq<string>, i: nat, j: nat)
    requires NoDup(order) && i < j < |order| && IsIdle(entries, order[i])
    ensures var n := IdleCount(entries, order[..i]) + 1;
            order[i] in order && order[i] !in DropIdle(entries, order, n) && order[j] in DropIdle(entries, order, n)
  {
    hide NoDup, DropIdle, IdleCount;
    var n := IdleCount(entries, order[..i]) + 1;
    DropIdleExact(entries, order, n, i);
    DropIdleExact(entries, order, n, j);
    IdleCountAppend(entries, order[..i], order[i]);
    assert order[..i] + [order[i]] == order[..i + 1];
    IdleCountPrefix(entries, order, i + 1, j);
  }

  /** `at` says where in r each element of the subsequence k stands. */
  ghost predicate Picks(k: seq<Entry>, r: seq<Entry>, at: seq<nat>) {
    && |at| == |k|
    && (forall a :: 0 <= a < |k| ==> at[a] < |r| && k[a] == r[at[a]])
    && (forall a, b :: 0 <= a < b < |k| ==> at[a] < at[b])
  }

  /** One element more in front, which the subsequence takes or not. */
  lemma PicksMore(k: seq<Entry>, r: seq<Entry>, at: seq<nat>, e: Entry, taken: bool) returns (more: seq<nat>)
    requires Picks(k, r, at)
    ensures Picks((if taken then [e] else []) + k, [e] + r, more)
  {
    var later := seq(|at|, a requires 0 <= a < |at| => at[a] + 1);
    more := (if taken then [0] else []) + later;
  }

  lemma {:induction false} PicksUnexpired(r: seq<Entry>, now: int, ttlMs: int) returns (at: seq<nat>)
    ensures Picks(UnexpiredFile(r, now, ttlMs), r, at)
  {
    if r == [] {
      at := [];
    } else {
      at := PicksUnexpired(r[1..], now, ttlMs);
      at := PicksMore(UnexpiredFile(r[1..], now, ttlMs), r[1..], at, r[0], !Expired(r[0], now, ttlMs));
      assert [r[0]] + r[1..] == r;
    }
  }

  lemma {:induction false} PicksDrop(r: seq<Entry>, n: nat) returns (at: seq<nat>)
    ensures Picks(DropIdleFile(r, n), r, at)
  {
    if n == 0 || r == [] {
      at := seq(|r|, a => a);
    } else {
      var idle := r[0].state == Idle;
      var fewer := if idle then n - 1 else n;
      at := PicksDrop(r[1..], fewer);
      at := PicksMore(DropIdleFile(r[1..], fewer), r[1..], at, r[0], !idle);
      assert [r[0]] + r[1..] == r && [] + DropIdleFile(r[1..], fewer) == DropIdleFile(r[1..], fewer);
    }
  }

  lemma PicksEvicted(r: seq<Entry>, now: int, cfg: Config) returns (at: seq<nat>)
    ensures Picks(EvictFile(r, now, cfg), r, at)
  {
    hide UnexpiredFile, DropIdleFile;
    var live := UnexpiredFile(r, now, cfg.ttlMs);
    var at0 := PicksUnexpired(r, now, cfg.ttlMs);
    var at1 := PicksDrop(live, Excess(IdleInFile(live), cfg.maxIdle));
    at := seq(|at1|, a requires 0 <= a < |at1| => at0[at1[a]]);
  }

  /** The order of a subsequence, said of the whole, when no element occurs twice. */
  lemma PickedOrder(k: seq<Entry>, r: seq<Entry>, at: seq<nat>)
    requires Picks(k, r, at) && forall i, j :: 0 <= i < j < |r| ==> r[i] != r[j]
    ensures FileOrdered(k)
            <==> forall i, j :: 0 <= i < j < |r| && r[i] in k && r[j] in k
                                && r[i].state == Idle && r[j].state == Idle ==>
                   r[i].lastUsedMs <= r[j].lastUsedMs
  {
    if FileOrdered(k) {
      forall i, j | 0 <= i < j < |r| && r[i] in k && r[j] in k && r[i].state == Idle && r[j].state == Idle
        ensures r[i].lastUsedMs <= r[j].lastUsedMs
      {
        var a :| 0 <= a < |k| && k[a] == r[i];
        var b :| 0 <= b < |k| && k[b] == r[j];
        assert at[a] == i && at[b] == j;
        assert a < b;
      }
    } else {
      var a, b :| 0 <= a < b < |k| && k[a].state == Idle && k[b].state == Idle && k[a].lastUsedMs > k[b].lastUsedMs;
      assert r[at[a]] in k && r[at[b]] in k;
    }
  }

  lemma OrderedFile(m: Memory)
    requires Listing(m)
    ensures FileOrdered(FileOf(m)) <==> LruOrdered(m.entries, m.order)
  {
    hide Snapshot, NoDup;
    SnapshotMembers(m.entries, m.order);
    OrderedAtIff(m.entries, m.order);
    assert forall i :: 0 <= i < |m.order| ==> m.order[i] in m.order;
  }

  /** The entry at this place of the file is still there after the reopening. */
  predicate Stays(file: seq<Entry>, i: nat, cfg: Config, clk: Clock, tick: nat)
    requires i < |file|
  {
    Recovered(file[i], clk(tick)) in Recovery(file, cfg, clk, tick)
  }

  /** Evicting a before b is in order of last use: a lapsed lease counts as used at the reopening. */
  predicate InOrder(a: Entry, b: Entry, now: int) {
    b.state == Idle ==>
      && (a.state == Idle ==> a.lastUsedMs <= b.lastUsedMs)
      && (a.state == Active ==> b.lastUsedMs == now)
  }

  lemma RecoveredDistinct(file: seq<Entry>, now: int)
    requires FileOk(file, now)
    ensures var r := RecoveredFile(file, now);
            |r| == |file| && (forall i, j :: 0 <= i < j < |r| ==> r[i] != r[j])
            && forall i :: 0 <= i < |file| ==> r[i] == Recovered(file[i], now) && file[i].lastUsedMs <= now
  {
    hide ValidSessionId, Identity, Trimmed, KeyOf;
    RecoveredAt(file, now);
  }

  // ---- the eviction that the reopening itself performs ----

  /** What the LRU pass of a reopening chooses from: the entries as recovered, without the expired. */
  function Candidates(file: seq<Entry>, ttlMs: int, clk: Clock, tick: nat): seq<Entry> {
    UnexpiredFile(RecoveredFile(file, clk(tick)), clk(tick + 1), ttlMs)
  }

  predicate InPlay(e: Entry, ttlMs: int, clk: Clock, tick: nat) {
    !Expired(Recovered(e, clk(tick)), clk(tick + 1), ttlMs)
  }

  /** How many candidates before this place of the file are idle, lapsed leases included. */
  function IdleAhead(file: seq<Entry>, i: nat, ttlMs: int, clk: Clock, tick: nat): nat
    requires i <= |file|
  {
    IdleInFile(Candidates(file[..i], ttlMs, clk, tick))
  }

  /** How many idle candidates are too many. */
  function Surplus(file: seq<Entry>, cfg: Config, clk: Clock, tick: nat): nat {
    Excess(IdleAhead(file, |file|, cfg.ttlMs, clk, tick), cfg.maxIdle)
  }

  /** The reopening succeeds, and whatever its LRU pass takes was used no later than any idle entry it leaves. */
  ghost predicate EvictsOldest(file: seq<Entry>, tick: nat, cfg: Config, clk: Clock) {
    var m := Open(Some(file), tick, cfg, clk, Written).1;
    && m.Some?
    && forall v, k ::
         v in Candidates(file, cfg.ttlMs, clk, tick) && v !in FileOf(m.value)
         && k in FileOf(m.value) && k.state == Idle ==>
           v.lastUsedMs <= k.lastUsedMs
  }

  lemma {:induction false} CandidatesConcat(a: seq<Entry>, b: seq<Entry>, ttlMs: int, clk: Clock, tick: nat)
    ensures Candidates(a + b, ttlMs, clk, tick) == Candidates(a, ttlMs, clk, tick) + Candidates(b, ttlMs, clk, tick)
  {
    if a == [] {
      assert a + b == b;
    } else {
      CandidatesConcat(a[1..], b, ttlMs, clk, tick);
      assert (a + b)[1..] == a[1..] + b;
      CandidatesFront(a, ttlMs, clk, tick);
      CandidatesFront(a + b, ttlMs, clk, tick);
    }
  }

  lemma CandidatesFront(file: seq<Entry>, ttlMs: int, clk: Clock, tick: nat)
    requires file != []
    ensures Candidates(file, ttlMs, clk, tick)
            == (if InPlay(file[0], ttlMs, clk, tick) then [Recovered(file[0], clk(tick))] else [])
               + Candidates(file[1..], ttlMs, clk, tick)
  {
    var r := RecoveredFile(file, clk(tick));
    assert r[1..] == RecoveredFile(file[1..], clk(tick));
  }

  lemma {:induction false} IdleConcat(a: seq<Entry>, b: seq<Entry>)
    ensures IdleInFile(a + b) == IdleInFile(a) + IdleInFile(b)
  {
    if a == [] {
      assert a + b == b;
    } else {
      IdleConcat(a[1..], b);
      assert (a + b)[1..] == a[1..] + b;
    }
  }

  /** The candidates around one place of the file. */
  lemma CandidatesAround(file: seq<Entry>, i: nat, ttlMs: int, clk: Clock, tick: nat)
    requires i < |file|
    ensures Candidates(file, ttlMs, clk, tick)
            == Candidates(file[..i], ttlMs, clk, tick)
               + (if InPlay(file[i], ttlMs, clk, tick) then [Recovered(file[i], clk(tick))] else [])
               + Candidates(file[i + 1..], ttlMs, clk, tick)
  {
    hide Candidates, InPlay, Recovered;
    var before, rest := file[..i], file[i..];
    assert before + rest == file && rest[0] == file[i] && rest[1..] == file[i + 1..];
    CandidatesConcat(before, rest, ttlMs, clk, tick);
    CandidatesFront(rest, ttlMs, clk, tick);
  }

  lemma IdleAheadGrows(file: seq<Entry>, i: nat, j: nat, ttlMs: int, clk: Clock, tick: nat)
    requires i < j <= |file|
    ensures IdleAhead(file, j, ttlMs, clk, tick)
            >= IdleAhead(file, i, ttlMs, clk, tick)
               + (if InPlay(file[i], ttlMs, clk, tick) && file[i].state != Terminated then 1 else 0)
  {
    hide Candidates, InPlay;
    var upto := file[..j];
    assert upto[..i] == file[..i] && upto[i] == file[i];
    CandidatesAround(upto, i, ttlMs, clk, tick);
    var before, after := Candidates(file[..i], ttlMs, clk, tick), Candidates(upto[i + 1..], ttlMs, clk, tick);
    var own := if InPlay(file[i], ttlMs, clk, tick) then [Recovered(file[i], clk(tick))] else [];
    IdleConcat(before + own, after);
    IdleConcat(before, own);
  }

  lemma {:induction false} CandidateMember(file: seq<Entry>, ttlMs: int, clk: Clock, tick: nat, e: Entry)
    requires e in Candidates(file, ttlMs, clk, tick)
    ensures exists i :: 0 <= i < |file| && e == Recovered(file[i], clk(tick)) && InPlay(file[i], ttlMs, clk, tick)
  {
    hide InPlay, Recovered;
    if file != [] {
      CandidatesFront(file, ttlMs, clk, tick);
      hide Candidates;
      if e in Candidates(file[1..], ttlMs, clk, tick) {
        CandidateMember(file[1..], ttlMs, clk, tick, e);
        var i :| 0 <= i < |file[1..]| && e == Recovered(file[1..][i], clk(tick))
                 && InPlay(file[1..][i], ttlMs, clk, tick);
        assert file[i + 1] == file[1..][i];
      } else {
        assert e == Recovered(file[0], clk(tick));
      }
    }
  }

  /** An element that occurs once is dropped when it is idle and fewer than n idle ones come before it. */
  lemma {:induction false} DropMiddle(before: seq<Entry>, e: Entry, after: seq<Entry>, n: nat)
    requires e !in before && e !in after
    ensures e in DropIdleFile(before + [e] + after, n) <==> e.state != Idle || IdleInFile(before) >= n
  {
    var all := before + [e] + after;
    if before == [] {
      assert all[0] == e && all[1..] == after;
      if n > 0 && e.state == Idle && e in DropIdleFile(after, n - 1) { DropMember(after, n - 1, e); }
    } else {
      assert all[0] == before[0] && all[1..] == before[1..] + [e] + after;
      if n > 0 { DropMiddle(before[1..], e, after, if before[0].state == Idle then n - 1 else n); }
    }
  }

  /** Exactly which entries a reopening keeps, and which its LRU pass takes. */
  lemma KeptExactly(file: seq<Entry>, i: nat, cfg: Config, clk: Clock, tick: nat)
    requires FileOk(file, clk(tick)) && i < |file|
    ensures Recovered(file[i], clk(tick)) in Candidates(file, cfg.ttlMs, clk, tick)
            <==> InPlay(file[i], cfg.ttlMs, clk, tick)
    ensures Stays(file, i, cfg, clk, tick)
            <==> InPlay(file[i], cfg.ttlMs, clk, tick)
                 && (file[i].state == Terminated
                     || IdleAhead(file, i, cfg.ttlMs, clk, tick) >= Surplus(file, cfg, clk, tick))
  {
    hide FileOk, Candidates, InPlay;
    var e := Recovered(file[i], clk(tick));
    var before := Candidates(file[..i], cfg.ttlMs, clk, tick);
    var after := Candidates(file[i + 1..], cfg.ttlMs, clk, tick);
    assert file[..|file|] == file;
    OnlyHere(file, i, cfg.ttlMs, clk, tick);
    CandidatesAround(file, i, cfg.ttlMs, clk, tick);
    var all, n := Candidates(file, cfg.ttlMs, clk, tick), Surplus(file, cfg, clk, tick);
    RecoveryIs(file, cfg, clk, tick);
    if InPlay(file[i], cfg.ttlMs, clk, tick) {
      DropMiddle(before, e, after, n);
    } else {
      assert before + [] == before;
      if e in DropIdleFile(all, n) { DropMember(all, n, e); }
    }
  }

  lemma RecoveryIs(file: seq<Entry>, cfg: Config, clk: Clock, tick: nat)
    ensures Recovery(file, cfg, clk, tick)
            == DropIdleFile(Candidates(file, cfg.ttlMs, clk, tick), Surplus(file, cfg, clk, tick))
  {
    assert file[..|file|] == file;
  }

  lemma OnlyHere(file: seq<Entry>, i: nat, ttlMs: int, clk: Clock, tick: nat)
    requires FileOk(file, clk(tick)) && i < |file|
    ensures Recovered(file[i], clk(tick)) !in Candidates(file[..i], ttlMs, clk, tick)
    ensures Recovered(file[i], clk(tick)) !in Candidates(file[i + 1..], ttlMs, clk, tick)
  {
    hide FileOk, Candidates, InPlay, Recovered;
    var e, now := Recovered(file[i], clk(tick)), clk(tick);
    RecoveredDistinct(file, now);
    var r, before, after := RecoveredFile(file, now), file[..i], file[i + 1..];
    assert forall k :: 0 <= k < i ==> before[k] == file[k] && r[k] != r[i];
    assert forall k :: 0 <= k < |after| ==> after[k] == file[i + 1 + k] && r[i] != r[i + 1 + k];
    NotCandidate(before, ttlMs, clk, tick, e);
    NotCandidate(after, ttlMs, clk, tick, e);
  }

  lemma NotCandidate(file: seq<Entry>, ttlMs: int, clk: Clock, tick: nat, e: Entry)
    requires forall k :: 0 <= k < |file| ==> Recovered(file[k], clk(tick)) != e
    ensures e !in Candidates(file, ttlMs, clk, tick)
  {
    hide Candidates, InPlay, Recovered;
    if e in Candidates(file, ttlMs, clk, tick) { CandidateMember(file, ttlMs, clk, tick, e); }
  }

  /**
    Exactly when the reopening itself evicts in order of last use: when, of any two entries not
    expired, the first among the surplus and the second not, the file has them in order, and no
    leased entry comes before an idle one last used before the reopening.
   */
  lemma ReopeningEvictsOldest(file: seq<Entry>, tick: nat, cfg: Config, clk: Clock)
    requires GoodClock(clk) && GoodConfig(cfg) && FileOk(file, clk(tick))
    ensures EvictsOldest(file, tick, cfg, clk)
            <==> forall i, j :: 0 <= i < j < |file|
                                && InPlay(file[i], cfg.ttlMs, clk, tick) && InPlay(file[j], cfg.ttlMs, clk, tick)
                                && IdleAhead(file, i, cfg.ttlMs, clk, tick) < Surplus(file, cfg, clk, tick)
                                && Surplus(file, cfg, clk, tick) <= IdleAhead(file, j, cfg.ttlMs, clk, tick) ==>
                   InOrder(file[i], file[j], clk(tick))
  {
    hide GoodClock, GoodConfig, FileOk, Open, Candidates, InPlay, IdleAhead, Surplus, FileOf, Inv, Recovery;
    OpenRecovers(file, tick, cfg, clk, Written);
    RecoveredDistinct(file, clk(tick));
    if EvictsOldest(file, tick, cfg, clk) {
      forall i, j | 0 <= i < j < |file|
                    && InPlay(file[i], cfg.ttlMs, clk, tick) && InPlay(file[j], cfg.ttlMs, clk, tick)
                    && IdleAhead(file, i, cfg.ttlMs, clk, tick) < Surplus(file, cfg, clk, tick)
                    && Surplus(file, cfg, clk, tick) <= IdleAhead(file, j, cfg.ttlMs, clk, tick)
        ensures InOrder(file[i], file[j], clk(tick))
      {
        KeptExactly(file, i, cfg, clk, tick);
        KeptExactly(file, j, cfg, clk, tick);
      }
    } else {
      var v, k := Wrong(file, tick, cfg, clk);
      var i, j := WrongPlaces(file, tick, cfg, clk, v, k);
    }
  }

  lemma Wrong(file: seq<Entry>, tick: nat, cfg: Config, clk: Clock) returns (v: Entry, k: Entry)
    requires GoodClock(clk) && GoodConfig(cfg) && FileOk(file, clk(tick)) && !EvictsOldest(file, tick, cfg, clk)
    ensures v in Candidates(file, cfg.ttlMs, clk, tick) && v !in Recovery(file, cfg, clk, tick)
    ensures k in Recovery(file, cfg, clk, tick) && k.state == Idle && v.lastUsedMs > k.lastUsedMs
  {
    hide GoodClock, GoodConfig, FileOk, Open, Candidates, FileOf, Inv, Recovery;
    OpenRecovers(file, tick, cfg, clk, Written);
    v, k :| v in Candidates(file, cfg.ttlMs, clk, tick) && v !in Recovery(file, cfg, clk, tick)
            && k in Recovery(file, cfg, clk, tick) && k.state == Idle && v.lastUsedMs > k.lastUsedMs;
  }

  lemma WrongPlaces(file: seq<Entry>, tick: nat, cfg: Config, clk: Clock, v: Entry, k: Entry) returns (i: nat, j: nat)
    requires FileOk(file, clk(tick))
    requires v in Candidates(file, cfg.ttlMs, clk, tick) && v !in Recovery(file, cfg, clk, tick)
    requires k in Recovery(file, cfg, clk, tick) && k.state == Idle && v.lastUsedMs > k.lastUsedMs
    ensures i < j < |file| && InPlay(file[i], cfg.ttlMs, clk, tick) && InPlay(file[j], cfg.ttlMs, clk, tick)
    ensures IdleAhead(file, i, cfg.ttlMs, clk, tick) < Surplus(file, cfg, clk, tick)
            <= IdleAhead(file, j, cfg.ttlMs, clk, tick)
    ensures !InOrder(file[i], file[j], clk(tick))
  {
    hide FileOk, Candidates, InPlay, IdleAhead, Surplus, Recovery;
    var now, ttlMs := clk(tick), cfg.ttlMs;
    RecoveryIs(file, cfg, clk, tick);
    DropMember(Candidates(file, ttlMs, clk, tick), Surplus(file, cfg, clk, tick), k);
    CandidateMember(file, ttlMs, clk, tick, v);
    CandidateMember(file, ttlMs, clk, tick, k);
    i :| 0 <= i < |file| && v == Recovered(file[i], now) && InPlay(file[i], ttlMs, clk, tick);
    j :| 0 <= j < |file| && k == Recovered(file[j], now) && InPlay(file[j], ttlMs, clk, tick);
    KeptExactly(file, i, cfg, clk, tick);
    KeptExactly(file, j, cfg, clk, tick);
    RecoveredDistinct(file, now);
    if j < i { IdleAheadGrows(file, j, i, ttlMs, clk, tick); }
  }

  /**
    The same for whatever the bound takes: every bound evicts in order of last use exactly when the
    order holds between any two unexpired entries.
   */
  lemma EveryBoundEvictsOldest(file: seq<Entry>, tick: nat, cfg: Config, clk: Clock)
    requires GoodClock(clk) && GoodConfig(cfg) && FileOk(file, clk(tick))
    ensures (forall bound: int :: bound > 0 ==> EvictsOldest(file, tick, cfg.(maxIdle := bound), clk))
            <==> forall i, j :: 0 <= i < j < |file| && InPlay(file[i], cfg.ttlMs, clk, tick)
                                && InPlay(file[j], cfg.ttlMs, clk, tick) ==>
                   InOrder(file[i], file[j], clk(tick))
  {
    hide GoodClock, FileOk, InPlay, IdleAhead, EvictsOldest, InOrder;
    var ttlMs := cfg.ttlMs;
    if forall i, j ::
         0 <= i < j < |file| && InPlay(file[i], ttlMs, clk, tick) && InPlay(file[j], ttlMs, clk, tick) ==>
           InOrder(file[i], file[j], clk(tick))
    {
      forall bound: int | bound > 0 ensures EvictsOldest(file, tick, cfg.(maxIdle := bound), clk) {
        ReopeningEvictsOldest(file, tick, cfg.(maxIdle := bound), clk);
      }
    }
    if forall bound: int :: bound > 0 ==> EvictsOldest(file, tick, cfg.(maxIdle := bound), clk) {
      forall i, j | 0 <= i < j < |file| && InPlay(file[i], ttlMs, clk, tick) && InPlay(file[j], ttlMs, clk, tick)
        ensures InOrder(file[i], file[j], clk(tick))
      {
        if file[i].state == Terminated || file[j].state != Idle {
          OrderOfOthers(file[i], file[j], clk(tick));
        } else {
          IdleAheadGrows(file, i, j, ttlMs, clk, tick);
          IdleAheadGrows(file, j, |file|, ttlMs, clk, tick);
          var bound := IdleAhead(file, |file|, ttlMs, clk, tick) - IdleAhead(file, i, ttlMs, clk, tick) - 1;
          ReopeningEvictsOldest(file, tick, cfg.(maxIdle := bound), clk);
          assert EvictsOldest(file, tick, cfg.(maxIdle := bound), clk);
          assert Surplus(file, cfg.(maxIdle := bound), clk, tick) == IdleAhead(file, i, ttlMs, clk, tick) + 1;
        }
      }
    }
  }

  lemma OrderOfOthers(a: Entry, b: Entry, now: int)
    requires a.state == Terminated || b.state != Idle
    ensures InOrder(a, b, now)
  {
  }

  // ---- later evictions ----

  /**
    What comes after: exactly when all later evictions from the memory that the reopening leaves are
    in order of last use, namely when the same holds between the entries that stay.
   */
  lemma ReopenedOrder(file: seq<Entry>, tick: nat, cfg: Config, clk: Clock, w: Write)
    requires GoodClock(clk) && GoodConfig(cfg) && FileOk(file, clk(tick))
    requires Open(Some(file), tick, cfg, clk, w).1.Some?
    ensures EveryVictimOldest(Open(Some(file), tick, cfg, clk, w).1.value)
            <==> forall i, j :: 0 <= i < j < |file| && Stays(file, i, cfg, clk, tick)
                                && Stays(file, j, cfg, clk, tick) ==>
                   InOrder(file[i], file[j], clk(tick))
  {
    hide GoodClock, GoodConfig, FileOk, Open, EvictFile, Inv, FileOf, EveryVictimOldest, LruOrdered, FileOrdered,
         Picks, Listing, WellKept, RecoveredFile, Recovered;
    var m, now := Open(Some(file), tick, cfg, clk, w).1.value, clk(tick);
    var r := RecoveredFile(file, now);
    var kept := EvictFile(r, clk(tick + 1), cfg);
    OpenRecovers(file, tick, cfg, clk, w);
    InvKept(m, cfg, clk(tick + 2));
    ListingOf(m, clk(tick + 2));
    OrderedIff(m);
    OrderedFile(m);
    var at := PicksEvicted(r, clk(tick + 1), cfg);
    RecoveredDistinct(file, now);
    PickedOrder(kept, r, at);
    SameOrder(file, r, kept, now);
  }

  lemma SameOrder(file: seq<Entry>, r: seq<Entry>, kept: seq<Entry>, now: int)
    requires |r| == |file|
    requires forall i :: 0 <= i < |file| ==> r[i] == Recovered(file[i], now) && file[i].lastUsedMs <= now
    ensures (forall i, j :: 0 <= i < j < |r| && r[i] in kept && r[j] in kept
                            && r[i].state == Idle && r[j].state == Idle ==>
               r[i].lastUsedMs <= r[j].lastUsedMs)
            <==> forall i, j :: 0 <= i < j < |file| && Recovered(file[i], now) in kept
                                && Recovered(file[j], now) in kept && file[j].state == Idle ==>
                   && (file[i].state == Idle ==> file[i].lastUsedMs <= file[j].lastUsedMs)
                   && (file[i].state == Active ==> file[j].lastUsedMs == now)
  {
    forall i, j | 0 <= i < j < |file| && Recovered(file[i], now) in kept && Recovered(file[j], now) in kept
      ensures r[i] in kept && r[j] in kept
    {
    }
  }

  // ---- a run whose reopening evicts the newest session ----

  /** The file of the run below breaks the condition: the session in use is the surplus, and the older one is not. */
  lemma NewestIsSurplus(a: string, b: string)
    requires ValidSessionId(a) && Trimmed(a) && ValidSessionId(b) && Trimmed(b) && a != b
    ensures var file := [Held(a, "used", Active, 1, 5, 2), Held(b, "old", Idle, 3, 3, 0)];
            && InPlay(file[0], ONE_IDLE.ttlMs, AFTER, 9) && InPlay(file[1], ONE_IDLE.ttlMs, AFTER, 9)
            && IdleAhead(file, 0, ONE_IDLE.ttlMs, AFTER, 9) < Surplus(file, ONE_IDLE, AFTER, 9)
            && Surplus(file, ONE_IDLE, AFTER, 9) <= IdleAhead(file, 1, ONE_IDLE.ttlMs, AFTER, 9)
            && !InOrder(file[0], file[1], AFTER(9)) && !EvictsOldest(file, 9, ONE_IDLE, AFTER)
  {
    hide ValidSessionId, Open, FileOf;
    var inUse, stale := Held(a, "used", Active, 1, 5, 2), Held(b, "old", Idle, 3, 3, 0);
    var file := [inUse, stale];
    Keys();
    GoodReadings();
    assert FileOk(file, 10);
    hide FileOk, KeyOf, Identity, Trim, GoodClock, EvictsOldest;
    TwoCandidates(inUse, stale, Recovered(inUse, 10));
    ReopeningEvictsOldest(file, 9, ONE_IDLE, AFTER);
  }

  lemma TwoCandidates(inUse: Entry, stale: Entry, back: Entry)
    requires back == Recovered(inUse, 10) && inUse.state == Active
    requires stale.state == Idle && stale.lastUsedMs == 3
    ensures var file := [inUse, stale];
            && IdleAhead(file, 0, ONE_IDLE.ttlMs, AFTER, 9) == 0 && IdleAhead(file, 1, ONE_IDLE.ttlMs, AFTER, 9) == 1
            && Surplus(file, ONE_IDLE, AFTER, 9) == 1
  {
    var file, ttlMs := [inUse, stale], ONE_IDLE.ttlMs;
    assert file[..0] == [] && file[..1] == [inUse] && file[..2] == file;
    assert file[1..] == [stale] && [stale][1..] == [] && [inUse][1..] == [];
    CandidatesFront(file, ttlMs, AFTER, 9);
    CandidatesFront([stale], ttlMs, AFTER, 9);
    CandidatesFront([inUse], ttlMs, AFTER, 9);
    hide Candidates;
    assert Candidates([], ttlMs, AFTER, 9) == [] by { NoCandidates(ttlMs); }
    assert Candidates([inUse], ttlMs, AFTER, 9) == [back];
    assert Candidates(file, ttlMs, AFTER, 9) == [back, stale];
    assert [back, stale][1..] == [stale] && [back][1..] == [];
    assert IdleInFile([stale]) == 1 && IdleInFile([back, stale]) == 2 && IdleInFile([back]) == 1;
  }

  lemma NoCandidates(ttlMs: int)
    ensures Candidates([], ttlMs, AFTER, 9) == []
  {
  }

  /**
    A file that meets neither: a run leases one session, opens a second, uses the first again, and
    crashes.  Its reopening evicts the session in use when the process died and keeps the older one.
   */
  lemma RecoveryCanEvictNewest(a: string, b: string)
    requires ValidSessionId(a) && Trimmed(a) && ValidSessionId(b) && Trimmed(b) && a != b
    ensures var events := [Opened("used", a, true), Opened("old", b, false), Call(ReferenceOp("p", "used"), Written)];
            var inUse, stale := Held(a, "used", Active, 1, 5, 2), Held(b, "old", Idle, 3, 3, 0);
            && Legal(FRESH_START, events + [Crash, Boot(Written)], ONE_IDLE, AFTER)
            && Run(FRESH_START, events, ONE_IDLE, AFTER).disk == Some([inUse, stale])
            && !EvictsOldest([inUse, stale], Run(FRESH_START, events, ONE_IDLE, AFTER).tick, ONE_IDLE, AFTER)
            && var w := Run(FRESH_START, events + [Crash, Boot(Written)], ONE_IDLE, AFTER);
               w.proc.Some? && FileOf(w.proc.value) == [stale] && w.disk == Some([stale])
  {
    var e1, e2, e3 := Opened("used", a, true), Opened("old", b, false), Call(ReferenceOp("p", "used"), Written);
    var inUse, stale := Held(a, "used", Active, 1, 5, 2), Held(b, "old", Idle, 3, 3, 0);
    FirstSession(a, true);
    SecondSession(a, b, true);
    Keys();
    var k, l := KeyOf("p", "used"), KeyOf("p", "old");
    var w1 := Next(FRESH_START, e1, ONE_IDLE, AFTER);
    var w2 := Next(w1, e2, ONE_IDLE, AFTER);
    var w3 := World(Some(Memory(map[k := inUse, l := stale], [k, l], false, false)), Some([inUse, stale]), 9);
    UsedAgain(a, b);
    RecoversStale(a, b);
    NextEnabled(w2, w3);
    NewestIsSurplus(a, b);
    assert Next(w3, Crash, ONE_IDLE, AFTER) == World(None, Some([inUse, stale]), 9);
    hide *;
    RunOfFive(e1, e2, e3, w1, w2, w3);
  }

  /** Three calls, then a crash and a reopening. */
  lemma RunOfFive(e1: Event, e2: Event, e3: Event, w1: World, w2: World, w3: World)
    requires Enabled(FRESH_START, e1) && w1 == Next(FRESH_START, e1, ONE_IDLE, AFTER)
    requires Enabled(w1, e2) && w2 == Next(w1, e2, ONE_IDLE, AFTER)
    requires Enabled(w2, e3) && w3 == Next(w2, e3, ONE_IDLE, AFTER)
    requires Enabled(w3, Crash) && Enabled(Next(w3, Crash, ONE_IDLE, AFTER), Boot(Written))
    ensures var events := [e1, e2, e3];
            && Legal(FRESH_START, events + [Crash, Boot(Written)], ONE_IDLE, AFTER)
            && Run(FRESH_START, events, ONE_IDLE, AFTER) == w3
            && Run(FRESH_START, events + [Crash, Boot(Written)], ONE_IDLE, AFTER)
               == Next(Next(w3, Crash, ONE_IDLE, AFTER), Boot(Written), ONE_IDLE, AFTER)
  {
    hide *;
    var events := [e1, e2, e3];
    RunOne(FRESH_START, [], e1);
    RunOne(FRESH_START, [e1], e2);
    RunOne(FRESH_START, [e1, e2], e3);
    RunOne(FRESH_START, events, Crash);
    RunOne(FRESH_START, events + [Crash], Boot(Written));
    assert [] + [e1] == [e1] && [e1] + [e2] == [e1, e2] && [e1, e2] + [e3] == events;
    assert events + [Crash] + [Boot(Written)] == events + [Crash, Boot(Written)];
  }

  /** Only a call that mints has anything to meet. */
  lemma NextEnabled(w: World, w': World)
    ensures Enabled(w, Call(ReferenceOp("p", "used"), Written))
    ensures Enabled(w', Crash) && Enabled(Next(w', Crash, ONE_IDLE, AFTER), Boot(Written))
  {
  }

  /** The second use of the leased session, which does not move it in the order. */
  lemma UsedAgain(a: string, b: string)
    ensures var k, l := KeyOf("p", "used"), KeyOf("p", "old");
            var e, f := Held(a, "used", Active, 1, 1, 1), Held(b, "old", Idle, 3, 3, 0);
            var inUse := Held(a, "used", Active, 1, 5, 2);
            Next(World(Some(Memory(map[k := e, l := f], [k, l], false, false)), Some([e, f]), 8),
                 Call(ReferenceOp("p", "used"), Written), ONE_IDLE, AFTER)
            == World(Some(Memory(map[k := inUse, l := f], [k, l], false, false)), Some([inUse, f]), 9)
  {
    Keys();
    var k, l := KeyOf("p", "used"), KeyOf("p", "old");
    hide KeyOf, Trim, Identity;
    var e, f := Held(a, "used", Active, 1, 1, 1), Held(b, "old", Idle, 3, 3, 0);
    var inUse := Held(a, "used", Active, 1, 5, 2);
    var entries := map[k := inUse, l := f];
    assert map[k := e, l := f][k := inUse] == entries;
    assert [k, l][1..] == [l] && [l][1..] == [];
    assert Snapshot(entries, [l]) == [f];
    assert Snapshot(entries, [k, l]) == [inUse, f];
  }

  lemma RecoversStale(a: string, b: string)
    requires ValidSessionId(a) && Trimmed(a) && ValidSessionId(b) && Trimmed(b) && a != b
    ensures var inUse, stale := Held(a, "used", Active, 1, 5, 2), Held(b, "old", Idle, 3, 3, 0);
            var w := Next(World(None, Some([inUse, stale]), 9), Boot(Written), ONE_IDLE, AFTER);
            w.proc.Some? && FileOf(w.proc.value) == [stale] && w.disk == Some([stale])
  {
    hide ValidSessionId, Open, FileOf;
    var inUse, stale := Held(a, "used", Active, 1, 5, 2), Held(b, "old", Idle, 3, 3, 0);
    Keys();
    assert FileOk([inUse, stale], 10);
    hide FileOk, KeyOf, Identity, Trim;
    var back := Recovered(inUse, 10);
    assert [stale][1..] == [] && [inUse, stale][1..] == [stale] && [back, stale][1..] == [stale];
    assert RecoveredFile([stale], 10) == [stale];
    assert RecoveredFile([inUse, stale], 10) == [back, stale];
    assert UnexpiredFile([stale], 10, 100) == [stale];
    assert UnexpiredFile([back, stale], 10, 100) == [back, stale];
    assert IdleInFile([stale]) == 1 && IdleInFile([back, stale]) == 2;
    assert DropIdleFile([back, stale], 1) == [stale];
    OpenRecovers([inUse, stale], 9, ONE_IDLE, AFTER, Written);
    assert [inUse, stale][0].state == Active;
  }
}
