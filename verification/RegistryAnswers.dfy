/**
  What every registry operation answers, and what it leaves in the entries and in the order of use,
  said without the functions it is built from.  Under any clock and with any write outcome.
 */
module RegistryAnswers {
  import opened Prelude
  import opened Text
  import SessionId
  import opened Registry
  import opened RegistryOrder
  import opened RegistryInvariant
  import opened RegistryRecovery
  import opened RegistryClock

  // ---- one key before another ----

  ghost predicate Precedes(order: seq<string>, a: string, b: string) {
    exists i, j :: 0 <= i < j < |order| && order[i] == a && order[j] == b
  }

  /** The last of the order: the most recently used. */
  predicate IsLast(order: seq<string>, key: string) {
    order != [] && order[|order| - 1] == key
  }

  /** Whatever is left of t stands as it did there. */
  ghost predicate KeepsOrder(s: seq<string>, t: seq<string>) {
    && (forall a :: a in s ==> a in t)
    && (forall a, b :: Precedes(s, a, b) ==> Precedes(t, a, b))
  }

  lemma PrecedesFront(x: string, s: seq<string>, a: string, b: string)
    ensures Precedes([x] + s, a, b) <==> (a == x && b in s) || Precedes(s, a, b)
  {
    var t := [x] + s;
    if Precedes(t, a, b) {
      var i, j :| 0 <= i < j < |t| && t[i] == a && t[j] == b;
      assert t[j] == s[j - 1];
      if i > 0 { assert t[i] == s[i - 1]; }
    }
    if a == x && b in s {
      var j :| 0 <= j < |s| && s[j] == b;
      assert t[0] == a && t[j + 1] == b;
    }
    if Precedes(s, a, b) {
      var i, j :| 0 <= i < j < |s| && s[i] == a && s[j] == b;
      assert t[i + 1] == a && t[j + 1] == b;
    }
  }

  lemma KeepsFront(x: string, s: seq<string>, t: seq<string>)
    requires KeepsOrder(s, t)
    ensures KeepsOrder([x] + s, [x] + t) && KeepsOrder(s, [x] + t)
  {
    hide Precedes;
    forall a, b
      ensures Precedes([x] + s, a, b) ==> Precedes([x] + t, a, b)
      ensures Precedes(s, a, b) ==> Precedes([x] + t, a, b)
    {
      PrecedesFront(x, s, a, b);
      PrecedesFront(x, t, a, b);
    }
  }

  lemma KeepsSelf(s: seq<string>)
    ensures KeepsOrder(s, s)
  {
  }

  lemma {:induction false} RemoveKeeps(order: seq<string>, key: string)
    ensures KeepsOrder(Remove(order, key), order)
  {
    hide KeepsOrder;
    if order == [] {
      KeepsSelf(order);
    } else {
      var rest := order[1..];
      assert order == [order[0]] + rest;
      KeepsSelf(rest);
      RemoveKeeps(rest, key);
      KeepsFront(order[0], Remove(rest, key), rest);
      KeepsFront(order[0], rest, rest);
    }
  }

  lemma {:induction false} UnexpiredKeeps(entries: map<string, Entry>, order: seq<string>, now: int, ttlMs: int)
    ensures KeepsOrder(Unexpired(entries, order, now, ttlMs), order)
  {
    hide KeepsOrder;
    if order == [] {
      KeepsSelf(order);
    } else {
      assert order == [order[0]] + order[1..];
      UnexpiredKeeps(entries, order[1..], now, ttlMs);
      KeepsFront(order[0], Unexpired(entries, order[1..], now, ttlMs), order[1..]);
    }
  }

  lemma {:induction false} DropKeeps(entries: map<string, Entry>, order: seq<string>, n: nat)
    ensures KeepsOrder(DropIdle(entries, order, n), order)
  {
    hide KeepsOrder;
    if n == 0 || order == [] {
      KeepsSelf(order);
    } else {
      assert order == [order[0]] + order[1..];
      var fewer := if IsIdle(entries, order[0]) then n - 1 else n;
      DropKeeps(entries, order[1..], fewer);
      KeepsFront(order[0], DropIdle(entries, order[1..], fewer), order[1..]);
    }
  }

  /** Eviction leaves the rest in order. */
  lemma EvictedKeeps(m: Memory, now: int, cfg: Config)
    ensures KeepsOrder(Evicted(m, now, cfg).order, m.order)
  {
    hide Precedes, Unexpired, DropIdle;
    var live := Unexpired(m.entries, m.order, now, cfg.ttlMs);
    UnexpiredKeeps(m.entries, m.order, now, cfg.ttlMs);
    DropKeeps(m.entries, live, Excess(IdleCount(m.entries, live), cfg.maxIdle));
  }

  lemma LastPrecedesNone(order: seq<string>, key: string, b: string)
    requires IsLast(order, key) && NoDup(order)
    ensures !Precedes(order, key, b)
  {
    if Precedes(order, key, b) {
      var i, j :| 0 <= i < j < |order| && order[i] == key && order[j] == b;
      NoDupIndices(order, i, |order| - 1);
    }
  }

  /** What was last stays last, if it stays. */
  lemma LastStaysLast(s: seq<string>, t: seq<string>, key: string)
    requires KeepsOrder(s, t) && IsLast(t, key) && NoDup(t) && key in s
    ensures IsLast(s, key)
  {
    var i :| 0 <= i < |s| && s[i] == key;
    if i < |s| - 1 {
      assert Precedes(s, key, s[|s| - 1]);
      LastPrecedesNone(t, key, s[|s| - 1]);
    }
  }

  /** All keys but one as they stood before. */
  ghost predicate OthersKeep(s: seq<string>, t: seq<string>, key: string) {
    forall a, b :: a != key && b != key && Precedes(s, a, b) ==> Precedes(t, a, b)
  }

  lemma TouchKeepsOthers(order: seq<string>, key: string)
    ensures OthersKeep(Touch(order, key), order, key) && IsLast(Touch(order, key), key)
  {
    RemoveKeeps(order, key);
    var rest := Remove(order, key);
    forall a, b | a != key && b != key && Precedes(rest + [key], a, b) ensures Precedes(order, a, b) {
      var i, j :| 0 <= i < j < |rest| + 1 && (rest + [key])[i] == a && (rest + [key])[j] == b;
      assert rest[i] == a && rest[j] == b;
      assert Precedes(rest, a, b);
    }
  }

  lemma KeptOthers(s: seq<string>, t: seq<string>, u: seq<string>, key: string)
    requires KeepsOrder(s, t) && OthersKeep(t, u, key)
    ensures OthersKeep(s, u, key)
  {
  }

  // ---- eviction ----

  /** The idle entries in time that were used after the key, by the order of use. */
  ghost function UsedAfter(m: Memory, key: string, now: int, ttlMs: int): set<string> {
    set k | k in m.entries && m.entries[k].state.Idle? && now - m.entries[k].lastUsedMs <= ttlMs
            && Precedes(m.order, key, k)
  }

  /**
    What an eviction leaves: the entries in time and, of the idle ones, those after which fewer than
    maxIdle idle entries in time were used; unchanged, and in the order in which they stood.
   */
  ghost predicate EvictedFrom(m: Memory, after: Memory, now: int, cfg: Config) {
    && after.closed == m.closed && KeepsOrder(after.order, m.order)
    && (forall k :: k in after.entries <==>
                      && k in m.entries && InTime(m.entries[k], now, cfg.ttlMs)
                      && (m.entries[k].state.Idle? ==> |UsedAfter(m, k, now, cfg.ttlMs)| < cfg.maxIdle))
    && (forall k :: k in after.entries ==> k in after.order && after.entries[k] == m.entries[k])
  }

  /** Eviction, exactly. */
  lemma EvictionAnswers(m: Memory, now: int, cfg: Config)
    requires Listing(m) && cfg.maxIdle >= 0
    ensures EvictedFrom(m, Evicted(m, now, cfg), now, cfg) && Evicted(m, now, cfg).failed == m.failed
  {
    hide Evicted, NoDup, KeepsOrder, InTime, UsedAfter;
    EvictedKeeps(m, now, cfg);
    SweptFlags(m, now, cfg);
    forall key
      ensures key in Evicted(m, now, cfg).entries <==>
                && key in m.entries && InTime(m.entries[key], now, cfg.ttlMs)
                && (m.entries[key].state.Idle? ==> |UsedAfter(m, key, now, cfg.ttlMs)| < cfg.maxIdle)
      ensures key in Evicted(m, now, cfg).entries ==>
                key in Evicted(m, now, cfg).order && Evicted(m, now, cfg).entries[key] == m.entries[key]
    {
      KeyEvicted(m, now, cfg, key);
    }
  }

  lemma KeyEvicted(m: Memory, now: int, cfg: Config, key: string)
    requires Listing(m) && cfg.maxIdle >= 0
    ensures var after := Evicted(m, now, cfg);
            && (key in after.entries <==>
                  && key in m.entries && InTime(m.entries[key], now, cfg.ttlMs)
                  && (m.entries[key].state.Idle? ==> |UsedAfter(m, key, now, cfg.ttlMs)| < cfg.maxIdle))
            && (key in after.entries ==> key in after.order && after.entries[key] == m.entries[key])
  {
    hide Precedes, Evicted, NoDup, KeepsOrder, Unexpired, IdleCount;
    EvictionExact(m, now, cfg, key);
    var live := Unexpired(m.entries, m.order, now, cfg.ttlMs);
    UnexpiredMembers(m, now, cfg.ttlMs);
    if key in live {
      var i :| 0 <= i < |live| && live[i] == key;
      LiveNoDup(m, now, cfg.ttlMs);
      forall j | 0 <= j < |live| && live[j] == key ensures j == i { NoDupAt(live, i, j); }
      CountAround(m.entries, live, i);
      AfterIs(m, now, cfg.ttlMs, i);
    }
  }

  lemma UnexpiredMembers(m: Memory, now: int, ttlMs: int)
    requires Listing(m)
    ensures forall k :: k in Unexpired(m.entries, m.order, now, ttlMs) <==>
              k in m.entries && InTime(m.entries[k], now, ttlMs)
  {
    hide NoDup;
  }

  lemma LiveNoDup(m: Memory, now: int, ttlMs: int)
    requires Listing(m)
    ensures NoDup(Unexpired(m.entries, m.order, now, ttlMs))
  {
    UnexpiredNoDup(m.entries, m.order, now, ttlMs);
  }

  lemma {:induction false} CountAround(entries: map<string, Entry>, order: seq<string>, i: nat)
    requires i < |order|
    ensures IdleCount(entries, order) == IdleCount(entries, order[..i]) + (if IsIdle(entries, order[i]) then 1 else 0)
                                         + IdleCount(entries, order[i + 1..])
  {
    if i == 0 {
      assert order[..0] == [];
    } else {
      CountAround(entries, order[1..], i - 1);
      assert order[..i][1..] == order[1..][..i - 1];
      assert order[i + 1..] == order[1..][i..];
    }
  }

  /** The idle keys of a duplicate-free listing, counted. */
  lemma {:induction false} CountIs(entries: map<string, Entry>, order: seq<string>)
    requires NoDup(order)
    ensures IdleCount(entries, order) == |set k | k in order && IsIdle(entries, k)|
  {
    var all := set k | k in order && IsIdle(entries, k);
    if order == [] {
      assert all == {};
    } else {
      CountIs(entries, order[1..]);
      var rest := set k | k in order[1..] && IsIdle(entries, k);
      assert order == [order[0]] + order[1..];
      assert all == if IsIdle(entries, order[0]) then {order[0]} + rest else rest;
    }
  }

  lemma {:induction false} NoDupFrom(order: seq<string>, i: nat)
    requires NoDup(order) && i <= |order|
    ensures NoDup(order[i..])
  {
    if i > 0 {
      NoDupFrom(order[1..], i - 1);
      assert order[i..] == order[1..][i - 1..];
    }
  }

  lemma NoDupAt(s: seq<string>, i: nat, j: nat)
    requires NoDup(s) && i < |s| && j < |s| && s[i] == s[j]
    ensures i == j
  {
    if i < j { NoDupIndices(s, i, j); }
    if j < i { NoDupIndices(s, j, i); }
  }

  /** Keys that both stay stand as they stood. */
  lemma PrecedesBoth(s: seq<string>, t: seq<string>, a: string, b: string)
    requires KeepsOrder(s, t) && NoDup(t) && a in s && b in s
    ensures Precedes(s, a, b) <==> Precedes(t, a, b)
  {
    if Precedes(t, a, b) && !Precedes(s, a, b) {
      var i, j :| 0 <= i < j < |t| && t[i] == a && t[j] == b;
      NoDupIndices(t, i, j);
      var x :| 0 <= x < |s| && s[x] == a;
      var y :| 0 <= y < |s| && s[y] == b;
      assert Precedes(s, b, a);
      var k, l :| 0 <= k < l < |t| && t[k] == b && t[l] == a;
      NoDupAt(t, i, l);
      NoDupAt(t, j, k);
      assert false;
    }
  }

  lemma AfterIs(m: Memory, now: int, ttlMs: int, i: nat)
    requires Listing(m) && i < |Unexpired(m.entries, m.order, now, ttlMs)|
    ensures var live := Unexpired(m.entries, m.order, now, ttlMs);
            IdleCount(m.entries, live[i + 1..]) == |UsedAfter(m, live[i], now, ttlMs)|
  {
    hide NoDup, KeepsOrder, Unexpired, IdleCount, Precedes;
    var live := Unexpired(m.entries, m.order, now, ttlMs);
    UnexpiredMembers(m, now, ttlMs);
    UnexpiredKeeps(m.entries, m.order, now, ttlMs);
    LiveNoDup(m, now, ttlMs);
    NoDupFrom(live, i + 1);
    CountIs(m.entries, live[i + 1..]);
    var after := set k | k in live[i + 1..] && IsIdle(m.entries, k);
    forall k ensures k in after <==> k in UsedAfter(m, live[i], now, ttlMs) {
      FollowsIs(live, i, k);
      if k in live { PrecedesBoth(live, m.order, live[i], k); }
    }
    assert after == UsedAfter(m, live[i], now, ttlMs);
  }

  lemma FollowsIs(order: seq<string>, i: nat, k: string)
    requires NoDup(order) && i < |order|
    ensures k in order[i + 1..] <==> Precedes(order, order[i], k)
    ensures k in order[i + 1..] ==> k in order
  {
    if Precedes(order, order[i], k) {
      var a, b :| 0 <= a < b < |order| && order[a] == order[i] && order[b] == k;
      NoDupAt(order, a, i);
      assert order[i + 1..][b - i - 1] == k;
    }
    if k in order[i + 1..] {
      var j :| 0 <= j < |order[i + 1..]| && order[i + 1..][j] == k;
      assert order[i + 1 + j] == k;
    }
  }

  // ---- where an operation puts its key ----

  /** After a Create, an Acquire, or the Release of a last lease: the key last, the others as they stood. */
  ghost predicate MovedToEnd(before: Memory, after: Memory, key: string) {
    && OthersKeep(after.order, before.order, key)
    && (key in after.entries ==> IsLast(after.order, key))
  }

  lemma TouchedMoves(m: Memory, key: string, entries: map<string, Entry>, later: int, cfg: Config)
    requires Listing(m)
    requires Listing(Memory(entries, Touch(m.order, key), m.closed, m.failed))
    ensures var touched := Memory(entries, Touch(m.order, key), m.closed, m.failed);
            MovedToEnd(m, touched, key) && MovedToEnd(m, Evicted(touched, later, cfg), key)
  {
    hide Precedes, Touch, KeepsOrder, OthersKeep, IsLast, EvictedOrder, NoDup;
    var touched := Memory(entries, Touch(m.order, key), m.closed, m.failed);
    TouchKeepsOthers(m.order, key);
    EvictedKeeps(touched, later, cfg);
    EvictedListing(touched, later, cfg);
    KeptOthers(Evicted(touched, later, cfg).order, touched.order, m.order, key);
    if key in Evicted(touched, later, cfg).entries {
      LastStaysLast(Evicted(touched, later, cfg).order, touched.order, key);
    }
  }

  lemma SweptMoves(m: Memory, swept: Memory, after: Memory, key: string)
    requires KeepsOrder(swept.order, m.order) && MovedToEnd(swept, after, key)
    ensures MovedToEnd(m, after, key)
  {
  }

  lemma SameMoves(m: Memory, a: Memory, b: Memory, key: string)
    requires MovedToEnd(m, a, key) && b.order == a.order && b.entries == a.entries
    ensures MovedToEnd(m, b, key)
  {
  }

  /** The memory before the write of a granted Create or Acquire: what the first eviction leaves, moved. */
  lemma UsedMoves(swept: Memory, key: string, lease: bool, t: int, cfg: Config)
    requires Standing(swept, cfg) && key in swept.entries && swept.entries[key].state != Terminated
    ensures MovedToEnd(swept, Use(swept, key, lease, t), key)
  {
    hide Standing, Shaped, MovedToEnd, Touch, Listing, Restamped;
    var used := Use(swept, key, lease, t);
    UseStamps(swept, key, lease, t, cfg);
    ShapedStanding(swept, cfg);
    ShapedListing(swept);
    ShapedStanding(used, cfg);
    ShapedListing(used);
    TouchedMoves(swept, key, used.entries, t, cfg);
  }

  lemma AddedMoves(swept: Memory, p: string, c: string, id: string, lease: bool, t: int, later: int, cfg: Config)
    requires Standing(swept, cfg) && Identity(p, c) && Fresh(swept, Some(id))
    ensures MovedToEnd(swept, Evicted(Adopt(swept, p, c, id, lease, t), later, cfg), KeyOf(p, c))
  {
    hide Standing, Shaped, MovedToEnd, Touch, Listing, KeyOf, Identity, Fresh, Evicted;
    var added := Adopt(swept, p, c, id, lease, t);
    ShapedStanding(swept, cfg);
    ShapedListing(swept);
    AdoptShaped(swept, p, c, id, lease, t);
    ShapedListing(added);
    TouchedMoves(swept, KeyOf(p, c), added.entries, later, cfg);
  }

  lemma PersistKeeps(s: Store, w: Write)
    ensures var s' := Persist(s, w); s'.mem.entries == s.mem.entries && s'.mem.order == s.mem.order
  {
  }

  lemma ReleaseMoves(s: Store, cfg: Config, clk: Clock, op: Op, w: Write)
    requires GoodConfig(cfg) && Standing(s.mem, cfg) && op.ReleaseOp?
    requires var key := KeyOf(op.principal, op.conversation);
             Ready(s.mem) && key in s.mem.entries && s.mem.entries[key].leases > 0
    ensures var key, m' := KeyOf(op.principal, op.conversation), Apply(s, cfg, clk, op, w).0.mem;
            if s.mem.entries[key].leases == 1 then MovedToEnd(s.mem, m', key) else KeepsOrder(m'.order, s.mem.order)
  {
    hide Standing, Shaped, KeyOf, MovedToEnd, KeepsOrder, Touch, Evicted, Persist, Restamped, Listing;
    var key, t := KeyOf(op.principal, op.conversation), s.tick;
    var later := clk(if s.mem.entries[key].leases == 1 then t + 1 else t);
    var back := GiveBack(s.mem, key, clk(t));
    ShapedStanding(s.mem, cfg);
    UnleasedOrActive(s.mem, key);
    BackShaped(s.mem, key, clk(t));
    ShapedListing(s.mem);
    ShapedListing(back);
    EvictedKeeps(back, later, cfg);
    PersistKeeps(Store(Evicted(back, later, cfg), s.disk,
                       (if s.mem.entries[key].leases == 1 then t + 1 else t) + 1), w);
    if s.mem.entries[key].leases == 1 {
      TouchedMoves(s.mem, key, back.entries, later, cfg);
      SameMoves(s.mem, Evicted(back, later, cfg), Apply(s, cfg, clk, op, w).0.mem, key);
    }
  }

  lemma BackShaped(m: Memory, key: string, t: int)
    requires Shaped(m) && key in m.entries && m.entries[key].leases > 0
    ensures Shaped(GiveBack(m, key, t))
  {
    hide NoDup, Touch, IdleCount, KeyOf, Formed, Shaped;
    UnleasedOrActive(m, key);
    var e := m.entries[key];
    if e.leases == 1 {
      ChangeShaped(m, key, e.(leases := 0, state := Idle, lastUsedMs := t), true);
    } else {
      ChangeShaped(m, key, e.(leases := e.leases - 1), false);
    }
  }

  // ---- answers and entries ----

  /** A text that can name a principal or a conversation: not blank, and without NUL. */
  predicate Names(s: string) {
    (exists i :: 0 <= i < |s| && !IsSpace(s[i])) && '\0' !in s
  }

  lemma IdentityIs(p: string, c: string)
    ensures Identity(p, c) <==> Names(p) && Names(c)
  {
    hide Trim, IsSpace;
    TrimsToNothing(p);
    TrimsToNothing(c);
    TrimKeepsNul(p);
    TrimKeepsNul(c);
  }

  /** Not past its time: a leased entry never is. */
  predicate InTime(e: Entry, now: int, ttlMs: int) {
    e.state == Active || now - e.lastUsedMs <= ttlMs
  }

  predicate Running(m: Memory) {
    !m.closed && !m.failed
  }

  /** How a call that must write ends: it fails for good unless the write works. */
  ghost predicate Wrote(s: Store, s': Store, w: Write) {
    && s'.mem.closed == s.mem.closed && s'.mem.failed == (s.mem.failed || w != Written)
    && (w == NotWritten ==> s'.disk == s.disk)
    && (w != NotWritten ==>
          && s'.disk.Some? && |s'.disk.value| == |s'.mem.order|
          && forall i :: 0 <= i < |s'.mem.order| ==>
               s'.mem.order[i] in s'.mem.entries && s'.disk.value[i] == s'.mem.entries[s'.mem.order[i]])
  }

  lemma PersistWrote(s: Store, m: Memory, tick: nat, w: Write)
    requires Listing(m) && m.closed == s.mem.closed && m.failed == s.mem.failed
    ensures Wrote(s, Persist(Store(m, s.disk, tick), w), w)
  {
    hide NoDup;
    SnapshotMembers(m.entries, m.order);
    assert forall i :: 0 <= i < |m.order| ==> m.order[i] in m.order;
  }

  /** Nothing written, and nothing changed but for expired entries going. */
  ghost predicate LeftAlone(s: Store, s': Store, now: int, ttlMs: int) {
    && s'.disk == s.disk && s'.mem.closed == s.mem.closed && s'.mem.failed == s.mem.failed
    && (forall k :: k in s'.mem.entries ==> k in s.mem.entries && s'.mem.entries[k] == s.mem.entries[k])
    && (forall k :: k in s.mem.entries && InTime(s.mem.entries[k], now, ttlMs) ==> k in s'.mem.entries)
  }

  /**
    Create and Acquire, exactly: refused for a blank or NUL-ridden name, by a registry that is closed
    or has failed, for a terminated conversation, when no identifier can be minted for a new one, or
    when the write does not work; otherwise answered the identifier of the entry, or the minted one.
   */
  lemma ResolveAnswers(s: Store, cfg: Config, clk: Clock, p: string, c: string, lease: bool, mint: Option<string>,
                       w: Write)
    requires GoodConfig(cfg) && Standing(s.mem, cfg) && Fresh(s.mem, mint)
    ensures var (s', reply) := Apply(s, cfg, clk, ResolveOp(p, c, lease, mint), w);
            var key, now, before := Trim(p) + ['\0'] + Trim(c), clk(s.tick), s.mem.entries;
            var known := key in before && InTime(before[key], now, cfg.ttlMs);
            var granted := Names(p) && Names(c) && Running(s.mem)
                           && (if known then !before[key].state.Terminated? else mint.Some?);
            && (reply.Session? <==> granted && w.Written?) && (!reply.Session? ==> reply.Refused?)
            && (reply.Session? ==> reply.id == if known then before[key].sessionId else mint.value)
            && (if granted then Wrote(s, s', w) && MovedToEnd(s.mem, s'.mem, key)
                else LeftAlone(s, s', now, cfg.ttlMs) && KeepsOrder(s'.mem.order, s.mem.order))
            && (granted && known ==>
                  var e := before[key];
                  s'.mem.entries == (map k | k in before && InTime(before[k], now, cfg.ttlMs) :: before[k])
                    [key := Entry(e.sessionId, e.principal, e.conversation, if lease then Active else e.state,
                                  e.createdMs, clk(s.tick + 1), if lease then e.leases + 1 else e.leases)])
            && (granted && !known ==>
                  var t := clk(s.tick + 2);
                  && (key in s'.mem.entries <==> lease || clk(s.tick + 3) - t <= cfg.ttlMs)
                  && forall k :: k in s'.mem.entries ==>
                       if k == key then
                         s'.mem.entries[k] == Entry(mint.value, Trim(p), Trim(c), if lease then Active else Idle,
                                                    t, t, if lease then 1 else 0)
                       else k in before && s'.mem.entries[k] == before[k] && InTime(before[k], now, cfg.ttlMs))
  {
    hide Standing, Shaped, Evicted, Trim, Names, Identity, MovedToEnd, KeepsOrder, Fresh, Use, Adopt,
         Persist, Expired, Wrote, LeftAlone;
    var op, key, t := ResolveOp(p, c, lease, mint), KeyOf(p, c), s.tick;
    var swept := Evicted(s.mem, clk(t), cfg);
    IdentityIs(p, c);
    SweptEntries(s.mem, cfg, clk(t));
    SweptFlags(s.mem, clk(t), cfg);
    EvictedKeeps(s.mem, clk(t), cfg);
    SweptShapes(s, cfg, clk, mint);
    if Identity(p, c) && Ready(s.mem) {
      if key in swept.entries {
        if swept.entries[key].state != Terminated {
          KnownGranted(s, cfg, clk, op, w);
        } else {
          SweptAlone(s, cfg, clk(t), t + 1);
        }
      } else if mint.Some? {
        NewGranted(s, cfg, clk, op, w);
      } else {
        SweptAlone(s, cfg, clk(t), t + 2);
      }
    } else {
      SameAlone(s, clk(t), cfg.ttlMs);
    }
  }

  /** The first eviction of resolve keeps the entries that are not past their time, and no others. */
  lemma SweptEntries(m: Memory, cfg: Config, now: int)
    requires GoodConfig(cfg) && Standing(m, cfg)
    ensures Evicted(m, now, cfg).entries
            == map k | k in m.entries && InTime(m.entries[k], now, cfg.ttlMs) :: m.entries[k]
    ensures forall k :: k in m.entries ==>
              (InTime(m.entries[k], now, cfg.ttlMs) <==> !Expired(m.entries[k], now, cfg.ttlMs))
  {
    hide Shaped, Evicted;
    forall k
      ensures k in Evicted(m, now, cfg).entries <==> k in m.entries && !Expired(m.entries[k], now, cfg.ttlMs)
      ensures k in Evicted(m, now, cfg).entries ==> Evicted(m, now, cfg).entries[k] == m.entries[k]
    {
      SweptExactly(m, cfg, now, k);
    }
  }

  lemma SweptFlags(m: Memory, now: int, cfg: Config)
    ensures Evicted(m, now, cfg).closed == m.closed && Evicted(m, now, cfg).failed == m.failed
  {
  }

  lemma SweptAlone(s: Store, cfg: Config, now: int, tick: nat)
    requires GoodConfig(cfg) && Standing(s.mem, cfg)
    ensures LeftAlone(s, s.(mem := Evicted(s.mem, now, cfg), tick := tick), now, cfg.ttlMs)
    ensures KeepsOrder(Evicted(s.mem, now, cfg).order, s.mem.order)
  {
    hide Standing, Evicted, KeepsOrder;
    SweptEntries(s.mem, cfg, now);
    SweptFlags(s.mem, now, cfg);
    EvictedKeeps(s.mem, now, cfg);
  }

  lemma SameAlone(s: Store, now: int, ttlMs: int)
    ensures LeftAlone(s, s, now, ttlMs) && KeepsOrder(s.mem.order, s.mem.order)
  {
  }

  /** The known key of a granted call. */
  lemma KnownGranted(s: Store, cfg: Config, clk: Clock, op: Op, w: Write)
    requires GoodConfig(cfg) && Standing(s.mem, cfg) && Admissible(s.mem, op) && op.ResolveOp?
    requires Identity(op.principal, op.conversation) && Ready(s.mem)
    requires var key, swept := KeyOf(op.principal, op.conversation), Evicted(s.mem, clk(s.tick), cfg);
             key in swept.entries && swept.entries[key].state != Terminated
    ensures var (s', reply) := Apply(s, cfg, clk, op, w);
            var key, swept := KeyOf(op.principal, op.conversation), Evicted(s.mem, clk(s.tick), cfg);
            var e := swept.entries[key];
            && (reply.Session? <==> w.Written?) && (!reply.Session? ==> reply.Refused?)
            && (reply.Session? ==> reply.id == e.sessionId)
            && Wrote(s, s', w) && MovedToEnd(s.mem, s'.mem, key)
            && s'.mem.entries == swept.entries
                 [key := Entry(e.sessionId, e.principal, e.conversation, if op.lease then Active else e.state,
                               e.createdMs, clk(s.tick + 1), if op.lease then e.leases + 1 else e.leases)]
  {
    hide Standing, Shaped, Evicted, KeyOf, Identity, MovedToEnd, KeepsOrder, Touch, Persist, Restamped, Wrote,
         Fresh;
    var t, key, swept := s.tick, KeyOf(op.principal, op.conversation), Evicted(s.mem, clk(s.tick), cfg);
    SweptShapes(s, cfg, clk, op.mint);
    SweptFlags(s.mem, clk(t), cfg);
    EvictedKeeps(s.mem, clk(t), cfg);
    UsedMoves(swept, key, op.lease, clk(t + 1), cfg);
    UseStamps(swept, key, op.lease, clk(t + 1), cfg);
    var used := Use(swept, key, op.lease, clk(t + 1));
    ShapedStanding(used, cfg);
    ShapedListing(used);
    PersistWrote(s, used, t + 2, w);
    PersistKeeps(Store(used, s.disk, t + 2), w);
    SameMoves(swept, used, Apply(s, cfg, clk, op, w).0.mem, key);
    SweptMoves(s.mem, swept, Apply(s, cfg, clk, op, w).0.mem, key);
  }

  /** The new key of a granted call. */
  lemma NewGranted(s: Store, cfg: Config, clk: Clock, op: Op, w: Write)
    requires GoodConfig(cfg) && Standing(s.mem, cfg) && Admissible(s.mem, op) && op.ResolveOp? && op.mint.Some?
    requires Identity(op.principal, op.conversation) && Ready(s.mem)
    requires KeyOf(op.principal, op.conversation) !in Evicted(s.mem, clk(s.tick), cfg).entries
    ensures var (s', reply) := Apply(s, cfg, clk, op, w);
            var key, swept := KeyOf(op.principal, op.conversation), Evicted(s.mem, clk(s.tick), cfg);
            var t := clk(s.tick + 2);
            && (reply.Session? <==> w.Written?) && (!reply.Session? ==> reply.Refused?)
            && (reply.Session? ==> reply.id == op.mint.value)
            && Wrote(s, s', w) && MovedToEnd(s.mem, s'.mem, key)
            && (key in s'.mem.entries <==> op.lease || clk(s.tick + 3) - t <= cfg.ttlMs)
            && forall k :: k in s'.mem.entries ==>
                 if k == key then
                   s'.mem.entries[k] == Entry(op.mint.value, Trim(op.principal), Trim(op.conversation),
                                              if op.lease then Active else Idle, t, t, if op.lease then 1 else 0)
                 else k in swept.entries && s'.mem.entries[k] == swept.entries[k]
  {
    hide Standing, Shaped, Evicted, KeyOf, Identity, MovedToEnd, KeepsOrder, Touch, Persist, Wrote, Trim,
         Fresh;
    var t, key, swept := s.tick, KeyOf(op.principal, op.conversation), Evicted(s.mem, clk(s.tick), cfg);
    SweptShapes(s, cfg, clk, op.mint);
    SweptFlags(s.mem, clk(t), cfg);
    EvictedKeeps(s.mem, clk(t), cfg);
    ShapedStanding(swept, cfg);
    var added := Adopt(swept, op.principal, op.conversation, op.mint.value, op.lease, clk(t + 2));
    var final := Evicted(added, clk(t + 3), cfg);
    AdoptShaped(swept, op.principal, op.conversation, op.mint.value, op.lease, clk(t + 2));
    EvictedStanding(added, clk(t + 3), cfg);
    AddedMoves(swept, op.principal, op.conversation, op.mint.value, op.lease, clk(t + 2), clk(t + 3), cfg);
    AdoptStamps(swept, op.principal, op.conversation, op.mint.value, op.lease, clk(t + 2), clk(t + 3), cfg);
    SweptFlags(added, clk(t + 3), cfg);
    ShapedStanding(final, cfg);
    ShapedListing(final);
    PersistWrote(s, final, t + 4, w);
    PersistKeeps(Store(final, s.disk, t + 4), w);
    SameMoves(swept, final, Apply(s, cfg, clk, op, w).0.mem, key);
    SweptMoves(s.mem, swept, Apply(s, cfg, clk, op, w).0.mem, key);
  }

  /**
    Reference, exactly: one lease more on an entry that is not terminated nor, if idle, past its time.
    The key keeps its place in the order of use.
   */
  lemma ReferenceAnswers(s: Store, cfg: Config, clk: Clock, p: string, c: string, w: Write)
    requires Standing(s.mem, cfg)
    ensures var (s', reply) := Apply(s, cfg, clk, ReferenceOp(p, c), w);
            var key, before := Trim(p) + ['\0'] + Trim(c), s.mem.entries;
            var granted := Running(s.mem) && key in before && !before[key].state.Terminated?
                           && (before[key].state.Idle? ==> clk(s.tick) - before[key].lastUsedMs <= cfg.ttlMs);
            && s'.mem.order == s.mem.order
            && (reply.Done? <==> granted && w.Written?) && (!reply.Done? ==> reply.Refused?)
            && (!granted ==> s'.mem == s.mem && s'.disk == s.disk)
            && (granted ==>
                  var e := before[key];
                  && Wrote(s, s', w)
                  && s'.mem.entries
                     == before[key := Entry(e.sessionId, e.principal, e.conversation, Active, e.createdMs,
                                            clk(if e.state.Idle? then s.tick + 1 else s.tick), e.leases + 1)])
  {
    hide Standing, Shaped, Listing, Trim, Persist, Wrote;
    var key := KeyOf(p, c);
    if Ready(s.mem) && key in s.mem.entries {
      var s' := Apply(s, cfg, clk, ReferenceOp(p, c), w).0;
      var tick := s.tick + TestReadings(s.mem, key);
      var e := Leased(s.mem.entries[key], true).(lastUsedMs := clk(tick));
      var marked := s.mem.(entries := s.mem.entries[key := e]);
      MarkedListing(s.mem, key, e, cfg);
      PersistWrote(s, marked, tick + 1, w);
      PersistKeeps(Store(marked, s.disk, tick + 1), w);
    }
  }

  lemma MarkedListing(m: Memory, key: string, e: Entry, cfg: Config)
    requires Standing(m, cfg) && key in m.entries
    ensures Listing(m.(entries := m.entries[key := e]))
  {
    hide NoDup, Formed, KeyOf;
  }

  /**
    Release, exactly: one lease less; the last one makes the entry idle from now and moves its key to
    the end of the order of use.
   */
  lemma ReleaseAnswers(s: Store, cfg: Config, clk: Clock, p: string, c: string, w: Write)
    requires GoodConfig(cfg) && Standing(s.mem, cfg)
    ensures var (s', reply) := Apply(s, cfg, clk, ReleaseOp(p, c), w);
            var key, before := Trim(p) + ['\0'] + Trim(c), s.mem.entries;
            var granted := Running(s.mem) && key in before && before[key].leases > 0;
            && (reply.Done? <==> granted && w.Written?) && (!reply.Done? ==> reply.Refused?)
            && (!granted ==> s'.mem == s.mem && s'.disk == s.disk)
            && (granted ==>
                  var e, last := before[key], before[key].leases == 1;
                  && Wrote(s, s', w)
                  && (if last then MovedToEnd(s.mem, s'.mem, key) else KeepsOrder(s'.mem.order, s.mem.order))
                  && (key in s'.mem.entries <==> !last || clk(s.tick + 1) - clk(s.tick) <= cfg.ttlMs)
                  && forall k :: k in s'.mem.entries ==>
                       && k in before
                       && s'.mem.entries[k] == (if k != key then before[k]
                                                else Entry(e.sessionId, e.principal, e.conversation,
                                                           if last then Idle else Active, e.createdMs,
                                                           if last then clk(s.tick) else e.lastUsedMs, e.leases - 1)))
  {
    hide Standing, Shaped, Trim, Persist, Wrote, MovedToEnd, KeepsOrder, Evicted;
    var key, op := KeyOf(p, c), ReleaseOp(p, c);
    if key in s.mem.entries {
      ShapedStanding(s.mem, cfg);
      UnleasedOrActive(s.mem, key);
      if Ready(s.mem) && s.mem.entries[key].leases > 0 {
        ReleaseMoves(s, cfg, clk, op, w);
        ReleaseEntries(s, cfg, clk, op, w);
      }
    }
  }

  lemma ReleaseEntries(s: Store, cfg: Config, clk: Clock, op: Op, w: Write)
    requires GoodConfig(cfg) && Standing(s.mem, cfg) && op.ReleaseOp?
    requires var key := KeyOf(op.principal, op.conversation);
             Ready(s.mem) && key in s.mem.entries && s.mem.entries[key].leases > 0
    ensures var (s', reply) := Apply(s, cfg, clk, op, w);
            var key, before := KeyOf(op.principal, op.conversation), s.mem.entries;
            var e, last := before[key], before[key].leases == 1;
            && (reply.Done? <==> w.Written?) && (!reply.Done? ==> reply.Refused?)
            && Wrote(s, s', w)
            && (key in s'.mem.entries <==> !last || clk(s.tick + 1) - clk(s.tick) <= cfg.ttlMs)
            && forall k :: k in s'.mem.entries ==>
                 && k in before
                 && s'.mem.entries[k] == (if k != key then before[k]
                                          else Entry(e.sessionId, e.principal, e.conversation,
                                                     if last then Idle else Active, e.createdMs,
                                                     if last then clk(s.tick) else e.lastUsedMs, e.leases - 1))
  {
    hide Standing, Shaped, KeyOf, Persist, Wrote, Evicted, Touch;
    var key, before := KeyOf(op.principal, op.conversation), s.mem.entries;
    var last := before[key].leases == 1;
    var tick := if last then s.tick + 1 else s.tick;
    var back := GiveBack(s.mem, key, clk(s.tick));
    var final := Evicted(back, clk(tick), cfg);
    ShapedStanding(s.mem, cfg);
    UnleasedOrActive(s.mem, key);
    BackShaped(s.mem, key, clk(s.tick));
    EvictedStanding(back, clk(tick), cfg);
    GiveBackStamps(s.mem, key, clk(s.tick), clk(tick), cfg);
    if !last { LeasedStays(back, key, clk(tick), cfg); }
    SweptFlags(back, clk(tick), cfg);
    ShapedStanding(final, cfg);
    ShapedListing(final);
    PersistWrote(s, final, tick + 1, w);
    PersistKeeps(Store(final, s.disk, tick + 1), w);
  }

  lemma LeasedStays(m: Memory, key: string, now: int, cfg: Config)
    requires Shaped(m) && key in m.entries && m.entries[key].state == Active
    ensures key in Evicted(m, now, cfg).entries
  {
    hide NoDup, Formed, KeyOf, IdleCount;
    var live := Unexpired(m.entries, m.order, now, cfg.ttlMs);
    assert key in live && !IsIdle(m.entries, key);
  }

  /** Evicted from the memory with these entries, the key moved to the end or in its place. */
  ghost predicate Evicts(before: Memory, entries: map<string, Entry>, key: string, moved: bool, after: Memory,
                         now: int, cfg: Config)
  {
    exists mid: Memory ::
      && Listing(mid) && mid.entries == entries
      && (if moved then MovedToEnd(before, mid, key) else mid.order == before.order)
      && EvictedFrom(mid, after, now, cfg)
  }

  lemma EvictsBy(before: Memory, mid: Memory, key: string, moved: bool, s: Store, w: Write, now: int, cfg: Config)
    requires cfg.maxIdle >= 0 && Listing(mid) && s.mem == Evicted(mid, now, cfg)
    requires if moved then MovedToEnd(before, mid, key) else mid.order == before.order
    ensures Evicts(before, mid.entries, key, moved, Persist(s, w).mem, now, cfg)
  {
    hide MovedToEnd, Evicted, EvictedFrom, NoDup, Persist;
    EvictionAnswers(mid, now, cfg);
    PersistEvicted(mid, s, w, now, cfg);
  }

  lemma BackIs(m: Memory, key: string, t: int)
    requires key in m.entries && m.entries[key].leases > 0
    requires m.entries[key].leases != 1 ==> m.entries[key].state == Active
    ensures var e, back := m.entries[key], GiveBack(m, key, t);
            && back.entries == m.entries[key := Entry(e.sessionId, e.principal, e.conversation,
                                                      if e.leases == 1 then Idle else Active, e.createdMs,
                                                      if e.leases == 1 then t else e.lastUsedMs, e.leases - 1)]
            && back == Memory(back.entries, if e.leases == 1 then Touch(m.order, key) else m.order, m.closed, m.failed)
  {
    hide Touch;
  }

  lemma ReleaseIs(s: Store, cfg: Config, clk: Clock, p: string, c: string, w: Write)
    requires Ready(s.mem) && KeyOf(p, c) in s.mem.entries
    requires var e := s.mem.entries[KeyOf(p, c)]; e.leases > 0 && e.state != Terminated
    ensures var e, back := s.mem.entries[KeyOf(p, c)], GiveBack(s.mem, KeyOf(p, c), clk(s.tick));
            var later := if e.leases == 1 then s.tick + 1 else s.tick;
            Apply(s, cfg, clk, ReleaseOp(p, c), w).0
            == Persist(Store(Evicted(back, clk(later), cfg), s.disk, later + 1), w)
  {
    hide KeyOf, GiveBack, Evicted, Persist;
  }

  /**
    Whom a Release, or a Create or Acquire of a new session, evicts: they evict from the memory with
    their change made, at the reading after it.
   */
  lemma ReleaseEvicts(s: Store, cfg: Config, clk: Clock, p: string, c: string, w: Write)
    requires GoodConfig(cfg) && Standing(s.mem, cfg)
    requires var key := KeyOf(p, c); Ready(s.mem) && key in s.mem.entries && s.mem.entries[key].leases > 0
    ensures var key, m', e := Trim(p) + ['\0'] + Trim(c), Apply(s, cfg, clk, ReleaseOp(p, c), w).0.mem,
                              s.mem.entries[Trim(p) + ['\0'] + Trim(c)];
            Evicts(s.mem, s.mem.entries[key := Entry(e.sessionId, e.principal, e.conversation,
                                                     if e.leases == 1 then Idle else Active, e.createdMs,
                                                     if e.leases == 1 then clk(s.tick) else e.lastUsedMs,
                                                     e.leases - 1)],
                   key, e.leases == 1, m', clk(if e.leases == 1 then s.tick + 1 else s.tick), cfg)
  {
    hide Standing, Shaped, KeyOf, MovedToEnd, KeepsOrder, Touch, Evicted, Persist, Listing, Evicts, GiveBack, Apply,
         Trim;
    var key, t, e := KeyOf(p, c), s.tick, s.mem.entries[KeyOf(p, c)];
    var later := if e.leases == 1 then t + 1 else t;
    var back := GiveBack(s.mem, key, clk(t));
    ShapedStanding(s.mem, cfg);
    UnleasedOrActive(s.mem, key);
    BackIs(s.mem, key, clk(t));
    BackShaped(s.mem, key, clk(t));
    ShapedListing(s.mem);
    ShapedListing(back);
    ReleaseIs(s, cfg, clk, p, c, w);
    if e.leases == 1 {
      TouchedMoves(s.mem, key, back.entries, clk(later), cfg);
    }
    EvictsBy(s.mem, back, key, e.leases == 1, Store(Evicted(back, clk(later), cfg), s.disk, later + 1), w, clk(later),
             cfg);
    KeyIs(p, c);
  }

  lemma KeyIs(p: string, c: string)
    ensures KeyOf(p, c) == Trim(p) + ['\0'] + Trim(c)
  {
  }

  lemma PersistEvicted(m: Memory, s: Store, w: Write, now: int, cfg: Config)
    requires EvictedFrom(m, s.mem, now, cfg)
    ensures EvictedFrom(m, Persist(s, w).mem, now, cfg)
  {
    hide InTime, UsedAfter, KeepsOrder;
  }

  lemma NewEvicts(s: Store, cfg: Config, clk: Clock, p: string, c: string, lease: bool, id: string, w: Write)
    requires GoodConfig(cfg) && Standing(s.mem, cfg) && Fresh(s.mem, Some(id)) && Names(p) && Names(c) && Running(s.mem)
    requires var key, now := Trim(p) + ['\0'] + Trim(c), clk(s.tick);
             !(key in s.mem.entries && InTime(s.mem.entries[key], now, cfg.ttlMs))
    ensures var key, now, t := Trim(p) + ['\0'] + Trim(c), clk(s.tick), clk(s.tick + 2);
            var m' := Apply(s, cfg, clk, ResolveOp(p, c, lease, Some(id)), w).0.mem;
            Evicts(s.mem, (map k | k in s.mem.entries && InTime(s.mem.entries[k], now, cfg.ttlMs) :: s.mem.entries[k])
                            [key := Entry(id, Trim(p), Trim(c), if lease then Active else Idle, t, t,
                                          if lease then 1 else 0)],
                   key, true, m', clk(s.tick + 3), cfg)
  {
    hide Standing, Shaped, KeyOf, MovedToEnd, KeepsOrder, Touch, Evicted, Persist, Listing, Evicts, Names,
         Identity, Fresh, InTime, Expired;
    var key, t := KeyOf(p, c), s.tick;
    var swept := Evicted(s.mem, clk(t), cfg);
    IdentityIs(p, c);
    KeyIs(p, c);
    SweptEntries(s.mem, cfg, clk(t));
    SweptFlags(s.mem, clk(t), cfg);
    EvictedKeeps(s.mem, clk(t), cfg);
    SweptShapes(s, cfg, clk, Some(id));
    ShapedStanding(swept, cfg);
    ShapedListing(swept);
    var added := Adopt(swept, p, c, id, lease, clk(t + 2));
    AdoptShaped(swept, p, c, id, lease, clk(t + 2));
    ShapedListing(added);
    TouchedMoves(swept, key, added.entries, clk(t + 3), cfg);
    SweptMoves(s.mem, swept, added, key);
    EvictsBy(s.mem, added, key, true, Store(Evicted(added, clk(t + 3), cfg), s.disk, t + 4), w, clk(t + 3), cfg);
  }

  /** Terminate, exactly: an entry without leases is marked for good, where it stands. */
  lemma TerminateAnswers(s: Store, cfg: Config, clk: Clock, p: string, c: string, w: Write)
    requires Standing(s.mem, cfg)
    ensures var (s', reply) := Apply(s, cfg, clk, TerminateOp(p, c), w);
            var key, before := Trim(p) + ['\0'] + Trim(c), s.mem.entries;
            var granted := Running(s.mem) && key in before && before[key].leases == 0;
            && s'.mem.order == s.mem.order
            && (reply.Done? <==> granted && w.Written?) && (!reply.Done? ==> reply.Refused?)
            && (!granted ==> s'.mem == s.mem && s'.disk == s.disk)
            && (granted ==>
                  var e := before[key];
                  && Wrote(s, s', w)
                  && s'.mem.entries
                     == before[key := Entry(e.sessionId, e.principal, e.conversation, EntryState.Terminated,
                                            e.createdMs, clk(s.tick), 0)])
  {
    hide Standing, Shaped, Listing, Trim, Persist, Wrote;
    var key := KeyOf(p, c);
    if key in s.mem.entries {
      ShapedStanding(s.mem, cfg);
      UnleasedOrActive(s.mem, key);
      var e := s.mem.entries[key].(state := EntryState.Terminated, lastUsedMs := clk(s.tick));
      var marked := s.mem.(entries := s.mem.entries[key := e]);
      MarkedListing(s.mem, key, e, cfg);
      PersistWrote(s, marked, s.tick + 1, w);
      PersistKeeps(Store(marked, s.disk, s.tick + 1), w);
    }
  }

  /** Lookup and Close, exactly. */
  lemma LookupAnswers(s: Store, cfg: Config, clk: Clock, p: string, c: string, w: Write)
    ensures var (s', reply) := Apply(s, cfg, clk, LookupOp(p, c), w);
            var key, e := Trim(p) + ['\0'] + Trim(c), s.mem.entries;
            && s'.mem == s.mem && s'.disk == s.disk
            && s'.tick == s.tick + (if Running(s.mem) && key in e && e[key].state.Idle? then 1 else 0)
            && reply == Session(if Running(s.mem) && key in e && !e[key].state.Terminated?
                                   && (e[key].state.Idle? ==> clk(s.tick) - e[key].lastUsedMs <= cfg.ttlMs)
                                then e[key].sessionId else "")
    ensures var (s', reply) := Apply(s, cfg, clk, CloseOp, w);
            && reply == Done && s'.mem.closed && s'.disk == s.disk && s'.mem.failed == s.mem.failed
            && s'.mem.entries == s.mem.entries && s'.mem.order == s.mem.order
  {
    hide Trim;
  }

  // ---- opening ----

  /** What a state file may hold. */
  predicate GoodEntry(e: Entry) {
    && SessionId.ValidSessionId(e.sessionId) && |e.sessionId| == 30
    && Names(e.principal) && Names(e.conversation)
    && 0 < e.createdMs <= e.lastUsedMs
    && e.leases >= 0 && (e.state.Active? <==> e.leases > 0)
  }

  function NameOf(e: Entry): string {
    Trim(e.principal) + ['\0'] + Trim(e.conversation)
  }

  /** Terminated, and past its time. */
  predicate Gone(e: Entry, now: int, ttlMs: int) {
    e.state.Terminated? && now - e.lastUsedMs > ttlMs
  }

  ghost predicate GoodFile(file: seq<Entry>, now: int, ttlMs: int) {
    && (forall i :: 0 <= i < |file| ==> GoodEntry(file[i]))
    && (forall i, j :: 0 <= i < j < |file| ==> file[i].sessionId != file[j].sessionId)
    && (forall i, j :: 0 <= i < j < |file| && NameOf(file[i]) == NameOf(file[j]) ==> Gone(file[i], now, ttlMs))
  }

  /** As an entry comes back: a leased one without its leases, and idle from now on. */
  function Back(e: Entry, now: int): Entry {
    if e.state.Active? then Entry(e.sessionId, e.principal, e.conversation, Idle, e.createdMs, now, 0) else e
  }

  /** The memory holds what is not gone, under its name and in the order of the file, and nothing else. */
  ghost predicate Brings(file: seq<Entry>, m: Memory, now: int, ttlMs: int) {
    && Listing(m) && !m.closed && !m.failed
    && (forall i :: 0 <= i < |file| && !Gone(file[i], now, ttlMs) ==>
          NameOf(file[i]) in m.entries && m.entries[NameOf(file[i])] == Back(file[i], now))
    && (forall k :: k in m.entries ==>
          exists i :: 0 <= i < |file| && !Gone(file[i], now, ttlMs) && NameOf(file[i]) == k)
    && (forall i, j :: 0 <= i < j < |file| && !Gone(file[i], now, ttlMs) && !Gone(file[j], now, ttlMs) ==>
          Precedes(m.order, NameOf(file[i]), NameOf(file[j])))
  }

  lemma PrecedesEnd(order: seq<string>, x: string)
    ensures forall a, b :: Precedes(order, a, b) ==> Precedes(order + [x], a, b)
    ensures forall a :: a in order ==> Precedes(order + [x], a, x)
  {
    var all := order + [x];
    assert forall i :: 0 <= i < |order| ==> all[i] == order[i];
    forall a | a in order ensures Precedes(all, a, x) {
      var i :| 0 <= i < |order| && order[i] == a;
      assert all[i] == a && all[|order|] == x;
    }
  }

  lemma BringsOne(file: seq<Entry>, m: Memory, e: Entry, now: int, ttlMs: int)
    requires Brings(file, m, now, ttlMs) && !Gone(e, now, ttlMs) && NameOf(e) !in m.entries
    ensures Brings(file + [e], m.(entries := m.entries[NameOf(e) := Back(e, now)], order := m.order + [NameOf(e)]), now,
                   ttlMs)
  {
    hide Precedes, NoDup, NameOf, Gone, Back;
    var all, key := file + [e], NameOf(e);
    var m' := m.(entries := m.entries[key := Back(e, now)], order := m.order + [key]);
    PrecedesEnd(m.order, key);
    AppendNoDup(m.order, key);
    assert all[|file|] == e && forall i :: 0 <= i < |file| ==> all[i] == file[i];
    forall k | k in m'.entries ensures exists i :: 0 <= i < |all| && !Gone(all[i], now, ttlMs) && NameOf(all[i]) == k {
      if k != key {
        var i :| 0 <= i < |file| && !Gone(file[i], now, ttlMs) && NameOf(file[i]) == k;
        assert all[i] == file[i];
      }
    }
  }

  lemma BringsGone(file: seq<Entry>, m: Memory, e: Entry, now: int, ttlMs: int)
    requires Brings(file, m, now, ttlMs) && Gone(e, now, ttlMs)
    ensures Brings(file + [e], m, now, ttlMs)
  {
    hide Precedes, Listing, NameOf, Gone, Back;
    var all := file + [e];
    assert all[|file|] == e && forall i :: 0 <= i < |file| ==> all[i] == file[i];
    forall k | k in m.entries ensures exists i :: 0 <= i < |all| && !Gone(all[i], now, ttlMs) && NameOf(all[i]) == k {
      var i :| 0 <= i < |file| && !Gone(file[i], now, ttlMs) && NameOf(file[i]) == k;
      assert all[i] == file[i];
    }
  }

  lemma OneIs(l: Loading, e: Entry, now: int, ttlMs: int)
    requires LoadOne(l, e, now, ttlMs).Some?
    ensures var l' := LoadOne(l, e, now, ttlMs).value;
            if Gone(e, now, ttlMs) then l'.entries == l.entries && l'.order == l.order
            else
              && NameOf(e) !in l.entries && l'.entries == l.entries[NameOf(e) := Back(e, now)]
              && l'.order == l.order + [NameOf(e)]
  {
    hide Acceptable, Trim;
  }

  /** What loading makes of a file it accepts. */
  lemma {:induction false} LoadBrings(file: seq<Entry>, now: int, ttlMs: int)
    requires LoadAll(file, now, ttlMs).Some?
    ensures Brings(file, LoadedMemory(LoadAll(file, now, ttlMs).value), now, ttlMs)
  {
    hide Brings, LoadOne, NameOf, Gone, Back;
    if file == [] {
      NothingBrought(now, ttlMs);
    } else {
      var init, e := file[..|file| - 1], file[|file| - 1];
      LoadBrings(init, now, ttlMs);
      var l := LoadAll(init, now, ttlMs).value;
      OneIs(l, e, now, ttlMs);
      assert init + [e] == file;
      if Gone(e, now, ttlMs) {
        BringsGone(init, LoadedMemory(l), e, now, ttlMs);
      } else {
        BringsOne(init, LoadedMemory(l), e, now, ttlMs);
      }
    }
  }

  lemma NothingBrought(now: int, ttlMs: int)
    ensures Brings([], LoadedMemory(Loading(map[], [], {}, false)), now, ttlMs)
  {
  }

  lemma GoodEntryIs(e: Entry)
    ensures Acceptable(e) <==> GoodEntry(e)
  {
    hide IsSpace;
    SessionId.ValidIs(e.sessionId);
    hide SessionId.ValidSessionId;
    TrimWhole(e.sessionId);
    hide Trim;
    TrimsToNothing(e.principal);
    TrimsToNothing(e.conversation);
  }

  lemma TrimWhole(s: string)
    ensures |Trim(s)| == |s| ==> Trim(s) == s
  {
    hide Trim;
    var before, after := TrimIs(s);
    if |Trim(s)| == |s| {
      assert before == "" && after == "";
      assert s == "" + Trim(s) + "" == Trim(s);
    }
  }

  lemma GoodFileIs(file: seq<Entry>, now: int, ttlMs: int)
    ensures Loadable(file, now, ttlMs) <==> GoodFile(file, now, ttlMs)
  {
    hide Acceptable, GoodEntry, Trim;
    forall i | 0 <= i < |file| ensures Acceptable(file[i]) <==> GoodEntry(file[i]) { GoodEntryIs(file[i]); }
  }

  /**
    Opening, exactly, for any file at any readings: refused for a file that is not good, or when a
    write is due and does not work.  It is due when a lease lapsed or something was evicted.
   */
  lemma OpenAnswers(file: seq<Entry>, tick: nat, cfg: Config, clk: Clock, w: Write)
    requires GoodConfig(cfg)
    ensures var (disk, mem) := Open(Some(file), tick, cfg, clk, w);
            if !GoodFile(file, clk(tick), cfg.ttlMs) then disk == Some(file) && mem.None?
            else
              exists mid: Memory, after: Memory ::
                && Brings(file, mid, clk(tick), cfg.ttlMs) && EvictedFrom(mid, after, clk(tick + 1), cfg)
                && Listing(after) && !after.failed
                && var due := (exists i :: 0 <= i < |file| && file[i].state.Active?) || |after.order| != |mid.order|;
                   && mem == (if !due || w.Written? then Some(after) else None)
                   && (!due || w.NotWritten? ==> disk == Some(file))
                   && (due && !w.NotWritten? ==> Wrote(Store(mid, Some(file), tick),
                                                      Store(after.(failed := !w.Written?), disk, tick), w))
    ensures Open(None, tick, cfg, clk, w) == (None, Some(Memory(map[], [], false, false)))
  {
    hide LoadAll, Brings, EvictedFrom, Evicted, Wrote, Persist, Loaded, GoodFile, Loadable;
    LoadExact(file, clk(tick), cfg.ttlMs);
    GoodFileIs(file, clk(tick), cfg.ttlMs);
    if GoodFile(file, clk(tick), cfg.ttlMs) {
      var l := LoadAll(file, clk(tick), cfg.ttlMs).value;
      LoadBrings(file, clk(tick), cfg.ttlMs);
      var mid := LoadedMemory(l);
      var after := Evicted(mid, clk(tick + 1), cfg);
      BringsListing(file, mid, clk(tick), cfg.ttlMs);
      EvictedListing(mid, clk(tick + 1), cfg);
      EvictionAnswers(mid, clk(tick + 1), cfg);
      SweptFlags(mid, clk(tick + 1), cfg);
      RecoveredIs(file, l, clk(tick), cfg.ttlMs);
      PersistWrote(Store(mid, Some(file), tick), after, tick + 2, w);
      WriteIs(Store(after, Some(file), tick + 2), w);
      WrittenTo(Store(mid, Some(file), tick), Store(after, Some(file), tick + 2), tick, w);
    }
  }

  lemma BringsListing(file: seq<Entry>, m: Memory, now: int, ttlMs: int)
    requires Brings(file, m, now, ttlMs)
    ensures Listing(m)
  {
  }

  lemma RecoveredIs(file: seq<Entry>, l: Loading, now: int, ttlMs: int)
    requires Loaded(l, file, now, ttlMs)
    ensures l.recovered <==> exists i :: 0 <= i < |file| && file[i].state.Active?
  {
    hide Shaped, FileOf, Unlapsed;
  }

  lemma WriteIs(s: Store, w: Write)
    ensures w.NotWritten? ==> Persist(s, w).disk == s.disk
  {
  }

  lemma WrittenTo(s: Store, t: Store, tick: nat, w: Write)
    requires Wrote(s, Persist(t, w), w) && s.mem.failed == t.mem.failed == false
    ensures Wrote(s, Store(t.mem.(failed := !w.Written?), Persist(t, w).disk, tick), w)
  {
  }
}
