/** Lemmas about the LRU order and eviction of module Registry. */
module RegistryOrder {
  import opened Registry

  ghost predicate NoDup(s: seq<string>) {
    s == [] || (s[0] !in s[1..] && NoDup(s[1..]))
  }

  /** `order` lists exactly the keys of the map, once each. */
  ghost predicate Listing(m: Memory) {
    NoDup(m.order) && forall k :: k in m.order <==> k in m.entries
  }

  lemma {:induction false} RemoveNoDup(s: seq<string>, key: string)
    requires NoDup(s)
    ensures NoDup(Remove(s, key)) && key !in Remove(s, key)
  {
    if s != [] && s[0] != key {
      RemoveNoDup(s[1..], key);
      var r := Remove(s, key);
      assert r[1..] == Remove(s[1..], key);
    }
  }

  lemma {:induction false} AppendNoDup(s: seq<string>, key: string)
    requires NoDup(s) && key !in s
    ensures NoDup(s + [key])
  {
    var r := s + [key];
    if s == [] {
      assert r[1..] == [];
    } else {
      AppendNoDup(s[1..], key);
      assert r[1..] == s[1..] + [key];
    }
  }

  lemma TouchNoDup(s: seq<string>, key: string)
    requires NoDup(s)
    ensures NoDup(Touch(s, key))
    ensures forall k :: k in Touch(s, key) <==> k in s || k == key
  {
    RemoveNoDup(s, key);
    AppendNoDup(Remove(s, key), key);
  }

  lemma {:induction false} UnexpiredNoDup(entries: map<string, Entry>, order: seq<string>, now: int, ttlMs: int)
    requires NoDup(order)
    ensures NoDup(Unexpired(entries, order, now, ttlMs))
  {
    if order != [] {
      UnexpiredNoDup(entries, order[1..], now, ttlMs);
      var rest := Unexpired(entries, order[1..], now, ttlMs);
      assert ([order[0]] + rest)[1..] == rest;
    }
  }

  lemma {:induction false} DropIdleNoDup(entries: map<string, Entry>, order: seq<string>, n: nat)
    requires NoDup(order)
    ensures NoDup(DropIdle(entries, order, n))
  {
    if n != 0 && order != [] {
      if IsIdle(entries, order[0]) {
        DropIdleNoDup(entries, order[1..], n - 1);
      } else {
        DropIdleNoDup(entries, order[1..], n);
        var rest := DropIdle(entries, order[1..], n);
        assert ([order[0]] + rest)[1..] == rest;
      }
    }
  }

  // ---- counting idle entries ----

  lemma {:induction false} IdleCountAgrees(a: map<string, Entry>, b: map<string, Entry>, order: seq<string>)
    requires forall k :: k in order ==> (IsIdle(a, k) <==> IsIdle(b, k))
    ensures IdleCount(a, order) == IdleCount(b, order)
  {
    if order != [] {
      IdleCountAgrees(a, b, order[1..]);
    }
  }

  lemma {:induction false} IdleCountAppend(entries: map<string, Entry>, order: seq<string>, key: string)
    ensures IdleCount(entries, order + [key]) == IdleCount(entries, order) + (if IsIdle(entries, key) then 1 else 0)
  {
    var r := order + [key];
    if order == [] {
      assert r[1..] == [];
    } else {
      IdleCountAppend(entries, order[1..], key);
      assert r[1..] == order[1..] + [key];
    }
  }

  lemma {:induction false} IdleCountRemove(entries: map<string, Entry>, order: seq<string>, key: string)
    ensures IdleCount(entries, Remove(order, key))
            == IdleCount(entries, order) - (if key in order && IsIdle(entries, key) then 1 else 0)
  {
    if order != [] && order[0] != key {
      IdleCountRemove(entries, order[1..], key);
      var r := Remove(order, key);
      assert r[1..] == Remove(order[1..], key);
    }
  }

  lemma {:induction false} IdleCountDrop(entries: map<string, Entry>, order: seq<string>, n: nat)
    ensures IdleCount(entries, DropIdle(entries, order, n))
            == (if IdleCount(entries, order) <= n then 0 else IdleCount(entries, order) - n)
  {
    if n != 0 && order != [] {
      if IsIdle(entries, order[0]) {
        IdleCountDrop(entries, order[1..], n - 1);
      } else {
        IdleCountDrop(entries, order[1..], n);
        var r := DropIdle(entries, order, n);
        assert r[1..] == DropIdle(entries, order[1..], n);
      }
    }
  }

  lemma {:induction false} IdleCountUnexpired(entries: map<string, Entry>, order: seq<string>, now: int, ttlMs: int)
    ensures IdleCount(entries, Unexpired(entries, order, now, ttlMs)) <= IdleCount(entries, order)
  {
    if order != [] {
      IdleCountUnexpired(entries, order[1..], now, ttlMs);
      var rest := Unexpired(entries, order[1..], now, ttlMs);
      assert ([order[0]] + rest)[1..] == rest;
    }
  }

  // ---- exactly what the second pass drops ----

  /**
    Position i of a duplicate-free order survives DropIdle(n) unless it is idle and fewer than
    n idle keys come before it: the victims are precisely the first n idle keys.
   */
  lemma {:induction false} DropIdleExact(entries: map<string, Entry>, order: seq<string>, n: nat, i: nat)
    requires NoDup(order) && i < |order|
    ensures order[i] in DropIdle(entries, order, n)
            <==> !IsIdle(entries, order[i]) || IdleCount(entries, order[..i]) >= n
  {
    if n == 0 {
      assert order[i] in order;
    } else if i == 0 {
      assert order[..0] == [];
      if IsIdle(entries, order[0]) {
        assert order[0] !in order[1..];
      }
    } else {
      assert order[i] == order[1..][i - 1] && order[i] in order[1..];
      assert order[..i][1..] == order[1..][..i - 1];
      if IsIdle(entries, order[0]) {
        DropIdleExact(entries, order[1..], n - 1, i - 1);
      } else {
        DropIdleExact(entries, order[1..], n, i - 1);
        assert order[i] != order[0];
      }
    }
  }

  /**
    Exact eviction: a key stays iff it is listed and unexpired, and is not one of the first
    max(0, idle - maxIdle) idle keys among the unexpired ones.
   */
  lemma EvictionExact(m: Memory, now: int, cfg: Config, key: string)
    requires Listing(m)
    ensures key in Evicted(m, now, cfg).entries <==> key in Evicted(m, now, cfg).order
    ensures key in Evicted(m, now, cfg).entries ==> Evicted(m, now, cfg).entries[key] == m.entries[key]
    ensures var live := Unexpired(m.entries, m.order, now, cfg.ttlMs);
            var excess := Excess(IdleCount(m.entries, live), cfg.maxIdle);
            key in Evicted(m, now, cfg).entries
            <==> exists i :: 0 <= i < |live| && live[i] == key
                             && (m.entries[key].state == Active || m.entries[key].state == Terminated
                                 || IdleCount(m.entries, live[..i]) >= excess)
  {
    var live := Unexpired(m.entries, m.order, now, cfg.ttlMs);
    UnexpiredNoDup(m.entries, m.order, now, cfg.ttlMs);
    forall i | 0 <= i < |live|
      ensures live[i] in m.entries
      ensures live[i] in DropIdle(m.entries, live, Excess(IdleCount(m.entries, live), cfg.maxIdle))
              <==> !IsIdle(m.entries, live[i])
                   || IdleCount(m.entries, live[..i]) >= Excess(IdleCount(m.entries, live), cfg.maxIdle)
    {
      DropIdleExact(m.entries, live, Excess(IdleCount(m.entries, live), cfg.maxIdle), i);
    }
  }

  lemma EvictedListing(m: Memory, now: int, cfg: Config)
    requires Listing(m)
    ensures Listing(Evicted(m, now, cfg))
  {
    var live := Unexpired(m.entries, m.order, now, cfg.ttlMs);
    UnexpiredNoDup(m.entries, m.order, now, cfg.ttlMs);
    DropIdleNoDup(m.entries, live, Excess(IdleCount(m.entries, live), cfg.maxIdle));
  }

  lemma EvictedBound(m: Memory, now: int, cfg: Config)
    requires Listing(m) && cfg.maxIdle >= 0
    ensures IdleCount(Evicted(m, now, cfg).entries, Evicted(m, now, cfg).order) <= cfg.maxIdle
  {
    var live := Unexpired(m.entries, m.order, now, cfg.ttlMs);
    IdleCountDrop(m.entries, live, Excess(IdleCount(m.entries, live), cfg.maxIdle));
    var m' := Evicted(m, now, cfg);
    IdleCountAgrees(m.entries, m'.entries, m'.order);
  }

  /** Within the idle bound the second pass does nothing. */
  lemma EvictedWithinBound(m: Memory, now: int, cfg: Config)
    requires Listing(m) && IdleCount(m.entries, m.order) <= cfg.maxIdle
    ensures Evicted(m, now, cfg).order == Unexpired(m.entries, m.order, now, cfg.ttlMs)
  {
    IdleCountUnexpired(m.entries, m.order, now, cfg.ttlMs);
  }

  // ---- agreement of the order with the times of last use ----

  /** Idle keys occur by non-decreasing time of last use. */
  ghost predicate LruOrdered(entries: map<string, Entry>, order: seq<string>) {
    order == [] ||
    (LruOrdered(entries, order[1..]) &&
     (IsIdle(entries, order[0]) ==>
        forall k :: k in order[1..] && IsIdle(entries, k) ==> entries[order[0]].lastUsedMs <= entries[k].lastUsedMs))
  }

  lemma {:induction false} OrderedFrame(a: map<string, Entry>, b: map<string, Entry>, order: seq<string>)
    requires LruOrdered(a, order)
    requires forall k :: k in order && IsIdle(b, k) ==> IsIdle(a, k) && a[k] == b[k]
    ensures LruOrdered(b, order)
  {
    if order != [] {
      OrderedFrame(a, b, order[1..]);
    }
  }

  lemma {:induction false} OrderedRemove(entries: map<string, Entry>, order: seq<string>, key: string)
    requires LruOrdered(entries, order)
    ensures LruOrdered(entries, Remove(order, key))
  {
    if order != [] && order[0] != key {
      OrderedRemove(entries, order[1..], key);
      var r := Remove(order, key);
      assert r[1..] == Remove(order[1..], key);
    }
  }

  lemma {:induction false} OrderedAppend(entries: map<string, Entry>, order: seq<string>, key: string)
    requires LruOrdered(entries, order)
    requires IsIdle(entries, key) ==>
               forall k :: k in order && IsIdle(entries, k) ==> entries[k].lastUsedMs <= entries[key].lastUsedMs
    ensures LruOrdered(entries, order + [key])
  {
    var r := order + [key];
    if order == [] {
      assert r[1..] == [];
    } else {
      OrderedAppend(entries, order[1..], key);
      assert r[1..] == order[1..] + [key];
    }
  }

  lemma {:induction false} OrderedUnexpired(entries: map<string, Entry>, order: seq<string>, now: int, ttlMs: int)
    requires LruOrdered(entries, order)
    ensures LruOrdered(entries, Unexpired(entries, order, now, ttlMs))
  {
    if order != [] {
      OrderedUnexpired(entries, order[1..], now, ttlMs);
      var rest := Unexpired(entries, order[1..], now, ttlMs);
      assert ([order[0]] + rest)[1..] == rest;
    }
  }

  lemma {:induction false} OrderedDrop(entries: map<string, Entry>, order: seq<string>, n: nat)
    requires LruOrdered(entries, order) && NoDup(order)
    ensures LruOrdered(entries, DropIdle(entries, order, n))
    ensures forall v, k :: v in order && v !in DropIdle(entries, order, n)
                           && k in DropIdle(entries, order, n) && IsIdle(entries, k)
                           ==> IsIdle(entries, v) && entries[v].lastUsedMs <= entries[k].lastUsedMs
  {
    if n != 0 && order != [] {
      if IsIdle(entries, order[0]) {
        OrderedDrop(entries, order[1..], n - 1);
      } else {
        OrderedDrop(entries, order[1..], n);
        var r := DropIdle(entries, order, n);
        assert r[1..] == DropIdle(entries, order[1..], n);
      }
    }
  }

  lemma EvictedOrdered(m: Memory, now: int, cfg: Config)
    requires Listing(m) && LruOrdered(m.entries, m.order)
    ensures LruOrdered(Evicted(m, now, cfg).entries, Evicted(m, now, cfg).order)
  {
    var live := Unexpired(m.entries, m.order, now, cfg.ttlMs);
    UnexpiredNoDup(m.entries, m.order, now, cfg.ttlMs);
    OrderedUnexpired(m.entries, m.order, now, cfg.ttlMs);
    OrderedDrop(m.entries, live, Excess(IdleCount(m.entries, live), cfg.maxIdle));
    var m' := Evicted(m, now, cfg);
    OrderedFrame(m.entries, m'.entries, m'.order);
  }

  /** An LRU victim was last used no later than any idle entry that stays. */
  lemma VictimIsOldest(m: Memory, now: int, cfg: Config, victim: string, kept: string)
    requires Listing(m) && LruOrdered(m.entries, m.order)
    requires victim in m.entries && !Expired(m.entries[victim], now, cfg.ttlMs)
    requires victim !in Evicted(m, now, cfg).entries
    requires kept in Evicted(m, now, cfg).entries && m.entries[kept].state == Idle
    ensures m.entries[victim].state == Idle
    ensures m.entries[victim].lastUsedMs <= m.entries[kept].lastUsedMs
  {
    var live := Unexpired(m.entries, m.order, now, cfg.ttlMs);
    UnexpiredNoDup(m.entries, m.order, now, cfg.ttlMs);
    OrderedUnexpired(m.entries, m.order, now, cfg.ttlMs);
    OrderedDrop(m.entries, live, Excess(IdleCount(m.entries, live), cfg.maxIdle));
    assert victim in live && kept in live;
  }
}
