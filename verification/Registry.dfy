/**
  plugins/opencode/registry.go as functions on values: the session map with its LRU order, the
  state file, and what each operation makes of them.  Class SessionRegistries.SessionRegistry
  implements these functions; modules RegistryOrder, RegistryInvariant, RegistryRecovery,
  RegistryRuns, RegistryClock, RegistryIdentity, RegistryLru, RegistryReopening,
  RegistryTermination and RegistryAnswers prove what they promise.

  The clock is a stream: reading number i returns clk(i), and `tick` counts the readings taken.
  Keys are strings here as there, so that key collisions are something to be proved absent.
 */
module Registry {
  import opened Prelude
  import opened Text
  import opened SessionId

  datatype EntryState = Active | Idle | Terminated

  datatype Entry = Entry(
    sessionId: string, principal: string, conversation: string,
    state: EntryState, createdMs: int, lastUsedMs: int, leases: int)

  datatype Config = Config(ttlMs: int, maxIdle: int)

  /** The fields of one SessionRegistry. */
  datatype Memory = Memory(entries: map<string, Entry>, order: seq<string>, closed: bool, failed: bool)

  /** A process, its state file (absent before the first write) and the clock position. */
  datatype Store = Store(mem: Memory, disk: Option<seq<Entry>>, tick: nat)

  /** How one atomic replacement of the state file ends: the directory sync may fail after the rename. */
  datatype Write = Written | NotWritten | WrittenUnsynced

  datatype Reply = Session(id: string) | Done | Refused

  type Clock = nat -> int

  const EMPTY: Memory := Memory(map[], [], false, false)

  function KeyOf(principal: string, conversation: string): string {
    Trim(principal) + [NUL] + Trim(conversation)
  }

  function EntryKey(e: Entry): string {
    KeyOf(e.principal, e.conversation)
  }

  predicate Ready(m: Memory) {
    !m.closed && !m.failed
  }

  // ---- order of use ----

  function Remove(order: seq<string>, key: string): (r: seq<string>)
    ensures forall k :: k in r ==> k in order
    ensures forall k :: k in order && k != key ==> k in r
  {
    if order == [] then []
    else if order[0] == key then order[1..]
    else [order[0]] + Remove(order[1..], key)
  }

  function Touch(order: seq<string>, key: string): seq<string> {
    Remove(order, key) + [key]
  }

  // ---- eviction ----

  predicate Expired(e: Entry, now: int, ttlMs: int) {
    e.state != Active && now - e.lastUsedMs > ttlMs
  }

  predicate IsIdle(entries: map<string, Entry>, key: string) {
    key in entries && entries[key].state == Idle
  }

  /** The keys the TTL pass keeps, in order. */
  function Unexpired(entries: map<string, Entry>, order: seq<string>, now: int, ttlMs: int): (r: seq<string>)
    ensures forall k :: k in r <==> k in order && k in entries && !Expired(entries[k], now, ttlMs)
  {
    if order == [] then []
    else
      var rest := Unexpired(entries, order[1..], now, ttlMs);
      if order[0] in entries && !Expired(entries[order[0]], now, ttlMs) then [order[0]] + rest else rest
  }

  function IdleCount(entries: map<string, Entry>, order: seq<string>): nat {
    if order == [] then 0
    else (if IsIdle(entries, order[0]) then 1 else 0) + IdleCount(entries, order[1..])
  }

  /** The order without its first n idle keys. */
  function DropIdle(entries: map<string, Entry>, order: seq<string>, n: nat): (r: seq<string>)
    ensures forall k :: k in r ==> k in order
    ensures forall k :: k in order && !IsIdle(entries, k) ==> k in r
  {
    if n == 0 || order == [] then order
    else if IsIdle(entries, order[0]) then DropIdle(entries, order[1..], n - 1)
    else [order[0]] + DropIdle(entries, order[1..], n)
  }

  function Excess(count: nat, bound: int): nat {
    if count > bound then (if bound < 0 then count else count - bound) else 0
  }

  /** evictLocked at one clock reading: TTL first, then the oldest idle entries beyond the bound. */
  function EvictedOrder(entries: map<string, Entry>, order: seq<string>, now: int, cfg: Config): seq<string> {
    var live := Unexpired(entries, order, now, cfg.ttlMs);
    DropIdle(entries, live, Excess(IdleCount(entries, live), cfg.maxIdle))
  }

  function Restrict(entries: map<string, Entry>, order: seq<string>): map<string, Entry> {
    map k | k in entries && k in order :: entries[k]
  }

  function Evicted(m: Memory, now: int, cfg: Config): Memory {
    var kept := EvictedOrder(m.entries, m.order, now, cfg);
    m.(entries := Restrict(m.entries, kept), order := kept)
  }

  // ---- the state file ----

  /** The entries in LRU order, as persistLocked writes them. */
  function Snapshot(entries: map<string, Entry>, order: seq<string>): seq<Entry> {
    if order == [] then []
    else (if order[0] in entries then [entries[order[0]]] else []) + Snapshot(entries, order[1..])
  }

  function Persist(s: Store, w: Write): Store {
    match w
    case Written => s.(disk := Some(Snapshot(s.mem.entries, s.mem.order)))
    case NotWritten => s.(mem := s.mem.(failed := true))
    case WrittenUnsynced =>
      s.(disk := Some(Snapshot(s.mem.entries, s.mem.order)), mem := s.mem.(failed := true))
  }

  function Commit(s: Store, w: Write, reply: Reply): (Store, Reply) {
    (Persist(s, w), if w == Written then reply else Refused)
  }

  // ---- operations ----

  predicate Identity(principal: string, conversation: string) {
    var p, c := Trim(principal), Trim(conversation);
    p != "" && c != "" && NUL !in p && NUL !in c
  }

  function Leased(e: Entry, lease: bool): Entry {
    if lease then e.(leases := e.leases + 1, state := Active) else e
  }

  /** A live entry used at `now`: to the tail, leased when dispatching. */
  function Use(m: Memory, key: string, lease: bool, now: int): Memory
    requires key in m.entries
  {
    var e := Leased(m.entries[key].(lastUsedMs := now), lease);
    m.(entries := m.entries[key := e], order := Touch(m.order, key))
  }

  /** A new entry under a minted identifier. */
  function Adopt(m: Memory, principal: string, conversation: string, id: string, lease: bool, now: int): Memory {
    var key := KeyOf(principal, conversation);
    var e := Leased(Entry(id, Trim(principal), Trim(conversation), Idle, now, now, 0), lease);
    m.(entries := m.entries[key := e], order := Touch(m.order, key))
  }

  /** One lease given back; the last one makes the entry idle at `now`. */
  function GiveBack(m: Memory, key: string, now: int): Memory
    requires key in m.entries
  {
    var e := m.entries[key];
    if e.leases == 1 then
      m.(entries := m.entries[key := e.(leases := 0, state := Idle, lastUsedMs := now)], order := Touch(m.order, key))
    else
      m.(entries := m.entries[key := e.(leases := e.leases - 1)])
  }

  /** Create (lease = false) and Acquire (lease = true); mint is what NewSessionID yields. */
  function Resolve(s: Store, cfg: Config, clk: Clock, principal: string, conversation: string, lease: bool,
                   mint: Option<string>, w: Write): (Store, Reply)
  {
    if !Identity(principal, conversation) || !Ready(s.mem) then (s, Refused)
    else
      var swept := Evicted(s.mem, clk(s.tick), cfg);
      var key := KeyOf(principal, conversation);
      if key in swept.entries then
        if swept.entries[key].state == Terminated then (s.(mem := swept, tick := s.tick + 1), Refused)
        else
          Commit(Store(Use(swept, key, lease, clk(s.tick + 1)), s.disk, s.tick + 2), w,
                 Session(swept.entries[key].sessionId))
      else
        match mint
        case None => (s.(mem := swept, tick := s.tick + 2), Refused)
        case Some(id) =>
          var added := Adopt(swept, principal, conversation, id, lease, clk(s.tick + 2));
          Commit(Store(Evicted(added, clk(s.tick + 3), cfg), s.disk, s.tick + 4), w, Session(id))
  }

  /** The staleness test of Reference and Lookup reads the clock only for an idle entry. */
  predicate Live(m: Memory, key: string, now: int, ttlMs: int) {
    key in m.entries && m.entries[key].state != Terminated && !Expired(m.entries[key], now, ttlMs)
  }

  function TestReadings(m: Memory, key: string): nat {
    if IsIdle(m.entries, key) then 1 else 0
  }

  function Reference(s: Store, cfg: Config, clk: Clock, principal: string, conversation: string, w: Write)
    : (Store, Reply)
  {
    var key := KeyOf(principal, conversation);
    if !Ready(s.mem) then (s, Refused)
    else
      var tick := s.tick + TestReadings(s.mem, key);
      if !Live(s.mem, key, clk(s.tick), cfg.ttlMs) then (s.(tick := tick), Refused)
      else
        var e := Leased(s.mem.entries[key], true).(lastUsedMs := clk(tick));
        Commit(s.(mem := s.mem.(entries := s.mem.entries[key := e]), tick := tick + 1), w, Done)
  }

  function Release(s: Store, cfg: Config, clk: Clock, principal: string, conversation: string, w: Write)
    : (Store, Reply)
  {
    var key := KeyOf(principal, conversation);
    if !Ready(s.mem) || key !in s.mem.entries then (s, Refused)
    else
      var e := s.mem.entries[key];
      if e.state == Terminated || e.leases <= 0 then (s, Refused)
      else
        var tick := if e.leases == 1 then s.tick + 1 else s.tick;
        var mem := GiveBack(s.mem, key, clk(s.tick));
        Commit(Store(Evicted(mem, clk(tick), cfg), s.disk, tick + 1), w, Done)
  }

  function Terminate(s: Store, clk: Clock, principal: string, conversation: string, w: Write): (Store, Reply) {
    var key := KeyOf(principal, conversation);
    if !Ready(s.mem) || key !in s.mem.entries || s.mem.entries[key].leases > 0 then (s, Refused)
    else
      var e := s.mem.entries[key].(state := EntryState.Terminated, lastUsedMs := clk(s.tick));
      Commit(s.(mem := s.mem.(entries := s.mem.entries[key := e]), tick := s.tick + 1), w, Done)
  }

  function Lookup(s: Store, cfg: Config, clk: Clock, principal: string, conversation: string): string {
    var key := KeyOf(principal, conversation);
    if !Ready(s.mem) || !Live(s.mem, key, clk(s.tick), cfg.ttlMs) then ""
    else s.mem.entries[key].sessionId
  }

  /** Every operation a running registry offers. */
  datatype Op =
    | ResolveOp(principal: string, conversation: string, lease: bool, mint: Option<string>)
    | ReferenceOp(principal: string, conversation: string)
    | ReleaseOp(principal: string, conversation: string)
    | TerminateOp(principal: string, conversation: string)
    | LookupOp(principal: string, conversation: string)
    | CloseOp

  function Apply(s: Store, cfg: Config, clk: Clock, op: Op, w: Write): (Store, Reply) {
    match op
    case ResolveOp(p, c, lease, mint) => Resolve(s, cfg, clk, p, c, lease, mint, w)
    case ReferenceOp(p, c) => Reference(s, cfg, clk, p, c, w)
    case ReleaseOp(p, c) => Release(s, cfg, clk, p, c, w)
    case TerminateOp(p, c) => Terminate(s, clk, p, c, w)
    case LookupOp(p, c) =>
      (s.(tick := s.tick + (if Ready(s.mem) then TestReadings(s.mem, KeyOf(p, c)) else 0)),
       Session(Lookup(s, cfg, clk, p, c)))
    case CloseOp => (s.(mem := s.mem.(closed := true)), Done)
  }

  // ---- opening ----

  predicate Acceptable(e: Entry) {
    && ValidSessionId(e.sessionId) && Trim(e.sessionId) == e.sessionId
    && Trim(e.principal) != "" && Trim(e.conversation) != ""
    && NUL !in e.principal && NUL !in e.conversation
    && 0 < e.createdMs <= e.lastUsedMs
    && e.leases >= 0
    && (e.state == Active <==> e.leases != 0)
  }

  /** The old owner is gone: its leases lapse and the idle TTL starts again. */
  function Recovered(e: Entry, now: int): Entry {
    if e.state == Active then e.(leases := 0, state := Idle, lastUsedMs := now) else e
  }

  predicate Lapsed(e: Entry, now: int, ttlMs: int) {
    e.state == Terminated && now - e.lastUsedMs > ttlMs
  }

  datatype Loading = Loading(entries: map<string, Entry>, order: seq<string>, ids: set<string>, recovered: bool)

  function LoadOne(l: Loading, e: Entry, now: int, ttlMs: int): Option<Loading> {
    if !Acceptable(e) || EntryKey(e) in l.entries || e.sessionId in l.ids then None
    else
      var ids, recovered := l.ids + {e.sessionId}, l.recovered || e.state == Active;
      if Lapsed(e, now, ttlMs) then Some(l.(ids := ids))
      else Some(Loading(l.entries[EntryKey(e) := Recovered(e, now)], l.order + [EntryKey(e)], ids, recovered))
  }

  function LoadAll(file: seq<Entry>, now: int, ttlMs: int): Option<Loading> {
    if file == [] then Some(Loading(map[], [], {}, false))
    else
      match LoadAll(file[..|file| - 1], now, ttlMs)
      case None => None
      case Some(l) => LoadOne(l, file[|file| - 1], now, ttlMs)
  }

  /** NewSessionRegistry on the state file: a running registry, or an error that leaves none. */
  function Open(disk: Option<seq<Entry>>, tick: nat, cfg: Config, clk: Clock, w: Write)
    : (Option<seq<Entry>>, Option<Memory>)
  {
    match disk
    case None => (disk, Some(EMPTY))
    case Some(file) =>
      match LoadAll(file, clk(tick), cfg.ttlMs)
      case None => (disk, None)
      case Some(l) =>
        var mem := Evicted(Memory(l.entries, l.order, false, false), clk(tick + 1), cfg);
        if !l.recovered && |mem.order| == |l.order| then (disk, Some(mem))
        else
          var s := Persist(Store(mem, disk, tick + 2), w);
          (s.disk, if w == Written then Some(mem) else None)
  }
}
