/**
  LiveGuard of native/opencode/live_safety.py: the persistent probe ledger and the operations of
  one guard over it, as functions on values.

  An instant is a number; a saved ledger reads back as it was.  `evidence` is what the other files
  of recorded_cooldowns say: their reset times, or nothing when one of them cannot be verified.
 */
module LiveGuard {
  import opened Prelude

  const DAY: int := 86_400_000_000
  const MAX_REQUESTS: int := 40
  const MAX_TOKENS: int := 220_000
  const MAX_RESERVATION: int := 8192

  // ---- the ledger ----

  datatype Progress = InProgress | Blocked | Interrupted | Finished

  datatype Entry = Entry(
    status: Progress, requests: int, tokens: int, requestBudget: int, outputBudget: int,
    window: Option<string>, upstream: Option<int>)

  /** A live window as given by its caller; Malformed is anything that is not a record of these four. */
  datatype Window = Malformed | Window(id: string, requestBudget: int, outputBudget: int, allowed: seq<string>)

  datatype Ledger = Ledger(runs: map<string, Entry>, windows: map<string, Window>, cooldown: Option<int>)

  const NO_RUNS: Ledger := Ledger(map[], map[], None)

  /** How _save ends: done, failed before the replace, or failed after it. */
  datatype Save = Saved | Lost | Unsynced

  function SaveTo(disk: Ledger, ledger: Ledger, save: Save): Ledger {
    if save.Lost? then disk else ledger
  }

  // ---- sums over a dictionary ----

  ghost function Total(m: map<string, int>): int {
    if m == map[] then 0 else var k :| k in m; m[k] + Total(m - {k})
  }

  lemma {:induction false} TotalWithout(m: map<string, int>, k: string)
    requires k in m
    ensures Total(m) == m[k] + Total(m - {k})
    decreases |m|
  {
    var c :| c in m && Total(m) == m[c] + Total(m - {c});
    if c != k {
      TotalWithout(m - {c}, k);
      TotalWithout(m - {k}, c);
      assert m - {c} - {k} == m - {k} - {c};
    }
  }

  lemma TotalUpdate(m: map<string, int>, k: string, v: int)
    ensures Total(m[k := v]) == Total(m) + v - (if k in m then m[k] else 0)
  {
    TotalWithout(m[k := v], k);
    assert m[k := v] - {k} == m - {k};
    if k in m {
      TotalWithout(m, k);
    } else {
      assert m - {k} == m;
    }
  }

  lemma {:induction false} TotalAtMost(a: map<string, int>, b: map<string, int>)
    requires forall k :: k in a ==> k in b && a[k] <= b[k]
    requires forall k :: k in b ==> 0 <= b[k]
    ensures Total(a) <= Total(b)
    decreases |b|
  {
    if b == map[] {
      assert a == map[];
    } else {
      var k :| k in b;
      TotalWithout(b, k);
      TotalAtMost(a - {k}, b - {k});
      if k in a { TotalWithout(a, k); } else { assert a - {k} == a; }
    }
  }

  /** The requests, and the reserved tokens, of the runs of one window. */
  function RequestsOf(l: Ledger, w: string): map<string, int> {
    map id | id in l.runs && l.runs[id].window == Some(w) :: l.runs[id].requests
  }

  function TokensOf(l: Ledger, w: string): map<string, int> {
    map id | id in l.runs && l.runs[id].window == Some(w) :: l.runs[id].tokens
  }

  // ---- admission ----

  predicate IdChar(c: char) {
    'A' <= c <= 'Z' || 'a' <= c <= 'z' || '0' <= c <= '9' || c == '.' || c == '_' || c == '-'
  }

  predicate ValidRun(run: string) {
    1 <= |run| <= 80 && (forall c :: c in run ==> IdChar(c)) && run[0] != '.' && run[0] != '_' && run[0] != '-'
  }

  predicate ValidWindowId(id: string) {
    1 <= |id| <= 80 && forall c :: c in id ==> IdChar(c)
  }

  /** What a guard is constructed with. */
  datatype Plan = Plan(run: string, requests: int, tokens: int, window: Option<Window>)

  predicate ValidPlan(p: Plan) {
    ValidRun(p.run) && 1 <= p.requests <= MAX_REQUESTS && 1 <= p.tokens <= MAX_TOKENS
  }

  predicate Selectable(w: Window, run: string) {
    && w.Window? && ValidWindowId(w.id)
    && 1 <= w.requestBudget <= MAX_REQUESTS && 1 <= w.outputBudget <= MAX_TOKENS
    && run in w.allowed
  }

  function Later(a: Option<int>, b: Option<int>): Option<int> {
    if a.None? then b else if b.None? || b.value <= a.value then a else b
  }

  function StillAhead(t: Option<int>, now: int): Option<int> {
    if t.Some? && t.value > now then t else None
  }

  function LatestAhead(times: seq<int>, now: int): Option<int> {
    if times == [] then None
    else Later(LatestAhead(times[..|times| - 1], now), StillAhead(Some(times[|times| - 1]), now))
  }

  /** The latest recorded reset that is still ahead. */
  function Horizon(l: Ledger, now: int, evidence: seq<int>): Option<int> {
    Later(StillAhead(l.cooldown, now), LatestAhead(evidence, now))
  }

  /** The guard of one process, holding the ledger it read and the exclusive lock. */
  datatype Guard = Guard(
    plan: Plan, ledger: Ledger, blocked: bool, status: Option<int>, count: int, output: int)

  datatype Answer = Done | Refused | Broke

  /** What an operation leaves: the guard, the disk, and how it ended (returned, ProbeStopped, another error). */
  datatype Held = Held(guard: Guard, disk: Ledger, answer: Answer)

  function EntryOf(p: Plan): Entry {
    Entry(InProgress, 0, 0, p.requests, p.tokens,
          if p.window.Some? && p.window.value.Window? then Some(p.window.value.id) else None, None)
  }

  /** __enter__ with the lock held. */
  function Enter(disk: Ledger, p: Plan, now: int, evidence: Option<seq<int>>, save: Save): Held {
    var refused := Held(Guard(p, disk, false, None, 0, 0), disk, Refused);
    if evidence.None? then refused.(answer := Broke)
    else if Horizon(disk, now, evidence.value).Some? then
      var cooling := disk.(cooldown := Horizon(disk, now, evidence.value));
      Held(Guard(p, cooling, false, None, 0, 0), SaveTo(disk, cooling, save), if save.Saved? then Refused else Broke)
    else if p.window.Some? && (!Selectable(p.window.value, p.run)
                               || (p.window.value.id in disk.windows
                                   && disk.windows[p.window.value.id] != p.window.value))
    then refused
    else if p.run in disk.runs then refused
    else
      var ledger := Ledger(disk.runs[p.run := EntryOf(p)],
                           if p.window.Some? then disk.windows[p.window.value.id := p.window.value] else disk.windows,
                           disk.cooldown);
      Held(Guard(p, ledger, false, None, 0, 0), SaveTo(disk, ledger, save), if save.Saved? then Done else Broke)
  }

  // ---- stop, reserve, exit ----

  predicate Rejection(status: Option<int>) {
    status == Some(401) || status == Some(403) || status == Some(429)
  }

  /** The run is in the guard's own ledger: self.entry. */
  predicate Holds(g: Guard) {
    g.plan.run in g.ledger.runs
  }

  function SetEntry(g: Guard, e: Entry): Ledger {
    g.ledger.(runs := g.ledger.runs[g.plan.run := e])
  }

  /** The reset a rejection records: the provider's if it is ahead, or a day from then. */
  function Reset(retryAt: Option<int>, now: int, then_: int): (r: int)
    ensures now <= then_ ==> now < r
  {
    if retryAt.Some? && retryAt.value > now then retryAt.value else then_ + DAY
  }

  /** A guard that is already blocked records nothing but the first rejection. */
  predicate Ignored(g: Guard, status: Option<int>) {
    g.blocked && (!Rejection(status) || Rejection(g.status))
  }

  function Marked(g: Guard, status: Option<int>, reset: int): Guard
    requires Holds(g)
  {
    var e := g.ledger.runs[g.plan.run];
    var ledger := SetEntry(g, e.(status := Blocked, upstream := if status.Some? then status else e.upstream));
    g.(blocked := true, status := status,
       ledger := if Rejection(status) then ledger.(cooldown := Some(reset)) else ledger)
  }

  function Stop(disk: Ledger, g: Guard, status: Option<int>, reset: int, save: Save): Held
    requires Holds(g)
  {
    if Ignored(g, status) then Held(g, disk, Refused)
    else
      var g' := Marked(g, status, reset);
      Held(g', SaveTo(disk, g'.ledger, save), if save.Saved? then Refused else Broke)
  }

  ghost predicate WithinBudget(g: Guard, tokens: Option<int>) {
    && tokens.Some? && 1 <= tokens.value <= MAX_RESERVATION
    && g.count < g.plan.requests && g.output + tokens.value <= g.plan.tokens
    && (g.plan.window.Some? && g.plan.window.value.Window? ==>
          var w := g.plan.window.value;
          && Total(RequestsOf(g.ledger, w.id)) < w.requestBudget
          && Total(TokensOf(g.ledger, w.id)) + tokens.value <= w.outputBudget)
  }

  function Charged(g: Guard, tokens: int): Guard
    requires Holds(g)
  {
    var e := g.ledger.runs[g.plan.run];
    g.(count := g.count + 1, output := g.output + tokens,
       ledger := SetEntry(g, e.(requests := g.count + 1, tokens := g.output + tokens)))
  }

  function Cooling(g: Guard, t: int): Guard {
    g.(ledger := g.ledger.(cooldown := Some(t)))
  }

  /** reserve; `cool` is how the save of a cooldown ends, `save` that of the reservation or of the stop. */
  ghost function Reserve(disk: Ledger, g: Guard, tokens: Option<int>, cancelled: bool, now: int,
                         evidence: Option<seq<int>>, cool: Save, save: Save): Held
    requires Holds(g)
  {
    if cancelled then Stop(disk, g, None, 0, save)
    else if g.blocked then Held(g, disk, Refused)
    else if evidence.None? then Held(g, disk, Broke)
    else
      var ahead := Horizon(g.ledger, now, evidence.value);
      if ahead.Some? then
        var g' := Cooling(g, ahead.value);
        var disk' := SaveTo(disk, g'.ledger, cool);
        if cool.Saved? then Stop(disk', g', None, 0, save) else Held(g', disk', Broke)
      else if !WithinBudget(g, tokens) then Stop(disk, g, None, 0, save)
      else
        var g' := Charged(g, tokens.value);
        Held(g', SaveTo(disk, g'.ledger, save), if save.Saved? then Done else Broke)
  }

  /** __exit__; the lock is released however the save ends. */
  function Exit(disk: Ledger, g: Guard, raised: bool, save: Save): Ledger
    requires Holds(g)
  {
    var e := g.ledger.runs[g.plan.run];
    var status := if g.blocked then Blocked else if raised then Interrupted else Finished;
    SaveTo(disk, SetEntry(g, e.(status := status)), save)
  }
}
