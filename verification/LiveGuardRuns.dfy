/**
  Successive guard processes over one durable ledger, with a crash possible between any two steps:
  budgets, admission and the cooldown barrier of native/opencode/live_safety.py over every run.
 */
module LiveGuardRuns {
  import opened Prelude
  import opened LiveGuard

  /**
    `tickets` are reservations granted and not yet used, `dispatched` the requests sent, `admitted`
    the runs that got through __enter__, `recorded` every cooldown that reached the disk and
    `barriers` those of them that a rejection recorded, `clock` the last reading.
   */
  datatype World = World(
    disk: Ledger, owner: Option<Guard>, tickets: nat, dispatched: map<string, int>, admitted: seq<string>,
    recorded: seq<int>, barriers: seq<int>, clock: int)

  const EMPTY: World := World(NO_RUNS, None, 0, map[], [], [], [], 0)

  datatype Action =
    | EnterGuard(plan: Plan, now: int, evidence: Option<seq<int>>, save: Save)
    | ReserveOne(tokens: Option<int>, cancelled: bool, now: int, evidence: Option<seq<int>>, cool: Save, save: Save)
    | Dispatch
    | StopGuard(status: Option<int>, retryAt: Option<int>, now: int, then_: int, save: Save)
    | ExitGuard(raised: bool, save: Save)
    | Crash

  /** What a save that changed the disk makes durable. */
  function Record(w: World, ledger: Ledger, rejection: bool): World {
    if ledger == w.disk then w else Note(w, ledger, rejection)
  }

  /** What a save that reached the disk makes durable. */
  function Note(w: World, ledger: Ledger, rejection: bool): World {
    if ledger.cooldown.None? then w.(disk := ledger)
    else
      w.(disk := ledger, recorded := w.recorded + [ledger.cooldown.value],
         barriers := if rejection then w.barriers + [ledger.cooldown.value] else w.barriers)
  }

  function CountOf(m: map<string, int>, k: string): int {
    if k in m then m[k] else 0
  }

  predicate Enabled(w: World, a: Action) {
    match a
    case EnterGuard(p, _, _, _) => w.owner.None? && ValidPlan(p)
    case Dispatch => w.owner.Some? && w.tickets > 0
    case Crash => true
    case _ => w.owner.Some? && Holds(w.owner.value)
  }

  ghost function AnswerOf(w: World, a: Action): Answer
    requires Enabled(w, a)
  {
    match a
    case EnterGuard(p, now, evidence, save) => Enter(w.disk, p, now, evidence, save).answer
    case ReserveOne(tokens, cancelled, now, evidence, cool, save) =>
      Reserve(w.disk, w.owner.value, tokens, cancelled, now, evidence, cool, save).answer
    case StopGuard(status, retryAt, now, later, save) =>
      Stop(w.disk, w.owner.value, status, Reset(retryAt, now, later), save).answer
    case _ => Done
  }

  ghost function Next(w: World, a: Action): World
    requires Enabled(w, a)
  {
    match a
    case EnterGuard(p, now, evidence, save) =>
      var h := Enter(w.disk, p, now, evidence, save);
      var w' := Record(w, h.disk, false).(clock := now);
      if h.answer.Done? then w'.(owner := Some(h.guard), tickets := 0, admitted := w.admitted + [p.run]) else w'
    case ReserveOne(tokens, cancelled, now, evidence, cool, save) =>
      var h := Reserve(w.disk, w.owner.value, tokens, cancelled, now, evidence, cool, save);
      var w' := Record(w, h.disk, Rejection(h.guard.status)).(clock := now);
      w'.(owner := Some(h.guard), tickets := if h.answer.Done? then w.tickets + 1 else w.tickets)
    case Dispatch =>
      var run := w.owner.value.plan.run;
      w.(tickets := w.tickets - 1, dispatched := w.dispatched[run := CountOf(w.dispatched, run) + 1])
    case StopGuard(status, retryAt, now, later, save) =>
      var h := Stop(w.disk, w.owner.value, status, Reset(retryAt, now, later), save);
      var w' := (if Ignored(w.owner.value, status) || save.Lost? then w.(disk := h.disk)
                 else Note(w, h.disk, Rejection(h.guard.status))).(clock := later);
      w'.(owner := Some(h.guard))
    case ExitGuard(raised, save) =>
      var ledger := Exit(w.disk, w.owner.value, raised, save);
      var w' := Record(w, ledger, Rejection(w.owner.value.status));
      w'.(owner := None, tickets := 0)
    case Crash => w.(owner := None, tickets := 0)
  }

  ghost function Run(acts: seq<Action>): World {
    if acts == [] then EMPTY
    else
      var w := Run(acts[..|acts| - 1]);
      if Enabled(w, acts[|acts| - 1]) then Next(w, acts[|acts| - 1]) else w
  }

  // ---- budgets ----

  predicate EntryOk(e: Entry) {
    && 0 <= e.requests <= e.requestBudget <= MAX_REQUESTS
    && 0 <= e.tokens <= e.outputBudget <= MAX_TOKENS
    && e.requests <= e.tokens <= MAX_RESERVATION * e.requests
  }

  ghost predicate WindowOk(l: Ledger, id: string, w: Window) {
    && w.Window? && w.id == id && 1 <= w.requestBudget <= MAX_REQUESTS && 1 <= w.outputBudget <= MAX_TOKENS
    && Total(RequestsOf(l, id)) <= w.requestBudget
    && Total(TokensOf(l, id)) <= w.outputBudget
  }

  ghost predicate LedgerOk(l: Ledger) {
    && (forall id :: id in l.runs ==> EntryOk(l.runs[id]))
    && (forall id :: id in l.runs && l.runs[id].window.Some? ==> l.runs[id].window.value in l.windows)
    && (forall id :: id in l.windows ==> WindowOk(l, id, l.windows[id]))
  }

  /** The same runs and windows, the own run at most further on. */
  ghost predicate Ahead(g: Guard, disk: Ledger) {
    && g.ledger.windows == disk.windows && g.ledger.runs.Keys == disk.runs.Keys
    && (forall id :: id in disk.runs && id != g.plan.run ==> g.ledger.runs[id] == disk.runs[id])
    && (g.plan.run in disk.runs ==> disk.runs[g.plan.run].requests <= g.ledger.runs[g.plan.run].requests)
  }

  ghost predicate GuardOk(g: Guard) {
    && Holds(g) && LedgerOk(g.ledger)
    && var e := g.ledger.runs[g.plan.run];
       && e.requests == g.count && e.tokens == g.output
       && e.requestBudget == g.plan.requests && e.outputBudget == g.plan.tokens
       && (g.plan.window.Some? ==>
             var w := g.plan.window.value;
             w.Window? && e.window == Some(w.id) && w.id in g.ledger.windows && g.ledger.windows[w.id] == w)
       && (g.plan.window.None? ==> e.window.None?)
  }

  ghost predicate Dispatches(w: World) {
    && (forall id :: id in w.dispatched ==> id in w.disk.runs)
    && (forall id :: id in w.disk.runs ==>
          CountOf(w.dispatched, id) + (if w.owner.Some? && w.owner.value.plan.run == id then w.tickets else 0)
          <= w.disk.runs[id].requests)
  }

  ghost predicate Budgeted(w: World) {
    && LedgerOk(w.disk) && Dispatches(w)
    && (w.owner.Some? ==> GuardOk(w.owner.value) && Ahead(w.owner.value, w.disk))
  }

  // ---- sums when one entry changes ----

  lemma EntryChange(l: Ledger, run: string, e: Entry, id: string)
    requires run in l.runs && e.window == l.runs[run].window
    ensures var l' := l.(runs := l.runs[run := e]);
            && Total(RequestsOf(l', id)) == Total(RequestsOf(l, id))
                + (if e.window == Some(id) then e.requests - l.runs[run].requests else 0)
            && Total(TokensOf(l', id)) == Total(TokensOf(l, id))
                + (if e.window == Some(id) then e.tokens - l.runs[run].tokens else 0)
  {
    hide Total;
    var l' := l.(runs := l.runs[run := e]);
    if e.window == Some(id) {
      TotalUpdate(RequestsOf(l, id), run, e.requests);
      TotalUpdate(TokensOf(l, id), run, e.tokens);
      assert RequestsOf(l', id) == RequestsOf(l, id)[run := e.requests];
      assert TokensOf(l', id) == TokensOf(l, id)[run := e.tokens];
    } else {
      assert RequestsOf(l', id) == RequestsOf(l, id) && TokensOf(l', id) == TokensOf(l, id);
    }
  }

  lemma EntryAdded(l: Ledger, run: string, e: Entry, id: string)
    requires run !in l.runs && e.requests == 0 && e.tokens == 0
    ensures var l' := l.(runs := l.runs[run := e]);
            && Total(RequestsOf(l', id)) == Total(RequestsOf(l, id))
            && Total(TokensOf(l', id)) == Total(TokensOf(l, id))
  {
    hide Total;
    var l' := l.(runs := l.runs[run := e]);
    if e.window == Some(id) {
      TotalUpdate(RequestsOf(l, id), run, 0);
      TotalUpdate(TokensOf(l, id), run, 0);
      assert RequestsOf(l', id) == RequestsOf(l, id)[run := 0];
      assert TokensOf(l', id) == TokensOf(l, id)[run := 0];
    } else {
      assert RequestsOf(l', id) == RequestsOf(l, id) && TokensOf(l', id) == TokensOf(l, id);
    }
  }

  lemma NoRunsInWindow(l: Ledger, id: string)
    requires forall run :: run in l.runs ==> l.runs[run].window != Some(id)
    ensures Total(RequestsOf(l, id)) == 0 && Total(TokensOf(l, id)) == 0
  {
    assert RequestsOf(l, id) == map[] && TokensOf(l, id) == map[];
  }

  /** A change of the own entry that stays within its window. */
  lemma EntryKeepsLedger(l: Ledger, run: string, e: Entry)
    requires LedgerOk(l) && run in l.runs && e.window == l.runs[run].window && EntryOk(e)
    requires e.window.Some? ==>
               var w := l.windows[e.window.value];
               && Total(RequestsOf(l, w.id)) + e.requests - l.runs[run].requests <= w.requestBudget
               && Total(TokensOf(l, w.id)) + e.tokens - l.runs[run].tokens <= w.outputBudget
    ensures LedgerOk(l.(runs := l.runs[run := e]))
  {
    hide Total, RequestsOf, TokensOf, EntryOk;
    var l' := l.(runs := l.runs[run := e]);
    forall id | id in l'.windows ensures WindowOk(l', id, l'.windows[id]) {
      EntryChange(l, run, e, id);
      assert WindowOk(l, id, l.windows[id]);
    }
  }

  lemma CooldownIsFree(l: Ledger, t: Option<int>)
    requires LedgerOk(l)
    ensures LedgerOk(l.(cooldown := t))
  {
    var l' := l.(cooldown := t);
    forall id | id in l'.windows ensures WindowOk(l', id, l'.windows[id]) {
      assert WindowOk(l, id, l.windows[id]);
      assert RequestsOf(l', id) == RequestsOf(l, id) && TokensOf(l', id) == TokensOf(l, id);
    }
  }

  lemma EnterKeepsLedger(disk: Ledger, p: Plan, now: int, evidence: Option<seq<int>>, save: Save)
    requires LedgerOk(disk) && ValidPlan(p)
    ensures var h := Enter(disk, p, now, evidence, save);
            && LedgerOk(h.guard.ledger) && LedgerOk(h.disk)
            && (h.answer.Done? ==> GuardOk(h.guard) && h.disk == h.guard.ledger && p.run !in disk.runs
                                   && h.disk.runs == disk.runs[p.run := EntryOf(p)])
  {
    hide Total, RequestsOf, TokensOf, Horizon;
    var h := Enter(disk, p, now, evidence, save);
    if evidence.Some? && Horizon(disk, now, evidence.value).Some? {
      CooldownIsFree(disk, Horizon(disk, now, evidence.value));
    } else if h.guard.ledger != disk {
      var l := h.guard.ledger;
      var e := EntryOf(p);
      forall id | id in l.windows ensures WindowOk(l, id, l.windows[id]) {
        EntryAdded(disk, p.run, e, id);
        SameRuns(l, disk.(runs := disk.runs[p.run := e]), id);
        if id in disk.windows {
          assert WindowOk(disk, id, disk.windows[id]);
        } else {
          NoRunsInWindow(disk, id);
        }
      }
    }
  }

  lemma SameRuns(a: Ledger, b: Ledger, id: string)
    requires a.runs == b.runs
    ensures RequestsOf(a, id) == RequestsOf(b, id) && TokensOf(a, id) == TokensOf(b, id)
  {
  }

  /** Stop, and the cooldown a reserve writes, touch no count. */
  lemma MarkedKeeps(g: Guard, status: Option<int>, reset: int)
    requires GuardOk(g)
    ensures GuardOk(Marked(g, status, reset))
    ensures Marked(g, status, reset).plan == g.plan
    ensures Ahead(Marked(g, status, reset), g.ledger)
    ensures forall id :: id in g.ledger.runs ==>
              Marked(g, status, reset).ledger.runs[id].requests == g.ledger.runs[id].requests
  {
    hide Total, RequestsOf, TokensOf;
    var e := g.ledger.runs[g.plan.run];
    var e' := e.(status := Blocked, upstream := if status.Some? then status else e.upstream);
    WindowOfEntry(g.ledger, g.plan.run);
    EntryKeepsLedger(g.ledger, g.plan.run, e');
    CooldownIsFree(SetEntry(g, e'), Some(reset));
  }

  lemma WindowOfEntry(l: Ledger, run: string)
    requires LedgerOk(l) && run in l.runs
    ensures l.runs[run].window.Some? ==> WindowOk(l, l.runs[run].window.value, l.windows[l.runs[run].window.value])
  {
  }

  lemma CoolingKeeps(g: Guard, t: int)
    requires GuardOk(g)
    ensures GuardOk(Cooling(g, t)) && Ahead(Cooling(g, t), g.ledger)
  {
    hide Total, RequestsOf, TokensOf;
    CooldownIsFree(g.ledger, Some(t));
  }

  lemma ChargedKeeps(g: Guard, tokens: int)
    requires GuardOk(g) && WithinBudget(g, Some(tokens))
    ensures GuardOk(Charged(g, tokens)) && Ahead(Charged(g, tokens), g.ledger)
  {
    hide Total, RequestsOf, TokensOf;
    var e := g.ledger.runs[g.plan.run];
    WindowOfEntry(g.ledger, g.plan.run);
    EntryKeepsLedger(g.ledger, g.plan.run, e.(requests := g.count + 1, tokens := g.output + tokens));
  }

  lemma AheadTransitive(a: Guard, b: Guard, disk: Ledger)
    requires a.plan.run == b.plan.run && Holds(a) && Holds(b)
    requires Ahead(a, b.ledger) && Ahead(b, disk)
    ensures Ahead(a, disk)
  {
  }

  lemma SelfAhead(g: Guard)
    ensures Ahead(g, g.ledger)
  {
  }

  /** An operation on the owner's guard that grants nothing. */
  ghost predicate Harmless(disk: Ledger, g: Guard, disk': Ledger, g': Guard) {
    && GuardOk(g') && g'.plan == g.plan && Ahead(g', disk') && LedgerOk(disk')
    && disk'.runs.Keys == disk.runs.Keys
    && (forall id :: id in disk.runs ==> disk.runs[id].requests <= disk'.runs[id].requests)
  }

  lemma StopIsHarmless(disk: Ledger, g: Guard, status: Option<int>, reset: int, save: Save)
    requires GuardOk(g) && Ahead(g, disk) && LedgerOk(disk)
    ensures var h := Stop(disk, g, status, reset, save); Harmless(disk, g, h.disk, h.guard)
  {
    hide LedgerOk, GuardOk, Marked, Total;
    if !Ignored(g, status) {
      GuardIs(g);
      MarkedKeeps(g, status, reset);
      var g' := Marked(g, status, reset);
      GuardIs(g');
      AheadTransitive(g', g, disk);
      SelfAhead(g');
    }
  }

  lemma GuardIs(g: Guard)
    requires GuardOk(g)
    ensures Holds(g) && LedgerOk(g.ledger) && g.ledger.runs[g.plan.run].requests == g.count
  {
  }

  lemma HarmlessTwice(disk: Ledger, g: Guard, disk1: Ledger, g1: Guard, disk2: Ledger, g2: Guard)
    requires Harmless(disk, g, disk1, g1) && Harmless(disk1, g1, disk2, g2)
    ensures Harmless(disk, g, disk2, g2)
  {
  }

  lemma CoolingIsHarmless(disk: Ledger, g: Guard, t: int, save: Save)
    requires GuardOk(g) && Ahead(g, disk) && LedgerOk(disk)
    ensures Harmless(disk, g, SaveTo(disk, Cooling(g, t).ledger, save), Cooling(g, t))
  {
    hide LedgerOk, GuardOk, Total;
    GuardIs(g);
    CoolingKeeps(g, t);
    GuardIs(Cooling(g, t));
    AheadTransitive(Cooling(g, t), g, disk);
    SelfAhead(Cooling(g, t));
  }

  lemma ChargedIsHarmless(disk: Ledger, g: Guard, tokens: int, save: Save)
    requires GuardOk(g) && Ahead(g, disk) && LedgerOk(disk) && WithinBudget(g, Some(tokens))
    ensures Harmless(disk, g, SaveTo(disk, Charged(g, tokens).ledger, save), Charged(g, tokens))
    ensures Charged(g, tokens).ledger.runs[g.plan.run].requests == g.ledger.runs[g.plan.run].requests + 1
  {
    hide LedgerOk, Total, WithinBudget;
    GuardIs(g);
    ChargedKeeps(g, tokens);
    GuardIs(Charged(g, tokens));
    AheadTransitive(Charged(g, tokens), g, disk);
    SelfAhead(Charged(g, tokens));
  }

  lemma ReserveKeeps(disk: Ledger, g: Guard, tokens: Option<int>, cancelled: bool, now: int,
                     evidence: Option<seq<int>>, cool: Save, save: Save)
    requires GuardOk(g) && Ahead(g, disk) && LedgerOk(disk)
    ensures Holds(g)
    ensures var h := Reserve(disk, g, tokens, cancelled, now, evidence, cool, save);
            && Harmless(disk, g, h.disk, h.guard)
            && (h.answer.Done? ==> h.disk.runs[g.plan.run].requests > disk.runs[g.plan.run].requests)
  {
    hide LedgerOk, GuardOk, Total, Harmless, Stop, Horizon, WithinBudget, Charged;
    GuardIs(g);
    StopIsHarmless(disk, g, None, 0, save);
    SameIsHarmless(disk, g);
    StopAnswers(disk, g, None, 0, save);
    if !cancelled && !g.blocked && evidence.Some? {
      var ahead := Horizon(g.ledger, now, evidence.value);
      if ahead.Some? {
        var g1, disk1 := Cooling(g, ahead.value), SaveTo(disk, Cooling(g, ahead.value).ledger, cool);
        CoolingIsHarmless(disk, g, ahead.value, cool);
        HarmlessIs(disk, g, disk1, g1);
        StopIsHarmless(disk1, g1, None, 0, save);
        StopAnswers(disk1, g1, None, 0, save);
        HarmlessTwice(disk, g, disk1, g1, Stop(disk1, g1, None, 0, save).disk, Stop(disk1, g1, None, 0, save).guard);
      } else if WithinBudget(g, tokens) {
        TokensGiven(g, tokens);
        ChargedIsHarmless(disk, g, tokens.value, save);
      }
    }
  }

  lemma TokensGiven(g: Guard, tokens: Option<int>)
    requires WithinBudget(g, tokens)
    ensures tokens.Some? && tokens == Some(tokens.value)
  {
  }

  lemma HarmlessIs(disk: Ledger, g: Guard, disk': Ledger, g': Guard)
    requires Harmless(disk, g, disk', g')
    ensures GuardOk(g') && Holds(g') && Ahead(g', disk') && LedgerOk(disk')
  {
  }

  lemma StopAnswers(disk: Ledger, g: Guard, status: Option<int>, reset: int, save: Save)
    requires Holds(g)
    ensures !Stop(disk, g, status, reset, save).answer.Done?
  {
  }

  lemma SameIsHarmless(disk: Ledger, g: Guard)
    requires GuardOk(g) && Ahead(g, disk) && LedgerOk(disk)
    ensures Harmless(disk, g, disk, g)
  {
  }

  // ---- every run keeps the budgets ----

  lemma DispatchesGrow(w: World, w': World)
    requires Dispatches(w) && w'.dispatched == w.dispatched
    requires forall id :: id in w.disk.runs
               ==> id in w'.disk.runs && w.disk.runs[id].requests <= w'.disk.runs[id].requests
    requires forall id :: id in w'.disk.runs && id !in w.disk.runs ==> 0 <= w'.disk.runs[id].requests
    requires w'.owner.None? || w'.tickets == 0
    ensures Dispatches(w')
  {
  }

  lemma ReserveStepKeeps(w: World, a: Action)
    requires Budgeted(w) && Enabled(w, a) && a.ReserveOne?
    ensures Budgeted(Next(w, a))
  {
    hide LedgerOk, GuardOk, Ahead, Reserve, Holds;
    var g := w.owner.value;
    ReserveKeeps(w.disk, g, a.tokens, a.cancelled, a.now, a.evidence, a.cool, a.save);
  }

  lemma OtherStepKeeps(w: World, a: Action)
    requires Budgeted(w) && Enabled(w, a) && (a.Dispatch? || a.Crash? || a.StopGuard?)
    ensures Budgeted(Next(w, a))
  {
    hide LedgerOk, GuardOk, Ahead, Stop;
    if a.StopGuard? {
      StopIsHarmless(w.disk, w.owner.value, a.status, Reset(a.retryAt, a.now, a.then_), a.save);
    } else if a.Dispatch? {
      DispatchRuns(w);
    }
  }

  lemma DispatchRuns(w: World)
    requires Budgeted(w) && w.owner.Some?
    ensures w.owner.value.plan.run in w.disk.runs
  {
  }

  lemma ExitKeepsLedger(disk: Ledger, g: Guard, raised: bool, save: Save)
    requires GuardOk(g) && Ahead(g, disk) && LedgerOk(disk)
    ensures var l := Exit(disk, g, raised, save);
            && LedgerOk(l) && l.runs.Keys == disk.runs.Keys
            && (forall id :: id in disk.runs ==> disk.runs[id].requests <= l.runs[id].requests)
  {
    hide Total, RequestsOf, TokensOf, WindowOk;
    var e := g.ledger.runs[g.plan.run];
    var status := if g.blocked then Blocked else if raised then Interrupted else Finished;
    assert g.plan.run in g.ledger.runs;
    WindowOfEntry(g.ledger, g.plan.run);
    WindowIs(g.ledger, g.plan.run);
    EntryKeepsLedger(g.ledger, g.plan.run, e.(status := status));
    hide LedgerOk;
    assert Exit(disk, g, raised, Saved).runs.Keys == g.ledger.runs.Keys;
  }

  lemma WindowIs(l: Ledger, run: string)
    requires LedgerOk(l) && run in l.runs
    ensures l.runs[run].window.Some? ==>
              var id := l.runs[run].window.value;
              && id in l.windows && l.windows[id].Window? && l.windows[id].id == id
              && Total(RequestsOf(l, id)) <= l.windows[id].requestBudget
              && Total(TokensOf(l, id)) <= l.windows[id].outputBudget
  {
    WindowOfEntry(l, run);
  }

  lemma ExitStepKeeps(w: World, a: Action)
    requires Budgeted(w) && Enabled(w, a) && a.ExitGuard?
    ensures Budgeted(Next(w, a))
  {
    hide LedgerOk, GuardOk, Ahead, Exit, Dispatches;
    ExitKeepsLedger(w.disk, w.owner.value, a.raised, a.save);
    DispatchesGrow(w, Next(w, a));
  }

  lemma EnterStepKeeps(w: World, a: Action)
    requires Budgeted(w) && Enabled(w, a) && a.EnterGuard?
    ensures Budgeted(Next(w, a))
  {
    hide LedgerOk, Enter;
    EnterKeepsLedger(w.disk, a.plan, a.now, a.evidence, a.save);
    EnterRuns(w.disk, a.plan, a.now, a.evidence, a.save);
    var h := Enter(w.disk, a.plan, a.now, a.evidence, a.save);
    if h.answer.Done? { SelfAhead(h.guard); }
    hide GuardOk, Ahead;
    DispatchesGrow(w, Next(w, a));
  }

  lemma EnterRuns(disk: Ledger, p: Plan, now: int, evidence: Option<seq<int>>, save: Save)
    ensures var h := Enter(disk, p, now, evidence, save);
            && (h.disk.runs == disk.runs || (p.run !in disk.runs && h.disk.runs == disk.runs[p.run := EntryOf(p)]))
            && (h.answer.Done? ==> h.guard.plan == p)
            && (forall id :: id in disk.windows ==> id in h.disk.windows && h.disk.windows[id] == disk.windows[id])
  {
    hide Horizon;
  }

  lemma {:induction false} RunsKeepBudgets(acts: seq<Action>)
    ensures Budgeted(Run(acts))
  {
    hide Budgeted, Next, Enabled;
    if acts == [] {
      NothingSpent();
    } else {
      var w, a := Run(acts[..|acts| - 1]), acts[|acts| - 1];
      RunsKeepBudgets(acts[..|acts| - 1]);
      if Enabled(w, a) {
        if a.EnterGuard? { EnterStepKeeps(w, a); }
        else if a.ReserveOne? { ReserveStepKeeps(w, a); }
        else if a.ExitGuard? { ExitStepKeeps(w, a); }
        else { OtherStepKeeps(w, a); }
      }
    }
  }

  lemma NothingSpent()
    ensures Budgeted(EMPTY)
  {
  }

  /** The requests sent by the runs of one window. */
  ghost function DispatchedIn(w: World, id: string): map<string, int> {
    map run | run in w.dispatched && run in w.disk.runs && w.disk.runs[run].window == Some(id) :: w.dispatched[run]
  }

  /**
    In every run of the system, crashes included: each probe stays within its own limits, all probes
    of a window together within the budgets of the window, and what was sent within what is
    durably reserved, for each probe and for each window.
   */
  lemma BudgetsHold(acts: seq<Action>, id: string)
    ensures var w := Run(acts);
            && (forall run :: run in w.disk.runs ==>
                  var e := w.disk.runs[run];
                  && CountOf(w.dispatched, run) <= e.requests <= e.requestBudget <= 40
                  && e.tokens <= e.outputBudget <= 220_000 && e.tokens <= 8192 * e.requests)
            && (forall run :: run in w.dispatched ==> run in w.disk.runs)
            && (id in w.disk.windows ==>
                  && w.disk.windows[id].Window?
                  && var runs := w.disk.runs;
                     var requests := map run | run in runs && runs[run].window == Some(id) :: runs[run].requests;
                     var tokens := map run | run in runs && runs[run].window == Some(id) :: runs[run].tokens;
                     && Total(DispatchedIn(w, id)) <= Total(requests) <= w.disk.windows[id].requestBudget <= 40
                     && Total(tokens) <= w.disk.windows[id].outputBudget <= 220_000)
  {
    hide Run, GuardOk, Ahead, Total;
    var w := Run(acts);
    var runs := w.disk.runs;
    assert RequestsOf(w.disk, id) == map run | run in runs && runs[run].window == Some(id) :: runs[run].requests;
    assert TokensOf(w.disk, id) == map run | run in runs && runs[run].window == Some(id) :: runs[run].tokens;
    RunsKeepBudgets(acts);
    if id in w.disk.windows {
      assert WindowOk(w.disk, id, w.disk.windows[id]);
      forall run | run in DispatchedIn(w, id)
        ensures run in RequestsOf(w.disk, id) && DispatchedIn(w, id)[run] <= RequestsOf(w.disk, id)[run]
      {
        assert CountOf(w.dispatched, run) <= w.disk.runs[run].requests;
      }
      TotalAtMost(DispatchedIn(w, id), RequestsOf(w.disk, id));
    }
  }
}
