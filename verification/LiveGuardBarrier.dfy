/**
  Admission, blocking and the cooldown barrier of native/opencode/live_safety.py over every run,
  and where a recorded cooldown can be shortened.
 */
module LiveGuardBarrier {
  import opened Prelude
  import opened LiveGuard
  import opened LiveGuardRuns

  // ---- what a step leaves alone ----

  predicate Owns(w: World, run: string) {
    w.owner.Some? && w.owner.value.plan.run == run
  }

  /** Windows and the limits of a run are fixed, and only the owner's run moves. */
  ghost predicate Fixed(w: World, w': World) {
    && (forall id :: id in w.disk.windows ==> id in w'.disk.windows && w'.disk.windows[id] == w.disk.windows[id])
    && (forall run :: run in w.disk.runs ==> run in w'.disk.runs && Continues(w.disk.runs[run], w'.disk.runs[run]))
    && (forall run :: run in w.disk.runs && !Owns(w, run) ==> w'.disk.runs[run] == w.disk.runs[run])
  }

  predicate Continues(e: Entry, e': Entry) {
    && e'.requestBudget == e.requestBudget && e'.outputBudget == e.outputBudget && e'.window == e.window
    && e.requests <= e'.requests
  }

  /** The owner's ledger continues the disk's. */
  ghost predicate OwnerContinues(w: World) {
    w.owner.Some? && w.owner.value.plan.run in w.disk.runs && Holds(w.owner.value) ==>
      Continues(w.disk.runs[w.owner.value.plan.run], w.owner.value.ledger.runs[w.owner.value.plan.run])
  }

  lemma LedgerStep(disk: Ledger, g: Guard, g': Guard)
    requires Holds(g) && Holds(g') && g'.plan == g.plan && Ahead(g, disk)
    requires Ahead(g', g.ledger)
    requires g.plan.run in disk.runs && Continues(disk.runs[g.plan.run], g.ledger.runs[g.plan.run])
    requires Continues(g.ledger.runs[g.plan.run], g'.ledger.runs[g.plan.run])
    ensures forall run :: run in disk.runs ==> run in g'.ledger.runs && Continues(disk.runs[run], g'.ledger.runs[run])
    ensures forall run :: run in disk.runs && run != g.plan.run ==> g'.ledger.runs[run] == disk.runs[run]
    ensures g'.ledger.windows == disk.windows
  {
  }

  lemma MarkedContinues(g: Guard, status: Option<int>, reset: int)
    requires Holds(g)
    ensures var g' := Marked(g, status, reset);
            && Holds(g') && g'.plan == g.plan && Ahead(g', g.ledger)
            && Continues(g.ledger.runs[g.plan.run], g'.ledger.runs[g.plan.run])
            && g'.count == g.count && g'.blocked
  {
  }

  lemma ChargedContinues(g: Guard, tokens: int)
    requires GuardOk(g)
    ensures var g' := Charged(g, tokens);
            && Holds(g') && g'.plan == g.plan && Ahead(g', g.ledger)
            && Continues(g.ledger.runs[g.plan.run], g'.ledger.runs[g.plan.run])
  {
    hide LedgerOk;
  }

  /** The state in which the owner's ledger and the disk belong together. */
  ghost predicate Standing(w: World) {
    && Budgeted(w) && OwnerContinues(w)
    && (w.owner.Some? ==> w.owner.value.plan.run in w.disk.runs)
  }

  lemma OwnerOk(w: World)
    requires Standing(w) && w.owner.Some?
    ensures var g := w.owner.value;
            && GuardOk(g) && Holds(g) && Ahead(g, w.disk) && g.plan.run in w.disk.runs
            && Continues(w.disk.runs[g.plan.run], g.ledger.runs[g.plan.run])
            && g.ledger.runs[g.plan.run].requests == g.count
  {
    hide LedgerOk, Dispatches;
  }

  /** What a guarded operation turns the disk and the guard into. */
  ghost predicate Steps(disk: Ledger, g: Guard, h: Held) {
    && Holds(h.guard) && h.guard.plan == g.plan
    && g.plan.run in disk.runs && g.plan.run in h.disk.runs
    && (forall run :: run in disk.runs ==> run in h.disk.runs && Continues(disk.runs[run], h.disk.runs[run]))
    && (forall run :: run in disk.runs && run != g.plan.run ==> h.disk.runs[run] == disk.runs[run])
    && h.disk.windows == disk.windows
    && Continues(h.disk.runs[g.plan.run], h.guard.ledger.runs[g.plan.run])
    && (g.blocked ==> h.guard.blocked && h.guard.count == g.count && !h.answer.Done?)
  }

  ghost predicate Joined(disk: Ledger, g: Guard) {
    && GuardOk(g) && Holds(g) && Ahead(g, disk) && g.plan.run in disk.runs
    && Continues(disk.runs[g.plan.run], g.ledger.runs[g.plan.run])
  }

  lemma JoinedIs(disk: Ledger, g: Guard)
    requires Joined(disk, g)
    ensures GuardOk(g) && Holds(g) && Ahead(g, disk) && g.plan.run in disk.runs
    ensures Continues(disk.runs[g.plan.run], g.ledger.runs[g.plan.run])
    ensures Steps(disk, g, Held(g, disk, Refused)) && Steps(disk, g, Held(g, disk, Broke))
  {
    hide LedgerOk, GuardOk;
  }

  lemma StopSteps(disk: Ledger, g: Guard, status: Option<int>, reset: int, save: Save)
    requires Joined(disk, g)
    ensures Holds(g) && Steps(disk, g, Stop(disk, g, status, reset, save))
  {
    hide LedgerOk, GuardOk, Marked, Ahead, Continues;
    JoinedIs(disk, g);
    MarkedContinues(g, status, reset);
    LedgerStep(disk, g, Marked(g, status, reset));
    EntriesContinue(g.ledger.runs[g.plan.run], Marked(g, status, reset).ledger.runs[g.plan.run],
                    disk.runs[g.plan.run]);
  }

  lemma EntriesContinue(e: Entry, e': Entry, d: Entry)
    requires Continues(e, e') && Continues(d, e)
    ensures Continues(d, e') && Continues(e', e') && Continues(d, d)
  {
  }

  lemma ReserveSteps(disk: Ledger, g: Guard, tokens: Option<int>, cancelled: bool, now: int,
                     evidence: Option<seq<int>>, cool: Save, save: Save)
    requires Joined(disk, g) && LedgerOk(disk)
    ensures Holds(g) && Steps(disk, g, Reserve(disk, g, tokens, cancelled, now, evidence, cool, save))
  {
    hide LedgerOk, GuardOk, Stop, Horizon, WithinBudget, Charged, Continues, Ahead, Steps, Joined;
    JoinedIs(disk, g);
    StopSteps(disk, g, None, 0, save);
    if !cancelled && !g.blocked && evidence.Some? {
      var ahead := Horizon(g.ledger, now, evidence.value);
      if ahead.Some? {
        CoolingSteps(disk, g, ahead.value, cool);
        var g1, disk1 := Cooling(g, ahead.value), SaveTo(disk, Cooling(g, ahead.value).ledger, cool);
        StopSteps(disk1, g1, None, 0, save);
        JoinedIs(disk1, g1);
        StopAnswers(disk1, g1, None, 0, save);
        StepsTwice(disk, g, disk1, g1, Stop(disk1, g1, None, 0, save));
      } else if WithinBudget(g, tokens) {
        TokensGiven(g, tokens);
        ChargedSteps(disk, g, tokens.value, save);
      }
    }
  }

  lemma CoolingSteps(disk: Ledger, g: Guard, t: int, cool: Save)
    requires Joined(disk, g)
    ensures var disk1 := SaveTo(disk, Cooling(g, t).ledger, cool);
            Joined(disk1, Cooling(g, t)) && Steps(disk, g, Held(Cooling(g, t), disk1, Broke))
  {
    hide LedgerOk;
    CoolingKeeps(g, t);
  }

  lemma StepsTwice(disk: Ledger, g: Guard, disk1: Ledger, g1: Guard, h: Held)
    requires Steps(disk, g, Held(g1, disk1, Broke)) && Steps(disk1, g1, h) && !h.answer.Done?
    ensures Steps(disk, g, h)
  {
  }

  lemma ChargedSteps(disk: Ledger, g: Guard, tokens: int, save: Save)
    requires Joined(disk, g) && !g.blocked
    ensures Holds(g)
    ensures forall answer :: Steps(disk, g,
            Held(Charged(g, tokens), SaveTo(disk, Charged(g, tokens).ledger, save), answer))
  {
    hide LedgerOk;
    JoinedIs(disk, g);
    ChargedContinues(g, tokens);
  }

  ghost predicate FixedBy(w: World, w': World) {
    && Fixed(w, w') && OwnerContinues(w')
    && (w'.owner.Some? ==> w'.owner.value.plan.run in w'.disk.runs)
    && (w.owner.Some? && w'.owner.Some? ==> w'.owner.value.plan == w.owner.value.plan)
    && (w.owner.Some? && w'.owner.Some? && w.owner.value.blocked ==>
          w'.owner.value.blocked && w'.owner.value.count == w.owner.value.count)
  }

  lemma HeldFixes(w: World, w': World, h: Held)
    requires w.owner.Some? && Steps(w.disk, w.owner.value, h) && w'.disk == h.disk && w'.owner == Some(h.guard)
    ensures FixedBy(w, w')
  {
    hide Continues;
  }

  lemma GuardStepFixes(w: World, a: Action)
    requires Standing(w) && Enabled(w, a) && (a.ReserveOne? || a.StopGuard?)
    ensures FixedBy(w, Next(w, a))
  {
    hide LedgerOk, GuardOk, Ahead, Reserve, Stop, Continues, Dispatches, Steps, FixedBy, Holds;
    OwnerOk(w);
    if a.ReserveOne? {
      ReserveSteps(w.disk, w.owner.value, a.tokens, a.cancelled, a.now, a.evidence, a.cool, a.save);
      HeldFixes(w, Next(w, a),
          Reserve(w.disk, w.owner.value, a.tokens, a.cancelled, a.now, a.evidence, a.cool, a.save));
    } else {
      StopSteps(w.disk, w.owner.value, a.status, Reset(a.retryAt, a.now, a.then_), a.save);
      HeldFixes(w, Next(w, a), Stop(w.disk, w.owner.value, a.status, Reset(a.retryAt, a.now, a.then_), a.save));
    }
  }

  lemma LeaveStepFixes(w: World, a: Action)
    requires Standing(w) && Enabled(w, a) && (a.Dispatch? || a.Crash?)
    ensures FixedBy(w, Next(w, a))
  {
    hide LedgerOk, GuardOk, Ahead, Exit, Continues, Dispatches;
    SelfContinues(w.disk);
    if w.owner.Some? { OwnerOk(w); }
  }

  lemma ExitStepFixes(w: World, a: Action)
    requires Standing(w) && Enabled(w, a) && a.ExitGuard?
    ensures FixedBy(w, Next(w, a))
  {
    hide LedgerOk, GuardOk, Ahead, Exit, Continues, Dispatches;
    SelfContinues(w.disk);
    OwnerOk(w);
    ExitFixes(w.disk, w.owner.value, a.raised, a.save);
  }

  lemma EnterStepFixes(w: World, a: Action)
    requires Standing(w) && Enabled(w, a) && a.EnterGuard?
    ensures FixedBy(w, Next(w, a))
  {
    hide LedgerOk, GuardOk, Ahead, Enter, Continues, Dispatches;
    SelfContinues(w.disk);
    EnterRuns(w.disk, a.plan, a.now, a.evidence, a.save);
    EnterHolds(w.disk, a.plan, a.now, a.evidence, a.save);
  }

  /** A step fixes what it must, and a blocked guard's run does not grow by it. */
  lemma StepFixes(w: World, a: Action)
    requires Standing(w) && Enabled(w, a)
    ensures FixedBy(w, Next(w, a))
  {
    hide Standing, Next, Enabled, FixedBy;
    if a.ReserveOne? || a.StopGuard? { GuardStepFixes(w, a); }
    else if a.EnterGuard? { EnterStepFixes(w, a); }
    else if a.ExitGuard? { ExitStepFixes(w, a); }
    else { LeaveStepFixes(w, a); }
  }

  lemma SelfContinues(l: Ledger)
    ensures forall run :: run in l.runs ==> Continues(l.runs[run], l.runs[run])
  {
  }

  lemma EnterHolds(disk: Ledger, p: Plan, now: int, evidence: Option<seq<int>>, save: Save)
    ensures var h := Enter(disk, p, now, evidence, save);
            h.answer.Done? ==>
              && p.run !in disk.runs && h.guard.plan == p && h.disk == h.guard.ledger && p.run in h.disk.runs
                  && !h.guard.blocked
              && Continues(h.disk.runs[p.run], h.guard.ledger.runs[p.run])
              && (disk.cooldown.None? || disk.cooldown.value <= now)
              && h.disk.cooldown == disk.cooldown
  {
    if evidence.Some? { HorizonIs(disk, now, evidence.value); }
    hide Horizon;
  }

  lemma ExitFixes(disk: Ledger, g: Guard, raised: bool, save: Save)
    requires Joined(disk, g)
    ensures var l := Exit(disk, g, raised, save);
            && (forall run :: run in disk.runs ==> run in l.runs && Continues(disk.runs[run], l.runs[run]))
            && (forall run :: run in disk.runs && run != g.plan.run ==> l.runs[run] == disk.runs[run])
            && l.windows == disk.windows
  {
    hide LedgerOk;
  }

  lemma {:induction false} RunsStand(acts: seq<Action>)
    ensures Standing(Run(acts))
  {
    hide Budgeted, OwnerContinues, Next, Enabled;
    RunsKeepBudgets(acts);
    if acts == [] {
      EmptyStands();
    } else {
      var init := acts[..|acts| - 1];
      RunsStand(init);
      if Enabled(Run(init), acts[|acts| - 1]) {
        StepFixes(Run(init), acts[|acts| - 1]);
      }
    }
  }

  lemma EmptyStands()
    ensures Standing(EMPTY)
  {
    NothingSpent();
  }

  lemma RunMore(acts: seq<Action>, a: Action)
    ensures Run(acts + [a]) == if Enabled(Run(acts), a) then Next(Run(acts), a) else Run(acts)
  {
    assert (acts + [a])[..|acts|] == acts;
  }

  // ---- admission ----

  ghost predicate AdmittedApart(w: World) {
    && (forall i, j :: 0 <= i < j < |w.admitted| ==> w.admitted[i] != w.admitted[j])
    && (forall run :: run in w.admitted ==> run in w.disk.runs)
  }

  /** A run id gets through admission at most once, whatever crashes, and stays in the ledger for good. */
  lemma {:induction false} AdmittedOnce(acts: seq<Action>)
    ensures AdmittedApart(Run(acts))
  {
    hide Budgeted, OwnerContinues, Reserve, Stop, Enter, Exit, Enabled, Continues;
    if acts != [] {
      var init, a := acts[..|acts| - 1], acts[|acts| - 1];
      AdmittedOnce(init);
      RunsStand(init);
      var w := Run(init);
      if Enabled(w, a) {
        StepFixes(w, a);
        if a.EnterGuard? {
          EnterHolds(w.disk, a.plan, a.now, a.evidence, a.save);
          NewRun(w, a);
        }
      }
    }
  }

  lemma NewRun(w: World, a: Action)
    requires Enabled(w, a) && a.EnterGuard?
    ensures Next(w, a).owner.Some? ==> a.plan.run in Next(w, a).disk.runs
    ensures Next(w, a).owner.Some? <==> Next(w, a).admitted != w.admitted
    ensures Next(w, a).admitted == w.admitted || Next(w, a).admitted == w.admitted + [a.plan.run]
  {
    hide Enter;
    EnterHolds(w.disk, a.plan, a.now, a.evidence, a.save);
  }

  // ---- a blocked run never grows, and nothing recorded changes ----

  ghost predicate Stopped(w: World, run: string, n: int) {
    && run in w.disk.runs && w.disk.runs[run].requests <= n
    && (Owns(w, run) ==> w.owner.value.blocked && w.owner.value.count == n)
  }

  lemma StoppedStep(w: World, a: Action, run: string, n: int)
    requires Standing(w) && Stopped(w, run, n) && Enabled(w, a)
    ensures Stopped(Next(w, a), run, n)
  {
    hide Budgeted, Reserve, Stop, Enter, Exit, LedgerOk;
    StepFixes(w, a);
    var w' := Next(w, a);
    if Owns(w, run) {
      OwnerOk(w);
      if w'.owner.Some? {
        RunsOnward(w, a);
      } else {
        ExitCount(w, a);
      }
    } else if a.EnterGuard? {
      EnterHolds(w.disk, a.plan, a.now, a.evidence, a.save);
    }
  }

  lemma RunsOnward(w: World, a: Action)
    requires Standing(w) && Enabled(w, a) && w.owner.Some? && Next(w, a).owner.Some?
    ensures var w' := Next(w, a);
            var run := w.owner.value.plan.run;
            w'.owner.value.plan.run == run && run in w'.disk.runs && w'.disk.runs[run].requests <= w'.owner.value.count
  {
    hide Next, Enabled;
    StepFixes(w, a);
    NextBudgeted(w, a);
    GuardIs(Next(w, a).owner.value);
  }

  lemma NextBudgeted(w: World, a: Action)
    requires Budgeted(w) && Enabled(w, a)
    ensures Budgeted(Next(w, a))
  {
    hide Budgeted, Next, Enabled;
    if a.EnterGuard? { EnterStepKeeps(w, a); }
    else if a.ReserveOne? { ReserveStepKeeps(w, a); }
    else if a.ExitGuard? { ExitStepKeeps(w, a); }
    else { OtherStepKeeps(w, a); }
  }

  lemma ExitCount(w: World, a: Action)
    requires Standing(w) && Enabled(w, a) && w.owner.Some? && Next(w, a).owner.None?
    ensures var run := w.owner.value.plan.run;
            run in Next(w, a).disk.runs && Next(w, a).disk.runs[run].requests <= w.owner.value.count
  {
    hide LedgerOk, Reserve, Stop, Enter;
    OwnerOk(w);
  }

  /** Once a guard is blocked, its run's count never grows again, in this process or any later one. */
  lemma {:induction false} BlockedStaysPut(acts: seq<Action>, more: seq<Action>)
    requires Run(acts).owner.Some? && Run(acts).owner.value.blocked
    ensures var g := Run(acts).owner.value; Stopped(Run(acts + more), g.plan.run, g.count)
  {
    hide Next, Enabled;
    var w := Run(acts);
    var run, n := w.owner.value.plan.run, w.owner.value.count;
    if more == [] {
      assert acts + more == acts;
      RunsStand(acts);
      OwnerOk(w);
    } else {
      var init, a := more[..|more| - 1], more[|more| - 1];
      BlockedStaysPut(acts, init);
      RunsStand(acts + init);
      assert acts + more == acts + init + [a];
      RunMore(acts + init, a);
      hide Stopped, Run, Standing;
      if Enabled(Run(acts + init), a) {
        StoppedStep(Run(acts + init), a, run, n);
      }
    }
  }

  /** Windows, and the limits of every run, are what they were first recorded as. */
  lemma {:induction false} LimitsNeverChange(acts: seq<Action>, more: seq<Action>)
    ensures var w, w' := Run(acts), Run(acts + more);
            && (forall id :: id in w.disk.windows
                  ==> id in w'.disk.windows && w'.disk.windows[id] == w.disk.windows[id])
            && (forall run :: run in w.disk.runs
                  ==> run in w'.disk.runs && Continues(w.disk.runs[run], w'.disk.runs[run]))
  {
    hide Next, Enabled, Run, Standing;
    var w := Run(acts);
    if more == [] {
      assert acts + more == acts;
    } else {
      var init, a := more[..|more| - 1], more[|more| - 1];
      LimitsNeverChange(acts, init);
      RunsStand(acts + init);
      assert acts + more == acts + init + [a];
      RunMore(acts + init, a);
      if Enabled(Run(acts + init), a) {
        StepFixes(Run(acts + init), a);
      }
    }
  }

  // ---- the barrier ----

  lemma HorizonIs(l: Ledger, now: int, evidence: seq<int>)
    ensures var t := Horizon(l, now, evidence);
            && (t.None? ==> l.cooldown.None? || l.cooldown.value <= now)
            && (t.Some? ==>
                  t.value > now && (l.cooldown.Some? && l.cooldown.value > now ==> l.cooldown.value <= t.value))
  {
    LatestIsAhead(evidence, now);
  }

  lemma {:induction false} LatestIsAhead(times: seq<int>, now: int)
    ensures LatestAhead(times, now).Some? ==> LatestAhead(times, now).value > now
    ensures forall t :: t in times && t > now ==> LatestAhead(times, now).Some? && t <= LatestAhead(times, now).value
  {
    if times != [] {
      LatestIsAhead(times[..|times| - 1], now);
      assert forall t :: t in times ==> t in times[..|times| - 1] || t == times[|times| - 1];
    }
  }

  predicate Forward(w: World, a: Action) {
    match a
    case EnterGuard(_, now, _, _) => w.clock <= now
    case ReserveOne(_, _, now, _, _, _) => w.clock <= now
    case StopGuard(_, _, now, later, _) => w.clock <= now <= later
    case _ => true
  }

  /** The clock never runs backwards. */
  ghost predicate AllForward(acts: seq<Action>) {
    acts != [] ==> AllForward(acts[..|acts| - 1]) && Forward(Run(acts[..|acts| - 1]), acts[|acts| - 1])
  }

  predicate CoolsUntil(l: Ledger, t: int) {
    l.cooldown.Some? && t <= l.cooldown.value
  }

  predicate Refuses(g: Guard, t: int) {
    g.blocked && Rejection(g.status) && CoolsUntil(g.ledger, t)
  }

  /** A reset that a rejection recorded stands until it has passed: nobody can reserve before it. */
  ghost predicate Barred(w: World) {
    && (forall i :: 0 <= i < |w.barriers| ==>
          var t := w.barriers[i];
          t <= w.clock || (CoolsUntil(w.disk, t) && (w.owner.Some? ==> Refuses(w.owner.value, t))))
    && (w.owner.Some? && Rejection(w.owner.value.status) ==>
          w.owner.value.blocked && w.owner.value.ledger.cooldown.Some?)
  }

  /** How an operation on the guard moves the cooldown. */
  ghost predicate Cools(g: Guard, disk: Ledger, h: Held, now: int) {
    && (h.disk == disk || h.disk == h.guard.ledger || h.disk.cooldown == h.guard.ledger.cooldown)
    && (Rejection(h.guard.status) ==> h.guard.blocked)
    && (Rejection(g.status) ==> h.guard == g && h.disk == disk)
    && (forall t :: t > now && CoolsUntil(g.ledger, t) && !Rejection(h.guard.status) ==> CoolsUntil(h.guard.ledger, t))
    && (Rejection(h.guard.status) ==> h.guard.ledger.cooldown.Some?)
    && (h.answer.Done? ==> !g.blocked && (g.ledger.cooldown.None? || g.ledger.cooldown.value <= now))
  }

  lemma StopCools(disk: Ledger, g: Guard, status: Option<int>, reset: int, save: Save, now: int)
    requires Holds(g) && (Rejection(g.status) ==> g.blocked && g.ledger.cooldown.Some?)
    ensures Cools(g, disk, Stop(disk, g, status, reset, save), now)
  {
  }

  lemma StopWrites(disk: Ledger, g: Guard, status: Option<int>, reset: int, save: Save)
    requires Holds(g)
    ensures var h := Stop(disk, g, status, reset, save);
            h.disk == if Ignored(g, status) || save.Lost? then disk else h.guard.ledger
  {
  }

  lemma ReserveCools(disk: Ledger, g: Guard, tokens: Option<int>, cancelled: bool, now: int,
                     evidence: Option<seq<int>>, cool: Save, save: Save)
    requires Holds(g) && (Rejection(g.status) ==> g.blocked && g.ledger.cooldown.Some?)
    ensures var h := Reserve(disk, g, tokens, cancelled, now, evidence, cool, save);
            Cools(g, disk, h, now) && (Rejection(h.guard.status) ==> h.guard == g)
  {
    hide Horizon, WithinBudget, LedgerOk;
    if evidence.Some? { HorizonIs(g.ledger, now, evidence.value); }
  }

  lemma OwnerStepBarred(w: World, a: Action)
    requires Barred(w) && Enabled(w, a) && Forward(w, a) && (a.ReserveOne? || a.StopGuard?)
    ensures Barred(Next(w, a))
  {
    hide Reserve, Stop, Horizon;
    var g := w.owner.value;
    if a.ReserveOne? {
      ReserveCools(w.disk, g, a.tokens, a.cancelled, a.now, a.evidence, a.cool, a.save);
    } else {
      StopCools(w.disk, g, a.status, Reset(a.retryAt, a.now, a.then_), a.save, a.then_);
      StopWrites(w.disk, g, a.status, Reset(a.retryAt, a.now, a.then_), a.save);
    }
  }

  lemma OtherStepBarred(w: World, a: Action)
    requires Barred(w) && Enabled(w, a) && Forward(w, a) && !a.ReserveOne? && !a.StopGuard?
    ensures Barred(Next(w, a))
  {
    if a.EnterGuard? {
      EnterHolds(w.disk, a.plan, a.now, a.evidence, a.save);
      EnterCools(w.disk, a.plan, a.now, a.evidence, a.save);
      hide Enter;
    }
  }

  lemma EnterCools(disk: Ledger, p: Plan, now: int, evidence: Option<seq<int>>, save: Save)
    ensures var h := Enter(disk, p, now, evidence, save);
            && (forall t :: t > now && CoolsUntil(disk, t) ==> CoolsUntil(h.disk, t))
            && h.guard.status.None?
  {
    if evidence.Some? { HorizonIs(disk, now, evidence.value); }
    hide Horizon;
  }

  lemma {:induction false} RunsBar(acts: seq<Action>)
    requires AllForward(acts)
    ensures Barred(Run(acts))
  {
    hide Barred, Next, Enabled, Forward;
    if acts == [] {
      NothingBarred();
    } else {
      var init, a := acts[..|acts| - 1], acts[|acts| - 1];
      RunsBar(init);
      if Enabled(Run(init), a) {
        if a.ReserveOne? || a.StopGuard? { OwnerStepBarred(Run(init), a); } else { OtherStepBarred(Run(init), a); }
      }
    }
  }

  lemma NothingBarred()
    ensures Barred(EMPTY)
  {
  }

  /** A step that lets traffic out: a reservation, or the admission of a run. */
  ghost predicate Grants(w: World, a: Action) {
    Enabled(w, a) && AnswerOf(w, a).Done? && (a.ReserveOne? || a.EnterGuard?)
  }

  /**
    The cooldown barrier: once a 401, 403 or 429 stop has durably recorded a reset, no run over the
    ledger is admitted and no reservation is made before it, across processes and crashes.
   */
  lemma CooldownBarrier(acts: seq<Action>, a: Action, t: int)
    requires AllForward(acts) && Forward(Run(acts), a) && Grants(Run(acts), a) && t in Run(acts).barriers
    ensures t <= a.now
  {
    hide Run, Enter, Reserve;
    var w := Run(acts);
    RunsBar(acts);
    if a.EnterGuard? {
      EnterHolds(w.disk, a.plan, a.now, a.evidence, a.save);
    } else {
      ReserveCools(w.disk, w.owner.value, a.tokens, a.cancelled, a.now, a.evidence, a.cool, a.save);
    }
  }

  // ---- where a recorded cooldown can be shortened ----

  /** Every cooldown that ever reached the disk, whoever recorded it, still stands or has passed. */
  ghost predicate Protected(w: World) {
    forall i :: 0 <= i < |w.recorded| ==>
      var t := w.recorded[i];
      t <= w.clock || (CoolsUntil(w.disk, t) && (w.owner.Some? ==> CoolsUntil(w.owner.value.ledger, t)))
  }

  /** A rejection whose reset is earlier than a recorded cooldown that is still ahead. */
  ghost predicate Shortens(w: World, a: Action) {
    && a.StopGuard? && w.owner.Some? && !Ignored(w.owner.value, a.status) && Rejection(a.status)
    && exists i :: 0 <= i < |w.recorded| && a.then_ < w.recorded[i] && Reset(a.retryAt, a.now, a.then_) < w.recorded[i]
  }

  /** How Reserve, and a Stop that is no effective rejection, move the cooldowns: only up, or past. */
  ghost predicate OnlyUp(disk: Ledger, g: Guard, h: Held, now: int) {
    && (h.disk == disk || h.disk.cooldown == h.guard.ledger.cooldown)
    && (forall t :: t > now && CoolsUntil(g.ledger, t) ==> CoolsUntil(h.guard.ledger, t))
    && (h.disk != disk && h.disk.cooldown.Some? ==> CoolsUntil(h.guard.ledger, h.disk.cooldown.value))
  }

  lemma ReserveOnlyUp(disk: Ledger, g: Guard, tokens: Option<int>, cancelled: bool, now: int,
                      evidence: Option<seq<int>>, cool: Save, save: Save)
    requires Holds(g)
    ensures OnlyUp(disk, g, Reserve(disk, g, tokens, cancelled, now, evidence, cool, save), now)
  {
    hide Horizon, WithinBudget, LedgerOk;
    if evidence.Some? { HorizonIs(g.ledger, now, evidence.value); }
  }

  /**
    Exactly when recorded cooldowns stop being safe: at a rejection that arrives at a guard blocked
    for another reason, or blocked by nothing, with a reset before a recorded one still ahead.
   */
  lemma ShorteningIsExact(w: World, a: Action)
    requires Protected(w) && Enabled(w, a) && Forward(w, a)
    ensures Protected(Next(w, a)) <==> !Shortens(w, a)
  {
    hide Reserve, Horizon, Enter;
    if a.ReserveOne? {
      ReserveOnlyUp(w.disk, w.owner.value, a.tokens, a.cancelled, a.now, a.evidence, a.cool, a.save);
    } else if a.EnterGuard? {
      EnterHolds(w.disk, a.plan, a.now, a.evidence, a.save);
      EnterCools(w.disk, a.plan, a.now, a.evidence, a.save);
    } else if a.StopGuard? {
      StopShortens(w, a);
    }
  }

  lemma StopShortens(w: World, a: Action)
    requires Protected(w) && Enabled(w, a) && Forward(w, a) && a.StopGuard?
    ensures Protected(Next(w, a)) <==> !Shortens(w, a)
  {
    var w' := Next(w, a);
    if Shortens(w, a) {
      var i :| 0 <= i < |w.recorded| && a.then_ < w.recorded[i] && Reset(a.retryAt, a.now, a.then_) < w.recorded[i];
      assert w'.recorded[i] == w.recorded[i];
    }
  }

  ghost predicate NeverShortens(acts: seq<Action>) {
    acts != [] ==>
      NeverShortens(acts[..|acts| - 1])
      && (Enabled(Run(acts[..|acts| - 1]), acts[|acts| - 1]) ==> !Shortens(Run(acts[..|acts| - 1]), acts[|acts| - 1]))
  }

  lemma {:induction false} RunsProtect(acts: seq<Action>)
    requires AllForward(acts) && NeverShortens(acts)
    ensures Protected(Run(acts))
  {
    hide Next, Enabled, Forward, Shortens, Protected;
    if acts == [] {
      assert Protected(EMPTY) by { NothingProtected(); }
    } else {
      RunsProtect(acts[..|acts| - 1]);
      if Enabled(Run(acts[..|acts| - 1]), acts[|acts| - 1]) {
        ShorteningIsExact(Run(acts[..|acts| - 1]), acts[|acts| - 1]);
      }
    }
  }

  lemma NothingProtected()
    ensures Protected(EMPTY)
  {
  }

  /** Without such a rejection every recorded cooldown is a barrier, also one taken from other files. */
  lemma RecordedBarrier(acts: seq<Action>, a: Action, t: int)
    requires AllForward(acts) && NeverShortens(acts)
    requires Forward(Run(acts), a) && Grants(Run(acts), a) && t in Run(acts).recorded
    ensures t <= a.now
  {
    hide Run, Enter, Reserve, NeverShortens, AllForward;
    var w := Run(acts);
    RunsProtect(acts);
    if a.EnterGuard? {
      EnterHolds(w.disk, a.plan, a.now, a.evidence, a.save);
    } else {
      ReserveAhead(w.disk, w.owner.value, a.tokens, a.cancelled, a.now, a.evidence, a.cool, a.save);
    }
  }

  lemma ReserveAhead(disk: Ledger, g: Guard, tokens: Option<int>, cancelled: bool, now: int,
                     evidence: Option<seq<int>>, cool: Save, save: Save)
    requires Holds(g) && Reserve(disk, g, tokens, cancelled, now, evidence, cool, save).answer.Done?
    ensures g.ledger.cooldown.None? || g.ledger.cooldown.value <= now
  {
    hide Horizon, WithinBudget;
    if evidence.Some? { HorizonIs(g.ledger, now, evidence.value); }
  }

  // ---- a run in which a recorded cooldown is shortened ----

  const FIRST: Plan := Plan("a", 2, 100, None)
  const SECOND: Plan := Plan("b", 2, 100, None)

  const ENTER_FIRST: Action := EnterGuard(FIRST, 1, Some([]), Saved)
  const FIRST_REQUEST: Action := ReserveOne(Some(10), false, 2, Some([]), Saved, Saved)
  const FIND_COOLDOWN: Action := ReserveOne(Some(10), false, 3, Some([1000]), Saved, Saved)
  const REJECTED: Action := StopGuard(Some(429), Some(10), 4, 4, Saved)
  const ENTER_SECOND: Action := EnterGuard(SECOND, 20, Some([]), Saved)

  function FirstLedger(e: Entry, cooldown: Option<int>): Ledger {
    Ledger(map["a" := e], map[], cooldown)
  }

  const ENTERED: World :=
    var l := FirstLedger(EntryOf(FIRST), None);
    World(l, Some(Guard(FIRST, l, false, None, 0, 0)), 0, map[], ["a"], [], [], 1)

  const USED: Entry := EntryOf(FIRST).(requests := 1, tokens := 10)

  const RESERVED: World :=
    var l := FirstLedger(USED, None);
    World(l, Some(Guard(FIRST, l, false, None, 1, 10)), 1, map[], ["a"], [], [], 2)

  const COOLING: World :=
    var l := FirstLedger(USED.(status := Blocked), Some(1000));
    World(l, Some(Guard(FIRST, l, true, None, 1, 10)), 1, map[], ["a"], [1000], [], 3)

  const SHORTENED: World :=
    var l := FirstLedger(USED.(status := Blocked, upstream := Some(429)), Some(10));
    World(l, Some(Guard(FIRST, l, true, Some(429), 1, 10)), 1, map[], ["a"], [1000, 10], [10], 4)

  lemma EntersFirst()
    ensures Enabled(EMPTY, ENTER_FIRST) && Next(EMPTY, ENTER_FIRST) == ENTERED
  {
    assert ValidPlan(FIRST);
    assert Horizon(NO_RUNS, 1, []) == None;
    hide Horizon, ValidPlan;
    assert NO_RUNS.runs["a" := EntryOf(FIRST)] == map["a" := EntryOf(FIRST)];
  }

  lemma MakesRequest()
    ensures Enabled(ENTERED, FIRST_REQUEST) && Next(ENTERED, FIRST_REQUEST) == RESERVED
  {
    assert Horizon(ENTERED.disk, 2, []) == None;
    assert WithinBudget(ENTERED.owner.value, Some(10));
    hide Horizon, WithinBudget;
    assert map["a" := EntryOf(FIRST)]["a" := USED] == map["a" := USED];
  }

  lemma FindsCooldown()
    ensures Enabled(RESERVED, FIND_COOLDOWN) && Next(RESERVED, FIND_COOLDOWN) == COOLING
  {
    assert LatestAhead([1000], 3) == Some(1000) by { assert [1000][..0] == []; }
    assert Horizon(RESERVED.disk, 3, [1000]) == Some(1000);
    hide Horizon, LatestAhead, WithinBudget;
    assert map["a" := USED]["a" := USED.(status := Blocked)] == map["a" := USED.(status := Blocked)];
  }

  lemma IsRejected()
    ensures Enabled(COOLING, REJECTED) && Next(COOLING, REJECTED) == SHORTENED
  {
    var e := USED.(status := Blocked);
    assert map["a" := e]["a" := e.(upstream := Some(429))] == map["a" := e.(upstream := Some(429))];
  }

  lemma EntersSecond()
    ensures Grants(SHORTENED.(owner := None, tickets := 0), ENTER_SECOND)
  {
    assert ValidPlan(SECOND);
    assert Horizon(SHORTENED.disk, 20, []) == None;
    hide Horizon, ValidPlan;
    assert "b" !in SHORTENED.disk.runs;
  }

  /**
    With one it is not: a probe finds a cooldown in another file and records it; a rejection of a
    request already in flight replaces it by an earlier reset; the next probe is let through.
   */
  lemma CooldownCanShrink()
    ensures exists acts: seq<Action>, a: Action, t: int ::
              AllForward(acts) && Forward(Run(acts), a) && Grants(Run(acts), a) && t in Run(acts).recorded && a.now < t
  {
    EmptyRun();
    EntersFirst();
    MakesRequest();
    FindsCooldown();
    IsRejected();
    EntersSecond();
    hide Run, AllForward, Grants, Reserve, Stop, Enter;
    var none: seq<Action> := [];
    var a1 := Extended(none, ENTER_FIRST);
    var a2 := Extended(a1, FIRST_REQUEST);
    var a3 := Extended(a2, FIND_COOLDOWN);
    var a4 := Extended(a3, REJECTED);
    var a5 := Extended(a4, Crash);
    assert Run(a5) == SHORTENED.(owner := None, tickets := 0);
    var t := Run(a5).recorded[0];
    assert t == 1000 && t in Run(a5).recorded && ENTER_SECOND.now < t;
    assert AllForward(a5) && Forward(Run(a5), ENTER_SECOND) && Grants(Run(a5), ENTER_SECOND);
  }

  lemma EmptyRun()
    ensures Run([]) == EMPTY && AllForward([])
  {
  }

  ghost function Extended(acts: seq<Action>, a: Action): (all: seq<Action>)
    requires AllForward(acts) && Forward(Run(acts), a)
    ensures AllForward(all)
    ensures Run(all) == if Enabled(Run(acts), a) then Next(Run(acts), a) else Run(acts)
  {
    RunMore(acts, a);
    assert (acts + [a])[..|acts|] == acts;
    acts + [a]
  }

  /**
    A rejection is recorded even when it arrives after an ordinary block: its reset is then on disk,
    among the barriers, and the guard is stopped for good.  Only the first one is.
   */
  lemma RejectionIsRecorded(w: World, a: Action)
    requires Enabled(w, a) && a.StopGuard? && Rejection(a.status)
    requires !Rejection(w.owner.value.status) || !w.owner.value.blocked
    ensures var w' := Next(w, a);
            var reset := Reset(a.retryAt, a.now, a.then_);
            && w'.owner.Some? && w'.owner.value.blocked && w'.owner.value.status == a.status
            && w'.owner.value.ledger.cooldown == Some(reset)
            && w'.owner.value.ledger.runs[w.owner.value.plan.run].upstream == a.status
            && (a.save != Lost ==> w'.disk == w'.owner.value.ledger && reset in w'.barriers)
            && (a.save == Lost ==> w'.disk == w.disk)
  {
    var w' := Next(w, a);
    if a.save != Lost {
      assert w'.barriers[|w'.barriers| - 1] == Reset(a.retryAt, a.now, a.then_);
    }
  }

  lemma {:induction false} BarriersStay(acts: seq<Action>, more: seq<Action>, t: int)
    requires t in Run(acts).barriers
    ensures t in Run(acts + more).barriers
  {
    hide Enabled, Reserve, Enter, Stop, Exit;
    if more == [] {
      assert acts + more == acts;
    } else {
      var init, last := more[..|more| - 1], more[|more| - 1];
      BarriersStay(acts, init, t);
      assert acts + more == (acts + init) + [last];
      RunMore(acts + init, last);
    }
  }
}
