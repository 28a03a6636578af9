/** LiveGuard of native/opencode/live_safety.py as the source writes it: fields updated in place and a ledger file. */
module LiveGuards {
  import opened Prelude
  import LG = LiveGuard

  /** live-probe-ledger.json: an atomic replace that is done, not done, or done without the final sync. */
  class LedgerFile {
    var ledger: LG.Ledger

    constructor ()
      ensures ledger == LG.NO_RUNS
    {
      ledger := LG.NO_RUNS;
    }

    method Replace(with: LG.Ledger, save: LG.Save) returns (ok: bool)
      modifies this
      ensures ledger == LG.SaveTo(old(ledger), with, save) && ok == save.Saved?
    {
      if !save.Lost? { ledger := with; }
      ok := save.Saved?;
    }
  }

  /** sum(...) over a dictionary, in whatever order it yields its items. */
  method Sum(m: map<string, int>) returns (total: int)
    ensures total == LG.Total(m)
  {
    total := 0;
    var rest := m;
    while rest != map[]
      invariant total + LG.Total(rest) == LG.Total(m)
      decreases |rest|
    {
      var k :| k in rest;
      LG.TotalWithout(rest, k);
      total := total + rest[k];
      rest := rest - {k};
    }
  }

  /** max(future) over the recorded reset times. */
  method LatestAhead(times: seq<int>, now: int) returns (t: Option<int>)
    ensures t == LG.LatestAhead(times, now)
  {
    t := None;
    for i := 0 to |times|
      invariant t == LG.LatestAhead(times[..i], now)
    {
      assert times[..i + 1][..i] == times[..i];
      if times[i] > now && (t.None? || t.value < times[i]) { t := Some(times[i]); }
    }
    assert times[..|times|] == times;
  }

  class LiveGuard {
    const plan: LG.Plan
    const file: LedgerFile
    var ledger: LG.Ledger
    var blocked: bool
    var status: Option<int>
    var count: int
    var output: int

    ghost function State(): LG.Guard
      reads this
    {
      LG.Guard(plan, ledger, blocked, status, count, output)
    }

    constructor Make(plan: LG.Plan, file: LedgerFile)
      ensures this.plan == plan && this.file == file
      ensures !blocked && status == None && count == 0 && output == 0
    {
      this.plan, this.file := plan, file;
      ledger, blocked, status, count, output := LG.NO_RUNS, false, None, 0, 0;
    }

    /** __init__: a guard only for a valid run id and budget. */
    static method New(plan: LG.Plan, file: LedgerFile) returns (g: LiveGuard?)
      ensures g == null <==> !LG.ValidPlan(plan)
      ensures g != null ==>
                && fresh(g) && g.plan == plan && g.file == file
                && !g.blocked && g.status == None && g.count == 0 && g.output == 0
    {
      if !LG.ValidPlan(plan) { return null; }
      g := new LiveGuard.Make(plan, file);
    }

    method Save(save: LG.Save) returns (ok: bool)
      modifies file
      ensures file.ledger == LG.SaveTo(old(file.ledger), ledger, save) && ok == save.Saved?
    {
      ok := file.Replace(ledger, save);
    }

    /** recorded_cooldowns, and the cooldown_until the caller derives from it. */
    method Horizon(now: int, evidence: seq<int>) returns (t: Option<int>)
      ensures t == LG.Horizon(ledger, now, evidence)
    {
      t := LatestAhead(evidence, now);
      if ledger.cooldown.Some? && ledger.cooldown.value > now && (t.None? || t.value <= ledger.cooldown.value) {
        t := ledger.cooldown;
      }
    }

    method Enter(now: int, evidence: Option<seq<int>>, save: LG.Save) returns (answer: LG.Answer)
      requires !blocked && status == None && count == 0 && output == 0
      modifies this, file
      ensures var h := LG.Enter(old(file.ledger), plan, now, evidence, save);
              && file.ledger == h.disk && answer == h.answer
              && (answer.Done? ==> State() == h.guard)
    {
      hide LG.Horizon;
      ledger := file.ledger;
      if evidence.None? { return LG.Broke; }
      var ahead := Horizon(now, evidence.value);
      if ahead.Some? {
        ledger := ledger.(cooldown := ahead);
        var ok := Save(save);
        return if ok then LG.Refused else LG.Broke;
      }
      if plan.window.Some? {
        var window := plan.window.value;
        if !LG.Selectable(window, plan.run) { return LG.Refused; }
        if window.id in ledger.windows && ledger.windows[window.id] != window { return LG.Refused; }
        ledger := ledger.(windows := ledger.windows[window.id := window]);
      }
      if plan.run in ledger.runs { return LG.Refused; }
      ledger := ledger.(runs := ledger.runs[plan.run := LG.EntryOf(plan)]);
      var ok := Save(save);
      answer := if ok then LG.Done else LG.Broke;
    }

    method Stop(given: Option<int>, retryAt: Option<int>, now: int, later: int, save: LG.Save)
      returns (answer: LG.Answer)
      requires LG.Holds(State())
      modifies this`blocked, this`status, this`ledger, file
      ensures var h := LG.Stop(old(file.ledger), old(State()), given, LG.Reset(retryAt, now, later), save);
              file.ledger == h.disk && answer == h.answer && State() == h.guard
    {
      if blocked && (!LG.Rejection(given) || LG.Rejection(status)) { return LG.Refused; }
      blocked, status := true, given;
      var entry := ledger.runs[plan.run].(status := LG.Blocked);
      if given.Some? { entry := entry.(upstream := given); }
      ledger := ledger.(runs := ledger.runs[plan.run := entry]);
      if LG.Rejection(given) {
        var reset := if retryAt.Some? then retryAt.value else now;
        if reset <= now { reset := later + LG.DAY; }
        ledger := ledger.(cooldown := Some(reset));
      }
      var ok := Save(save);
      answer := if ok then LG.Refused else LG.Broke;
    }

    method Reserve(tokens: Option<int>, cancelled: bool, now: int, evidence: Option<seq<int>>,
                   cool: LG.Save, save: LG.Save)
      returns (answer: LG.Answer)
      requires LG.Holds(State())
      modifies this, file
      ensures var h := LG.Reserve(old(file.ledger), old(State()), tokens, cancelled, now, evidence, cool, save);
              file.ledger == h.disk && answer == h.answer && State() == h.guard
    {
      hide LG.Horizon, LG.Total, LG.Stop, LG.RequestsOf, LG.TokensOf;
      if cancelled {
        answer := StopPlain(save);
        return;
      }
      if blocked { return LG.Refused; }
      if evidence.None? { return LG.Broke; }
      var ahead := Horizon(now, evidence.value);
      if ahead.Some? {
        ledger := ledger.(cooldown := ahead);
        var ok := Save(cool);
        if !ok { return LG.Broke; }
        answer := StopPlain(save);
        return;
      }
      var room := tokens.Some? && 1 <= tokens.value <= LG.MAX_RESERVATION
                  && count < plan.requests && output + tokens.value <= plan.tokens;
      if room && plan.window.Some? && plan.window.value.Window? {
        var w := plan.window.value;
        var requests := Sum(LG.RequestsOf(ledger, w.id));
        var reserved := Sum(LG.TokensOf(ledger, w.id));
        room := requests < w.requestBudget && reserved + tokens.value <= w.outputBudget;
      }
      assert room == LG.WithinBudget(State(), tokens);
      if !room {
        answer := StopPlain(save);
        return;
      }
      count, output := count + 1, output + tokens.value;
      ledger := ledger.(runs := ledger.runs[plan.run := ledger.runs[plan.run].(requests := count, tokens := output)]);
      var ok := Save(save);
      answer := if ok then LG.Done else LG.Broke;
    }

    /** stop with a reason only. */
    method StopPlain(save: LG.Save) returns (answer: LG.Answer)
      requires LG.Holds(State())
      modifies this`blocked, this`status, this`ledger, file
      ensures var h := LG.Stop(old(file.ledger), old(State()), None, 0, save);
              file.ledger == h.disk && answer == h.answer && State() == h.guard
    {
      answer := Stop(None, None, 0, 0, save);
    }

    method Exit(raised: bool, save: LG.Save) returns (ok: bool)
      requires LG.Holds(State())
      modifies this`ledger, file
      ensures file.ledger == LG.Exit(old(file.ledger), old(State()), raised, save) && ok == save.Saved?
    {
      var status := if blocked then LG.Blocked else if raised then LG.Interrupted else LG.Finished;
      ledger := ledger.(runs := ledger.runs[plan.run := ledger.runs[plan.run].(status := status)]);
      ok := Save(save);
    }
  }
}
