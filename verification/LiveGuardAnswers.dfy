/**
  What the operations of a guard answer and leave behind, said without the functions they are built
  from: exactly when a probe is admitted and a reservation granted, and what a stop records.
 */
module LiveGuardAnswers {
  import opened Prelude
  import opened LiveGuard
  import opened LiveGuardRuns
  import opened LiveGuardBarrier

  // ---- cooldowns ----

  /** A reset in the ledger or in the other evidence is still ahead. */
  ghost predicate ResetAhead(l: Ledger, evidence: seq<int>, now: int) {
    (l.cooldown.Some? && l.cooldown.value > now) || exists t :: t in evidence && t > now
  }

  /** The latest of them. */
  ghost predicate IsLatest(t: int, l: Ledger, evidence: seq<int>, now: int) {
    && t > now && (l.cooldown == Some(t) || t in evidence)
    && (l.cooldown.Some? && l.cooldown.value > now ==> l.cooldown.value <= t)
    && (forall u :: u in evidence && u > now ==> u <= t)
  }

  lemma {:induction false} LatestIsThere(times: seq<int>, now: int)
    ensures LatestAhead(times, now).Some? ==> LatestAhead(times, now).value in times
  {
    if times != [] {
      LatestIsThere(times[..|times| - 1], now);
      assert forall t :: t in times[..|times| - 1] ==> t in times;
    }
  }

  lemma HorizonIsLatest(l: Ledger, now: int, evidence: seq<int>)
    ensures Horizon(l, now, evidence).Some? <==> ResetAhead(l, evidence, now)
    ensures Horizon(l, now, evidence).Some? ==> IsLatest(Horizon(l, now, evidence).value, l, evidence, now)
  {
    LatestIsAhead(evidence, now);
    LatestIsThere(evidence, now);
  }

  // ---- admission ----

  /** Letters, digits, dot, underscore and hyphen only, at most eighty. */
  predicate IdText(s: string) {
    && 1 <= |s| <= 80
    && forall i :: 0 <= i < |s| ==>
         'A' <= s[i] <= 'Z' || 'a' <= s[i] <= 'z' || '0' <= s[i] <= '9' || s[i] == '.' || s[i] == '_' || s[i] == '-'
  }

  lemma IdTextIs(s: string)
    ensures ValidWindowId(s) <==> IdText(s)
    ensures ValidRun(s) <==> IdText(s) && s[0] != '.' && s[0] != '_' && s[0] != '-'
  {
    assert forall i :: 0 <= i < |s| ==> s[i] in s;
  }

  /** Exactly which guards can be constructed. */
  lemma PlanAnswers(p: Plan)
    ensures ValidPlan(p)
            <==> && IdText(p.run) && p.run[0] != '.' && p.run[0] != '_' && p.run[0] != '-'
                 && 1 <= p.requests <= 40 && 1 <= p.tokens <= 220_000
  {
    hide ValidRun, IdText;
    IdTextIs(p.run);
  }

  /** A window that may be used: well formed, within the bounds, and listing this run. */
  predicate WindowSelected(w: Window, run: string) {
    && w.Window? && IdText(w.id)
    && 1 <= w.requestBudget <= 40 && 1 <= w.outputBudget <= 220_000
    && run in w.allowed
  }

  lemma SelectableIs(w: Window, run: string)
    ensures Selectable(w, run) <==> WindowSelected(w, run)
  {
    if w.Window? { IdTextIs(w.id); }
  }

  /**
    Exactly when a probe is admitted: evidence readable, no reset ahead, its window selected and
    unchanged, its run id never used, and its entry durably recorded.  And the ledger it leaves.
   */
  lemma EnterAnswers(disk: Ledger, p: Plan, now: int, evidence: Option<seq<int>>, save: Save)
    ensures var h := Enter(disk, p, now, evidence, save);
            && (h.answer.Done?
                <==> && evidence.Some? && !ResetAhead(disk, evidence.value, now)
                     && (p.window.Some? ==>
                           && WindowSelected(p.window.value, p.run)
                           && (p.window.value.id in disk.windows ==> disk.windows[p.window.value.id] == p.window.value))
                     && p.run !in disk.runs && save.Saved?)
            && (h.answer.Done? ==>
                  var id := if p.window.Some? then Some(p.window.value.id) else None;
                  && h.disk.runs == disk.runs[p.run := Entry(InProgress, 0, 0, p.requests, p.tokens, id, None)]
                  && h.disk.windows == (if p.window.Some? then disk.windows[p.window.value.id := p.window.value]
                                        else disk.windows)
                  && h.disk.cooldown == disk.cooldown && h.guard == Guard(p, h.disk, false, None, 0, 0))
            && (evidence.Some? && ResetAhead(disk, evidence.value, now) ==>
                  && h.disk.runs == disk.runs && h.disk.windows == disk.windows
                  && if save.Lost? then h.disk.cooldown == disk.cooldown
                     else h.disk.cooldown.Some? && IsLatest(h.disk.cooldown.value, disk, evidence.value, now))
            && (h.answer.Refused?
                <==> evidence.Some?
                     && if ResetAhead(disk, evidence.value, now) then save.Saved?
                        else p.run in disk.runs
                             || (p.window.Some? && !(WindowSelected(p.window.value, p.run)
                                                     && (p.window.value.id in disk.windows ==>
                                                           disk.windows[p.window.value.id] == p.window.value))))
            && (save.Lost? || evidence.None? || (h.answer.Refused? && !ResetAhead(disk, evidence.value, now)) ==>
                  h.disk == disk)
  {
    hide Horizon, Selectable, WindowSelected, ResetAhead, IsLatest;
    if evidence.Some? { HorizonIsLatest(disk, now, evidence.value); }
    if p.window.Some? {
      SelectableIs(p.window.value, p.run);
      if WindowSelected(p.window.value, p.run) { SelectedIsWindow(p.window.value, p.run); }
    }
  }

  lemma SelectedIsWindow(w: Window, run: string)
    requires WindowSelected(w, run)
    ensures w.Window?
  {
  }

  // ---- reservations ----

  /** What is left of a window before this reservation. */
  ghost predicate WindowHasRoom(l: Ledger, w: Window, tokens: int)
    requires w.Window?
  {
    && Total(map run | run in l.runs && l.runs[run].window == Some(w.id) :: l.runs[run].requests) < w.requestBudget
    && Total(map run | run in l.runs && l.runs[run].window == Some(w.id) :: l.runs[run].tokens) + tokens
       <= w.outputBudget
  }

  lemma WindowRoomIs(l: Ledger, w: Window, tokens: int)
    requires w.Window?
    ensures WindowHasRoom(l, w, tokens)
            <==> Total(RequestsOf(l, w.id)) < w.requestBudget && Total(TokensOf(l, w.id)) + tokens <= w.outputBudget
  {
    assert RequestsOf(l, w.id)
           == map run | run in l.runs && l.runs[run].window == Some(w.id) :: l.runs[run].requests;
    assert TokensOf(l, w.id) == map run | run in l.runs && l.runs[run].window == Some(w.id) :: l.runs[run].tokens;
  }

  /** The probe has requests and tokens left for one more, and so has its window. */
  ghost predicate HasRoom(g: Guard, tokens: Option<int>) {
    && tokens.Some? && 1 <= tokens.value <= 8192
    && g.count < g.plan.requests && g.output + tokens.value <= g.plan.tokens
    && (g.plan.window.Some? && g.plan.window.value.Window? ==>
          WindowHasRoom(g.ledger, g.plan.window.value, tokens.value))
  }

  lemma RoomIs(g: Guard, tokens: Option<int>)
    ensures WithinBudget(g, tokens) <==> HasRoom(g, tokens)
  {
    hide WindowHasRoom, RequestsOf, TokensOf, Total;
    if tokens.Some? && g.plan.window.Some? && g.plan.window.value.Window? {
      WindowRoomIs(g.ledger, g.plan.window.value, tokens.value);
    }
  }

  /**
    Exactly when a reservation is granted, and what it records: one request and its tokens more, for
    this run and nobody else, durably.  One that is refused for want of room, for a reset ahead or
    for a client gone blocks the guard and records no request.
   */
  lemma ReserveAnswers(disk: Ledger, g: Guard, tokens: Option<int>, cancelled: bool, now: int,
                       evidence: Option<seq<int>>, cool: Save, save: Save)
    requires Holds(g)
    ensures var h := Reserve(disk, g, tokens, cancelled, now, evidence, cool, save);
            var open := !cancelled && !g.blocked && evidence.Some?;
            var ahead := open && ResetAhead(g.ledger, evidence.value, now);
            var room, e := open && !ahead && HasRoom(g, tokens), g.ledger.runs[g.plan.run];
            && (h.answer.Done? <==> room && save.Saved?)
            && (room ==>
                  && (!h.answer.Done? ==> h.answer.Broke?)
                  && h.guard.count == g.count + 1 && h.guard.output == g.output + tokens.value && !h.guard.blocked
                  && h.disk == (if save.Lost? then disk else h.guard.ledger)
                  && h.guard.ledger.runs
                     == g.ledger.runs[g.plan.run := Entry(e.status, g.count + 1, g.output + tokens.value,
                                                          e.requestBudget, e.outputBudget, e.window, e.upstream)]
                  && h.guard.ledger.windows == g.ledger.windows && h.guard.ledger.cooldown == g.ledger.cooldown)
            && (!cancelled && !g.blocked && evidence.None? ==> h == Held(g, disk, Broke))
            && (g.blocked ==> h == Held(g, disk, Refused))
            && (ahead && !cool.Saved? ==>
                  && h.answer.Broke? && !h.guard.blocked && h.guard.ledger.runs == g.ledger.runs
                  && h.disk == (if cool.Lost? then disk else h.guard.ledger))
            && (!g.blocked && (cancelled || (ahead && cool.Saved?) || (open && !ahead && !room)) ==>
                  && h.guard.blocked && h.guard.count == g.count && h.guard.output == g.output
                  && h.answer == (if save.Saved? then Refused else Broke)
                  && h.guard.ledger.runs
                     == g.ledger.runs[g.plan.run := Entry(Blocked, e.requests, e.tokens, e.requestBudget,
                                                          e.outputBudget, e.window, e.upstream)]
                  && (!save.Lost? ==> h.disk == h.guard.ledger)
                  && (save.Lost? && !ahead ==> h.disk == disk)
                  && (!ahead ==> h.guard.ledger.cooldown == g.ledger.cooldown))
            && (ahead ==>
                  && h.guard.ledger.windows == g.ledger.windows && h.guard.ledger.cooldown.Some?
                  && IsLatest(h.guard.ledger.cooldown.value, g.ledger, evidence.value, now)
                  && (cool.Saved? ==> h.disk.cooldown == h.guard.ledger.cooldown))
  {
    hide Horizon, WithinBudget, HasRoom, ResetAhead, IsLatest;
    if evidence.Some? { HorizonIsLatest(g.ledger, now, evidence.value); }
    RoomIs(g, tokens);
    RoomHasTokens(g, tokens);
  }

  lemma RoomHasTokens(g: Guard, tokens: Option<int>)
    ensures HasRoom(g, tokens) ==> tokens.Some?
  {
  }

  // ---- stops ----

  predicate Rejects(status: Option<int>) {
    status == Some(401) || status == Some(403) || status == Some(429)
  }

  /**
    What a stop leaves, exactly.  On a guard that is blocked already only the first rejection counts;
    it records the provider's reset if that is ahead, and a day from then if not.
   */
  lemma StopAnswers(disk: Ledger, g: Guard, status: Option<int>, retryAt: Option<int>, now: int, later: int, save: Save)
    requires Holds(g)
    ensures var h := Stop(disk, g, status, Reset(retryAt, now, later), save);
            if g.blocked && (!Rejects(status) || Rejects(g.status)) then
              h == Held(g, disk, Refused)
            else
              var e := g.ledger.runs[g.plan.run];
              var reset := if retryAt.Some? && retryAt.value > now then retryAt.value else later + 86_400_000_000;
              && h.guard.blocked && h.guard.status == status && h.guard.count == g.count && h.guard.output == g.output
              && h.guard.ledger.runs
                 == g.ledger.runs[g.plan.run := Entry(Blocked, e.requests, e.tokens, e.requestBudget, e.outputBudget,
                                                      e.window, if status.Some? then status else e.upstream)]
              && h.guard.ledger.windows == g.ledger.windows
              && h.guard.ledger.cooldown == (if Rejects(status) then Some(reset) else g.ledger.cooldown)
              && h.disk == (if save.Lost? then disk else h.guard.ledger)
              && h.answer == (if save.Saved? then Refused else Broke)
  {
  }

  /** What an exit leaves: the final status of the run, and nothing else changed. */
  lemma ExitAnswers(disk: Ledger, g: Guard, raised: bool, save: Save)
    requires Holds(g)
    ensures var l, e := Exit(disk, g, raised, save), g.ledger.runs[g.plan.run];
            var status := if g.blocked then Blocked else if raised then Interrupted else Finished;
            if save.Lost? then l == disk
            else
              && l.windows == g.ledger.windows && l.cooldown == g.ledger.cooldown
              && l.runs == g.ledger.runs[g.plan.run := Entry(status, e.requests, e.tokens, e.requestBudget,
                                                             e.outputBudget, e.window, e.upstream)]
  {
  }

  // ---- the barrier of a rejection ----

  /**
    A rejection is a barrier even when it reaches a guard already stopped by an ordinary block.  If
    its save is not lost, the provider's reset is on disk, or a day from then when there is none
    ahead; and whatever happens afterwards, in this process or a later one, nothing is granted before.
   */
  lemma RejectionBars(acts: seq<Action>, stop: Action, more: seq<Action>, a: Action)
    requires stop.StopGuard? && stop.status in {Some(401), Some(403), Some(429)}
    requires stop.save != Lost && Enabled(Run(acts), stop)
    requires var g := Run(acts).owner.value; g.blocked ==> g.status !in {Some(401), Some(403), Some(429)}
    requires var all := acts + [stop] + more; AllForward(all) && Forward(Run(all), a) && Grants(Run(all), a)
    ensures var reset := if stop.retryAt.Some? && stop.retryAt.value > stop.now then stop.retryAt.value
                         else stop.then_ + 86_400_000_000;
            Run(acts + [stop]).disk.cooldown == Some(reset) && reset <= a.now
  {
    hide Run, AllForward, Grants, Next, Enabled, Forward;
    RunMore(acts, stop);
    RejectionIsRecorded(Run(acts), stop);
    var t := Reset(stop.retryAt, stop.now, stop.then_);
    BarriersStay(acts + [stop], more, t);
    CooldownBarrier(acts + [stop] + more, a, t);
  }
}
