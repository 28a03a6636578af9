/** The progress half of Shutdown in plugins/opencode/handler.go: a requested drain cannot get stuck. */
module HandlerProgress {
  import opened Registry
  import opened RegistryInvariant
  import opened Handler

  /** A step of somebody already there: no new caller, and no operation beside the calls. */
  predicate Inner(act: Action) {
    !act.Arrive? && !act.Shutdown? && !act.Configure? && !act.Operate?
  }

  /** How many steps an agent has left, at most; a stream counts the pump it will start. */
  function StepsLeft(a: Agent): nat {
    match a
    case Arriving => 16
    case WantsRead => 15
    case Entered => 14
    case Admitted => 13
    case Dispatching(_) => 12
    case Opened(_) => 11
    case Leaving => 1
    case Relaying(_) => 9
    case Released => 8
    case Deciding(_) => 7
    case Stopping => 7
    case WantsLock(job) => if job == Drain then 6 else 5
    case Locked(job) => if job == Drain then 5 else 4
    case Draining => 4
    case Closing => 3
    case Completing => 2
    case Attaching => 3
    case Swapping => 2
    case Unlocking => 1
    case Gone => 0
  }

  ghost function Rank(agents: map<nat, Agent>): nat {
    if agents == map[] then 0 else var i :| i in agents; StepsLeft(agents[i]) + Rank(agents - {i})
  }

  lemma {:induction false} RankWithout(agents: map<nat, Agent>, i: nat)
    requires i in agents
    ensures Rank(agents) == StepsLeft(agents[i]) + Rank(agents - {i})
    decreases |agents|
  {
    var c :| c in agents && Rank(agents) == StepsLeft(agents[c]) + Rank(agents - {c});
    if c != i {
      RankWithout(agents - {c}, i);
      RankWithout(agents - {i}, c);
      assert agents - {c} - {i} == agents - {i} - {c};
    }
  }

  lemma RankPut(agents: map<nat, Agent>, i: nat, a: Agent)
    ensures Rank(agents[i := a]) == Rank(agents) + StepsLeft(a) - (if i in agents then StepsLeft(agents[i]) else 0)
  {
    hide StepsLeft;
    RankWithout(agents[i := a], i);
    assert agents[i := a] - {i} == agents - {i};
    if i in agents {
      RankWithout(agents, i);
    } else {
      assert agents - {i} == agents;
    }
  }

  lemma {:induction false} UnusedId(ids: set<nat>) returns (n: nat)
    ensures forall i :: i in ids ==> i < n
    decreases |ids|
  {
    if ids == {} {
      n := 0;
    } else {
      var i :| i in ids;
      var m := UnusedId(ids - {i});
      n := if i < m then m else i + 1;
      assert forall k :: k in ids ==> k == i || k in ids - {i};
    }
  }

  lemma MoveAdvances(s: State, i: nat)
    requires MoveOf(s, i).Some?
    ensures StepsLeft(At(MoveOf(s, i).value, i)) < StepsLeft(At(s, i)) && i in s.agents
  {
    hide LockFree, NoWriter;
  }

  /** A step of one agent leaves it fewer. */
  lemma AgentAdvances(s: State, act: Action, cfg: Config, clk: Clock)
    requires Inner(act) && Single(act) && Step(s, act, cfg, clk).Some?
    ensures StepsLeft(At(Step(s, act, cfg, clk).value, act.i)) < StepsLeft(At(s, act.i)) && act.i in s.agents
  {
    hide After, Apply, Admissible, Installable, Returned;
    if act.Move? {
      MoveAdvances(s, act.i);
      hide MoveOf, StepsLeft;
    } else {
      hide MoveOf;
    }
  }

  lemma StepAdvances(s: State, act: Action, cfg: Config, clk: Clock)
    requires Inner(act) && Step(s, act, cfg, clk).Some?
    ensures Rank(Step(s, act, cfg, clk).value.agents) < Rank(s.agents)
  {
    if Single(act) {
      AgentAdvances(s, act, cfg, clk);
      SingleShape(s, act, cfg, clk);
      var s' := Step(s, act, cfg, clk).value;
      RankPut(s.agents, act.i, s'.agents[act.i]);
    } else {
      var l := s.agents[act.i].lease;
      RankPut(s.agents, act.i, Leaving);
      RankPut(s.agents[act.i := Leaving], act.pump, Relaying(l));
    }
  }

  /** Whoever holds the lock can always go on. */
  lemma HolderCanStep(s: State, i: nat, cfg: Config, clk: Clock) returns (act: Action)
    requires i in s.agents && (Reads(s.agents[i]) || Writes(s.agents[i]))
    ensures Inner(act) && Step(s, act, cfg, clk).Some?
  {
    hide LockFree, NoWriter, Returned, Apply, Installable;
    var a := s.agents[i];
    if a.Admitted? || a.Swapping? {
      act := Decline(i);
    } else if a.Dispatching? {
      act := GiveBack(i, Written);
    } else if a.Opened? {
      var pump := UnusedId(s.agents.Keys);
      act := StartPump(i, pump);
    } else {
      act := Move(i);
    }
  }

  /** With the lock free, so can everybody else. */
  lemma OtherCanStep(s: State, i: nat, cfg: Config, clk: Clock) returns (act: Action)
    requires i in s.agents && !s.agents[i].Gone? && LockFree(s)
    ensures Inner(act) && Step(s, act, cfg, clk).Some?
  {
    hide Returned, Apply, Installable;
    assert NoWriter(s) && !Reads(s.agents[i]) && !Writes(s.agents[i]);
    hide LockFree, NoWriter;
    act := if s.agents[i].Relaying? then GiveBack(i, Written) else Move(i);
  }

  lemma SomebodyCanStep(s: State, i: nat, cfg: Config, clk: Clock)
    requires i in s.agents && !s.agents[i].Gone?
    ensures exists act :: Inner(act) && Step(s, act, cfg, clk).Some?
  {
    hide Step;
    if LockFree(s) {
      var act := OtherCanStep(s, i, cfg, clk);
      assert Inner(act) && Step(s, act, cfg, clk).Some?;
    } else {
      var j :| j in s.agents && (Reads(s.agents[j]) || Writes(s.agents[j]));
      var act := HolderCanStep(s, j, cfg, clk);
      assert Inner(act) && Step(s, act, cfg, clk).Some?;
    }
  }

  /**
    A drain cannot get stuck: in every reachable state with a shutdown requested and not complete,
    somebody already there can step, however the lock is held; and every such step lowers the rank.
   */
  lemma DrainProgresses(s: State, acts: seq<Action>, act: Action, cfg: Config, clk: Clock)
    requires GoodClock(clk) && GoodConfig(cfg) && Initial(s, cfg, clk)
    ensures var t := Run(s, acts, cfg, clk);
            && (t.requested && !t.complete ==> exists a :: Inner(a) && Step(t, a, cfg, clk).Some?)
            && (Inner(act) && Step(t, act, cfg, clk).Some?
                ==> Rank(Step(t, act, cfg, clk).value.agents) < Rank(t.agents))
  {
    hide GoodClock, Initial, Inv, Exclusive, LeasesKept, Run, QuietAgents, QuietClosed, Step, Rank;
    RunsKeepHandler(s, acts, cfg, clk);
    var t := Run(s, acts, cfg, clk);
    if t.requested && !t.complete {
      var i := Pending(t);
      SomebodyCanStep(t, i, cfg, clk);
    }
    if Inner(act) && Step(t, act, cfg, clk).Some? {
      StepAdvances(t, act, cfg, clk);
    }
  }

  lemma Pending(s: State) returns (i: nat)
    requires NoLostWakeup(s) && Counted(s) && s.requested && !s.complete
    ensures i in s.agents && !s.agents[i].Gone?
  {
    if s.active > 0 {
      var who := Who(s.agents, Counts);
      assert who != {};
      i :| i in who;
    } else {
      i :| i in s.agents && WillDrain(s.agents[i]);
    }
  }

  /** The given steps are all taken, by agents already there. */
  ghost predicate Taken(s: State, acts: seq<Action>, cfg: Config, clk: Clock) {
    acts != [] ==>
      var before := Run(s, acts[..|acts| - 1], cfg, clk);
      && Taken(s, acts[..|acts| - 1], cfg, clk)
      && Inner(acts[|acts| - 1]) && Step(before, acts[|acts| - 1], cfg, clk).Some?
  }

  lemma RequestStays(s: State, act: Action, cfg: Config, clk: Clock)
    requires Step(s, act, cfg, clk).Some?
    ensures s.requested ==> Step(s, act, cfg, clk).value.requested
  {
    hide LockFree, NoWriter, Apply, Admissible, Installable, Returned;
  }

  lemma {:induction false} TakenAdvances(s: State, acts: seq<Action>, cfg: Config, clk: Clock)
    requires Taken(s, acts, cfg, clk)
    ensures var t := Run(s, acts, cfg, clk);
            && |acts| + Rank(t.agents) <= Rank(s.agents)
            && (s.requested ==> t.requested)
  {
    hide Step, Rank;
    if acts != [] {
      var before := Run(s, acts[..|acts| - 1], cfg, clk);
      TakenAdvances(s, acts[..|acts| - 1], cfg, clk);
      StepAdvances(before, acts[|acts| - 1], cfg, clk);
      RequestStays(before, acts[|acts| - 1], cfg, clk);
    }
  }

  lemma {:induction false} RunAfter(s: State, acts: seq<Action>, more: seq<Action>, cfg: Config, clk: Clock)
    ensures Run(s, acts + more, cfg, clk) == Run(Run(s, acts, cfg, clk), more, cfg, clk)
  {
    hide Step;
    if more == [] {
      assert acts + more == acts;
    } else {
      RunAfter(s, acts, more[..|more| - 1], cfg, clk);
      assert (acts + more)[..|acts + more| - 1] == acts + more[..|more| - 1];
    }
  }

  /**
    Every drain ends: from any state with a shutdown requested, whatever order those already there
    step in, they take at most Rank steps, and when none of them can step the shutdown is complete.
   */
  lemma DrainEnds(s: State, acts: seq<Action>, more: seq<Action>, cfg: Config, clk: Clock)
    requires GoodClock(clk) && GoodConfig(cfg) && Initial(s, cfg, clk)
    requires Run(s, acts, cfg, clk).requested && Taken(Run(s, acts, cfg, clk), more, cfg, clk)
    ensures |more| <= Rank(Run(s, acts, cfg, clk).agents)
    ensures var t := Run(s, acts + more, cfg, clk);
            (forall a :: Inner(a) ==> Step(t, a, cfg, clk).None?) ==> t.complete
  {
    hide GoodClock, Initial, Step, Run, Rank, Taken;
    TakenAdvances(Run(s, acts, cfg, clk), more, cfg, clk);
    RunAfter(s, acts, more, cfg, clk);
    DrainProgresses(s, acts + more, Shutdown(0), cfg, clk);
  }
}
