/**
  plugins/opencode/handler.go: calls, stream pumps, reconfiguration and Shutdown as a transition
  system, one atomic access to shared state per step, in any interleaving.

  The reader-writer lock is read off the agents: who stands between RLock and RUnlock, or between
  Lock and Unlock.  Every lease goes through the functions of module Registry.
 */
module Handler {
  import opened Prelude
  import opened Registry
  import opened RegistryOrder
  import opened RegistryInvariant
  import opened RegistryRecovery
  import opened RegistryRuns

  /** A dispatch lease: the registry captured by the call, and the identity it was granted. */
  datatype Lease = Lease(inst: nat, principal: string, conversation: string, id: string)

  datatype Job = Drain | Attach

  /** The program counter of every goroutine inside the handler. */
  datatype Agent =
    | Arriving                   // HandleMethod, before its first look at the flag
    | WantsRead
    | Entered                    // holds the read lock, before its second look
    | Admitted
    | Dispatching(lease: Lease)  // holds the read lock and a lease
    | Opened(lease: Lease)       // has counted its stream, about to start the pump
    | Leaving                    // holds the read lock, owns no lease
    | Relaying(lease: Lease)     // the pump, owning the lease
    | Released                   // the pump, lease given back, stream still counted
    | Deciding(last: bool)       // streamFinished, after Add(-1)
    | Stopping                   // Shutdown, before it stores the flag
    | WantsLock(job: Job)
    | Locked(job: Job)           // holds the write lock from here to Unlocking
    | Draining                   // has seen the flag
    | Closing                    // has seen no active stream
    | Completing                 // has closed the registry
    | Attaching                  // has seen the flag unset
    | Swapping                   // has seen no active stream
    | Unlocking
    | Gone

  datatype State = State(
    requested: bool, complete: bool, active: int, agents: map<nat, Agent>, inst: nat, store: Store)

  datatype Action =
    | Arrive(i: nat)
    | Shutdown(i: nat)
    | Configure(i: nat)
    | Move(i: nat)
    | Acquire(i: nat, principal: string, conversation: string, mint: Option<string>, write: Write)
    | Decline(i: nat)
    | OpenStream(i: nat)
    | StartPump(i: nat, pump: nat)
    | GiveBack(i: nat, write: Write)
    | Swap(i: nat, mem: Memory, disk: Option<seq<Entry>>)
    | Operate(op: Op, write: Write)

  predicate Reads(a: Agent) {
    a.Entered? || a.Admitted? || a.Dispatching? || a.Opened? || a.Leaving?
  }

  predicate Writes(a: Agent) {
    a.Locked? || a.Draining? || a.Closing? || a.Completing? || a.Attaching? || a.Swapping? || a.Unlocking?
  }

  /** Streams the counter must include. */
  predicate Counts(a: Agent) {
    a.Opened? || a.Relaying? || a.Released?
  }

  predicate Holds(a: Agent) {
    a.Dispatching? || a.Opened? || a.Relaying?
  }

  function LeaseKey(l: Lease): string {
    KeyOf(l.principal, l.conversation)
  }

  predicate HoldsKey(a: Agent, key: string) {
    Holds(a) && LeaseKey(a.lease) == key
  }

  ghost predicate LockFree(s: State) {
    forall i :: i in s.agents ==> !Reads(s.agents[i]) && !Writes(s.agents[i])
  }

  ghost predicate NoWriter(s: State) {
    forall i :: i in s.agents ==> !Writes(s.agents[i])
  }

  function At(s: State, i: nat): Agent {
    if i in s.agents then s.agents[i] else Gone
  }

  function Put(s: State, i: nat, a: Agent): State {
    s.(agents := s.agents[i := a])
  }

  /** Where the next step of an agent that has no choice leads; None while it must wait. */
  ghost function After(s: State, i: nat): Option<Agent> {
    match At(s, i)
    case Arriving => Some(if s.requested then Gone else WantsRead)
    case WantsRead => if NoWriter(s) then Some(Entered) else None
    case Entered => Some(if s.requested then Leaving else Admitted)
    case Leaving => Some(Gone)
    case Released => Some(Deciding(s.active == 1))
    case Deciding(last) => Some(if last && s.requested then WantsLock(Drain) else Gone)
    case Stopping => Some(WantsLock(Drain))
    case WantsLock(job) => if LockFree(s) then Some(Locked(job)) else None
    case Locked(Drain) => Some(if s.requested then Draining else Unlocking)
    case Locked(Attach) => Some(if s.requested then Unlocking else Attaching)
    case Draining => Some(if s.active == 0 then Closing else Unlocking)
    case Closing => Some(Completing)
    case Completing => Some(Unlocking)
    case Attaching => Some(if s.active == 0 then Swapping else Unlocking)
    case Unlocking => Some(Gone)
    case _ => None
  }

  function Closed(s: Store): Store {
    s.(mem := s.mem.(closed := true))
  }

  /** That step: Shutdown stores the flag, a pump leaves the count, a drain closes and completes. */
  ghost function MoveOf(s: State, i: nat): Option<State> {
    match After(s, i)
    case None => None
    case Some(a) =>
      var here := At(s, i);
      Some(State(s.requested || here.Stopping?, s.complete || here.Completing?,
                 if here.Released? then s.active - 1 else s.active,
                 s.agents[i := a], s.inst, if here.Closing? then Closed(s.store) else s.store))
  }

  /** Release on the registry the lease was taken from; an old, closed one refuses. */
  function Returned(s: State, l: Lease, cfg: Config, clk: Clock, w: Write): Store {
    if l.inst == s.inst then Release(s.store, cfg, clk, l.principal, l.conversation, w).0 else s.store
  }

  /** A registry fresh from NewSessionRegistry. */
  ghost predicate Installable(s: State, mem: Memory, cfg: Config, clk: Clock) {
    && Inv(mem, cfg, clk(s.store.tick)) && Ready(mem)
    && forall k :: LeasesOf(mem, k) == 0
  }

  ghost function Step(s: State, act: Action, cfg: Config, clk: Clock): Option<State> {
    match act
    case Arrive(i) => if i in s.agents then None else Some(Put(s, i, Arriving))
    case Shutdown(i) => if i in s.agents then None else Some(Put(s, i, Stopping))
    case Configure(i) => if i in s.agents then None else Some(Put(s, i, WantsLock(Attach)))
    case Move(i) => MoveOf(s, i)
    case Acquire(i, p, c, mint, w) =>
      if At(s, i) != Admitted || !Admissible(s.store.mem, ResolveOp(p, c, true, mint)) then None
      else
        var (store, reply) := Apply(s.store, cfg, clk, ResolveOp(p, c, true, mint), w);
        Some(Put(s, i, if reply.Session? then Dispatching(Lease(s.inst, p, c, reply.id)) else Leaving).(store := store))
    case Decline(i) =>
      if At(s, i) == Admitted then Some(Put(s, i, Leaving))
      else if At(s, i) == WantsLock(Attach) then Some(Put(s, i, Gone))   // TryLock failed
      else if At(s, i) == Swapping then Some(Put(s, i, Unlocking))       // the registry is kept, or no new one opens
      else None
    case OpenStream(i) =>
      if At(s, i).Dispatching? then Some(Put(s, i, Opened(At(s, i).lease)).(active := s.active + 1)) else None
    case StartPump(i, pump) =>
      if At(s, i).Opened? && pump !in s.agents then Some(Put(Put(s, i, Leaving), pump, Relaying(At(s, i).lease)))
      else None
    case GiveBack(i, w) =>
      if At(s, i).Dispatching? then Some(Put(s, i, Leaving).(store := Returned(s, At(s, i).lease, cfg, clk, w)))
      else if At(s, i).Relaying? then Some(Put(s, i, Released).(store := Returned(s, At(s, i).lease, cfg, clk, w)))
      else None
    case Swap(i, mem, disk) =>
      if At(s, i) == Swapping && Installable(s, mem, cfg, clk) then
        Some(Put(s, i, Unlocking).(inst := s.inst + 1, store := Store(mem, disk, s.store.tick)))
      else None
    case Operate(op, w) =>
      if ((op.ResolveOp? && !op.lease) || op.TerminateOp? || op.LookupOp?) && Admissible(s.store.mem, op) then
        Some(s.(store := Apply(s.store, cfg, clk, op, w).0))
      else None
  }

  // ---- counting agents ----

  ghost function Who(agents: map<nat, Agent>, p: Agent -> bool): set<nat> {
    set i | i in agents && p(agents[i])
  }

  ghost function Count(agents: map<nat, Agent>, p: Agent -> bool): nat {
    |Who(agents, p)|
  }

  lemma CountPut(agents: map<nat, Agent>, i: nat, a: Agent, p: Agent -> bool)
    ensures Count(agents[i := a], p)
            == Count(agents, p) - (if i in agents && p(agents[i]) then 1 else 0) + (if p(a) then 1 else 0)
  {
    var before, after := Who(agents, p), Who(agents[i := a], p);
    var others := before - {i};
    assert after == if p(a) then others + {i} else others;
    assert before == if i in agents && p(agents[i]) then others + {i} else others;
    assert |others + {i}| == |others| + 1;
  }

  lemma CountZero(agents: map<nat, Agent>, p: Agent -> bool, i: nat)
    requires Count(agents, p) == 0 && i in agents
    ensures !p(agents[i])
  {
    assert !(i in Who(agents, p));
  }

  lemma CountNone(agents: map<nat, Agent>, p: Agent -> bool)
    requires forall i :: i in agents ==> !p(agents[i])
    ensures Count(agents, p) == 0
  {
    assert Who(agents, p) == {};
  }

  function HoldersOf(key: string): Agent -> bool {
    a => HoldsKey(a, key)
  }

  // ---- the invariant ----

  ghost predicate Exclusive(s: State) {
    forall i, j :: i in s.agents && j in s.agents && i != j && Writes(s.agents[i]) ==>
      !Writes(s.agents[j]) && !Reads(s.agents[j])
  }

  ghost predicate Counted(s: State) {
    s.active == Count(s.agents, Counts)
  }

  /** Once closing, nobody is past admission; and only the drain sets the terminal flags. */
  ghost predicate QuietAgents(s: State) {
    && (forall i :: i in s.agents && SawNoStream(s.agents[i]) ==> s.active == 0)
    && (forall i :: i in s.agents && Shutting(s.agents[i]) ==> s.requested)
    && (forall i :: i in s.agents && s.agents[i].Completing? ==> s.store.mem.closed)
  }

  ghost predicate QuietClosed(s: State) {
    && (s.complete ==> s.store.mem.closed)
    && (s.store.mem.closed ==>
          && s.active == 0 && s.requested
          && (s.complete || exists i :: i in s.agents && s.agents[i].Completing?)
          && forall i :: i in s.agents ==> !Banned(s.agents[i]))
  }

  /** Every lease belongs to the current registry and names an identity it still holds. */
  ghost predicate LeasesKept(s: State) {
    && (forall i :: i in s.agents && Holds(s.agents[i]) ==> s.agents[i].lease.inst == s.inst)
    && (forall i :: i in s.agents && Holds(s.agents[i]) ==> Named(s.store.mem, s.agents[i].lease))
    && (forall key :: KeyKept(s.store.mem, s.agents, key))
  }

  /** The lease count of a key covers its holders, and equals them while the registry has not failed. */
  ghost predicate KeyKept(m: Memory, agents: map<nat, Agent>, key: string) {
    && LeasesOf(m, key) >= Count(agents, HoldersOf(key))
    && (!m.failed ==> LeasesOf(m, key) == Count(agents, HoldersOf(key)))
  }

  predicate Named(m: Memory, l: Lease) {
    LeaseKey(l) in m.entries && m.entries[LeaseKey(l)].sessionId == l.id
  }

  /** Agents that will still look whether the handler has drained. */
  predicate WillDrain(a: Agent) {
    a == Deciding(true) || a == WantsLock(Drain) || a == Locked(Drain) || a.Draining? || a.Closing? || a.Completing?
  }

  /** No lost wakeup: a requested shutdown is complete, or a stream is live, or somebody will look again. */
  ghost predicate NoLostWakeup(s: State) {
    s.requested && !s.complete ==> s.active > 0 || exists i :: i in s.agents && WillDrain(s.agents[i])
  }

  ghost predicate HandlerInv(s: State, cfg: Config, clk: Clock) {
    && Inv(s.store.mem, cfg, clk(s.store.tick))
    && Exclusive(s) && Counted(s) && QuietAgents(s) && QuietClosed(s) && LeasesKept(s) && NoLostWakeup(s)
  }

  // ---- the shape of a step ----

  predicate Single(act: Action) {
    !act.StartPump? && !act.Operate?
  }

  ghost predicate LockRules(s: State, i: nat, a: Agent) {
    && (Writes(a) ==> Writes(At(s, i)) || LockFree(s))
    && (Reads(a) ==> Reads(At(s, i)) || NoWriter(s))
  }

  function Weight(a: Agent): int {
    if Counts(a) then 1 else 0
  }

  /** An agent about to look must look, unless it finds a live stream or finishes the shutdown. */
  predicate KeepsLooking(s: State, s': State, before: Agent, after: Agent) {
    && (WillDrain(before) ==> WillDrain(after) || s'.active != 0 || s'.complete || !s'.requested)
    && (s'.active == 0 && s.active != 0 ==> WillDrain(after))
    && (s'.requested && !s.requested ==> WillDrain(after))
    && (s.requested ==> s'.requested) && (s.complete ==> s'.complete)
  }

  /** Which agent a step moves, and that it minds the lock and the stream counter. */
  lemma MoveShape(s: State, i: nat)
    requires MoveOf(s, i).Some?
    ensures var s' := MoveOf(s, i).value;
            && i in s'.agents && s'.agents == s.agents[i := s'.agents[i]]
            && s'.active == s.active - Weight(At(s, i)) + Weight(s'.agents[i])
            && s'.inst == s.inst && s'.store == s.store.(mem := s'.store.mem)
            && s'.store.mem == s.store.mem.(closed := s'.store.mem.closed)
  {
    hide LockFree, NoWriter;
  }

  lemma MoveLocks(s: State, i: nat)
    requires MoveOf(s, i).Some?
    ensures LockRules(s, i, At(MoveOf(s, i).value, i))
  {
    hide LockFree, NoWriter;
  }

  lemma MoveLooks(s: State, i: nat)
    requires MoveOf(s, i).Some? && s.active >= 0
    ensures KeepsLooking(s, MoveOf(s, i).value, At(s, i), At(MoveOf(s, i).value, i))
  {
    hide LockFree, NoWriter;
  }

  lemma SingleShape(s: State, act: Action, cfg: Config, clk: Clock)
    requires Single(act) && Step(s, act, cfg, clk).Some?
    ensures var s' := Step(s, act, cfg, clk).value;
            && act.i in s'.agents && s'.agents == s.agents[act.i := s'.agents[act.i]]
            && s'.active == s.active - Weight(At(s, act.i)) + Weight(s'.agents[act.i])
  {
    hide Apply, Admissible, Installable, Returned, MoveOf, LockFree, NoWriter;
    if act.Move? {
      MoveShape(s, act.i);
    }
  }

  lemma SingleLocks(s: State, act: Action, cfg: Config, clk: Clock)
    requires Single(act) && Step(s, act, cfg, clk).Some?
    ensures LockRules(s, act.i, At(Step(s, act, cfg, clk).value, act.i))
  {
    hide Apply, Admissible, Installable, Returned, MoveOf, LockFree, NoWriter;
    if act.Move? {
      MoveLocks(s, act.i);
    }
  }

  lemma SingleLooks(s: State, act: Action, cfg: Config, clk: Clock)
    requires Single(act) && Step(s, act, cfg, clk).Some? && s.active >= 0
    ensures KeepsLooking(s, Step(s, act, cfg, clk).value, At(s, act.i), At(Step(s, act, cfg, clk).value, act.i))
  {
    hide Apply, Admissible, Installable, Returned, MoveOf, LockFree, NoWriter;
    if act.Move? {
      MoveLooks(s, act.i);
    }
  }

  // ---- preservation, one clause at a time ----

  lemma PutExclusive(s: State, i: nat, a: Agent)
    requires Exclusive(s) && LockRules(s, i, a)
    ensures Exclusive(Put(s, i, a))
  {
    assert !Reads(Gone) && !Writes(Gone);
    hide Reads, Writes;
    var t := Put(s, i, a);
    forall j, k | j in t.agents && k in t.agents && j != k && Writes(t.agents[j])
      ensures !Writes(t.agents[k]) && !Reads(t.agents[k])
    {
      if j == i {
        assert k in s.agents && t.agents[k] == s.agents[k];
      } else if k == i {
        assert j in s.agents && t.agents[j] == s.agents[j];
      } else {
        assert j in s.agents && k in s.agents;
      }
    }
  }

  lemma ExclusiveStep(s: State, act: Action, cfg: Config, clk: Clock)
    requires Exclusive(s) && Step(s, act, cfg, clk).Some?
    ensures Exclusive(Step(s, act, cfg, clk).value)
  {
    hide Apply, Admissible, Installable, Returned, MoveOf, Exclusive, LockRules, Reads, Writes;
    var s' := Step(s, act, cfg, clk).value;
    match act
    case StartPump(i, pump) =>
      PumpLockRules(s, i, pump);
      PutExclusive(s, i, Leaving);
      PutExclusive(Put(s, i, Leaving), pump, Relaying(At(s, i).lease));
    case Operate(_, _) => SameAgentsExclusive(s, s');
    case _ =>
      SingleShape(s, act, cfg, clk);
      SingleLocks(s, act, cfg, clk);
      PutExclusive(s, act.i, s'.agents[act.i]);
      SameAgentsExclusive(Put(s, act.i, s'.agents[act.i]), s');
  }

  lemma SameAgentsExclusive(s: State, t: State)
    requires Exclusive(s) && s.agents == t.agents
    ensures Exclusive(t)
  {
  }

  lemma PumpLockRules(s: State, i: nat, pump: nat)
    requires At(s, i).Opened?
    ensures LockRules(s, i, Leaving)
    ensures LockRules(Put(s, i, Leaving), pump, Relaying(At(s, i).lease))
  {
  }

  lemma CountedStep(s: State, act: Action, cfg: Config, clk: Clock)
    requires Counted(s) && Step(s, act, cfg, clk).Some?
    ensures Counted(Step(s, act, cfg, clk).value)
  {
    hide Apply, Admissible, Installable, Returned, Count, MoveOf, LockRules, KeepsLooking;
    var s' := Step(s, act, cfg, clk).value;
    match act
    case StartPump(i, pump) =>
      CountPut(s.agents, i, Leaving, Counts);
      CountPut(s.agents[i := Leaving], pump, s'.agents[pump], Counts);
    case Operate(_, _) =>
    case _ =>
      SingleShape(s, act, cfg, clk);
      CountPut(s.agents, act.i, s'.agents[act.i], Counts);
  }

  lemma WakeupStep(s: State, act: Action, cfg: Config, clk: Clock)
    requires NoLostWakeup(s) && Counted(s) && Step(s, act, cfg, clk).Some?
    ensures NoLostWakeup(Step(s, act, cfg, clk).value)
  {
    hide Apply, Admissible, Installable, Returned, Count, MoveOf, LockRules, WillDrain, LockFree, NoWriter;
    var s' := Step(s, act, cfg, clk).value;
    CountedStep(s, act, cfg, clk);
    if act.StartPump? {
      PumpKeepsWakeup(s, act.i, act.pump);
    } else if !act.Operate? {
      SingleShape(s, act, cfg, clk);
      SingleLooks(s, act, cfg, clk);
      if s'.requested && !s'.complete && s'.active == 0 {
        if s.requested && s.active == 0 {
          var j :| j in s.agents && WillDrain(s.agents[j]);
          assert j in s'.agents && (j != act.i ==> s'.agents[j] == s.agents[j]);
        }
        assert exists j :: j in s'.agents && WillDrain(s'.agents[j]);
      }
    }
  }

  lemma PumpKeepsWakeup(s: State, i: nat, pump: nat)
    requires NoLostWakeup(s) && At(s, i).Opened? && pump !in s.agents
    ensures NoLostWakeup(Put(Put(s, i, Leaving), pump, Relaying(At(s, i).lease)))
  {
    if exists j :: j in s.agents && WillDrain(s.agents[j]) {
      var j :| j in s.agents && WillDrain(s.agents[j]);
      var t := Put(Put(s, i, Leaving), pump, Relaying(At(s, i).lease));
      assert j != i && j != pump;
      assert j in t.agents && t.agents[j] == s.agents[j];
    }
  }

  /** The operations of a registry leave its closed flag alone, and refuse once it is set. */
  lemma OperationsKeepClosed(s: Store, cfg: Config, clk: Clock, op: Op, w: Write)
    requires !op.CloseOp?
    ensures Apply(s, cfg, clk, op, w).0.mem.closed == s.mem.closed
    ensures s.mem.closed ==> Apply(s, cfg, clk, op, w).0.mem == s.mem
    ensures s.mem.closed && !op.LookupOp? ==> Apply(s, cfg, clk, op, w).1 == Refused
  {
    hide EvictedOrder, Restrict, KeyOf, Identity, Touch, Snapshot;
  }

  lemma StepClosed(s: State, act: Action, cfg: Config, clk: Clock)
    requires Step(s, act, cfg, clk).Some?
    ensures var s' := Step(s, act, cfg, clk).value;
            s'.store.mem.closed == (if act.Swap? then false
                                    else s.store.mem.closed || (act.Move? && At(s, act.i).Closing?))
  {
    hide Apply, Admissible, Release, Inv, After;
    match act
    case Acquire(i, p, c, mint, w) => OperationsKeepClosed(s.store, cfg, clk, ResolveOp(p, c, true, mint), w);
    case GiveBack(i, w) =>
      if Holds(At(s, i)) {
        ReleaseKeepsClosed(s.store, cfg, clk, At(s, i).lease, w);
      }
    case Operate(op, w) => OperationsKeepClosed(s.store, cfg, clk, op, w);
    case _ =>
  }

  lemma ReleaseKeepsClosed(s: Store, cfg: Config, clk: Clock, l: Lease, w: Write)
    ensures Release(s, cfg, clk, l.principal, l.conversation, w).0.mem.closed == s.mem.closed
  {
    hide EvictedOrder, Restrict, KeyOf, Touch, Snapshot;
  }

  /** A writer that has seen no stream is alone: no reader, and no pump. */
  lemma NoHolders(s: State, i: nat)
    requires Exclusive(s) && Counted(s) && s.active == 0
    requires i in s.agents && Writes(s.agents[i])
    ensures forall j :: j in s.agents ==> !Holds(s.agents[j]) && !Counts(s.agents[j]) && !s.agents[j].Admitted?
                                          && (j != i ==> !Writes(s.agents[j]))
  {
    forall j | j in s.agents
      ensures !Holds(s.agents[j]) && !Counts(s.agents[j]) && !s.agents[j].Admitted? && (j != i ==> !Writes(s.agents[j]))
    {
      CountZero(s.agents, Counts, j);
      if j == i {
        assert !Holds(s.agents[j]);
      }
    }
  }

  /** Agents at whose program counter the stream count is pinned to zero. */
  predicate SawNoStream(a: Agent) {
    a.Closing? || a.Completing? || a.Swapping?
  }

  predicate Shutting(a: Agent) {
    a.Draining? || a.Closing? || a.Completing?
  }

  predicate Banned(a: Agent) {
    a.Admitted? || Holds(a) || a.Swapping? || a.Attaching?
  }

  /** How a step can bring an agent to the counters that Quiet speaks of. */
  lemma SingleQuiet(s: State, act: Action, cfg: Config, clk: Clock)
    requires Single(act) && Step(s, act, cfg, clk).Some?
    ensures var s' := Step(s, act, cfg, clk).value;
            var before, after := At(s, act.i), At(s', act.i);
            && (SawNoStream(after) ==> s'.active == s.active && (SawNoStream(before) || s.active == 0))
            && (Shutting(after) ==> s.requested || Shutting(before))
            && (after.Completing? ==> act.Move? && before.Closing?)
            && (s'.requested <==> s.requested || before.Stopping?)
            && (s'.complete <==> s.complete || (act.Move? && before.Completing?))
            && (Banned(after) ==> Banned(before) || !s.requested)
            && (s'.active > s.active ==> before.Dispatching?)
            && (s'.active < s.active ==> Counts(before))
            && (before.Completing? && after != before ==> s'.complete)
            && (act.Swap? ==> before.Swapping?)
  {
    hide Apply, Admissible, Installable, Returned, LockFree, NoWriter;
  }

  lemma SingleKeepsOpen(s: State, act: Action, cfg: Config, clk: Clock)
    requires Exclusive(s) && Counted(s) && QuietAgents(s)
    requires Single(act) && Step(s, act, cfg, clk).Some?
    ensures QuietAgents(Step(s, act, cfg, clk).value)
  {
    hide Step, MoveOf, Installable, Count, LockRules, Banned;
    var s' := Step(s, act, cfg, clk).value;
    var before, after := At(s, act.i), At(s', act.i);
    SingleShape(s, act, cfg, clk);
    SingleQuiet(s, act, cfg, clk);
    StepClosed(s, act, cfg, clk);
    if s'.active != s.active {
      ActiveChange(s, act.i);
    }
    if act.Swap? {
      NoHolders(s, act.i);
    }
    assert forall j :: j in s'.agents && j != act.i ==> j in s.agents && s'.agents[j] == s.agents[j];
  }

  lemma SingleKeepsClosed(s: State, act: Action, cfg: Config, clk: Clock)
    requires Exclusive(s) && Counted(s) && QuietAgents(s) && QuietClosed(s)
    requires Single(act) && Step(s, act, cfg, clk).Some?
    ensures QuietClosed(Step(s, act, cfg, clk).value)
  {
    hide Step, MoveOf, Installable, Count, LockRules, Exclusive;
    var s' := Step(s, act, cfg, clk).value;
    var before, after := At(s, act.i), At(s', act.i);
    SingleShape(s, act, cfg, clk);
    SingleQuiet(s, act, cfg, clk);
    StepClosed(s, act, cfg, clk);
    CountedStep(s, act, cfg, clk);
    if act.Move? && before.Closing? {
      NoHolders(s, act.i);
      SingleCloses(s, act, cfg, clk);
    }
    if s.store.mem.closed && !s.complete {
      var j :| j in s.agents && s.agents[j].Completing?;
      assert j in s'.agents && (j != act.i ==> s'.agents[j] == s.agents[j]);
    }
    assert forall j :: j in s'.agents && j != act.i ==> j in s.agents && s'.agents[j] == s.agents[j];
  }

  lemma SingleCloses(s: State, act: Action, cfg: Config, clk: Clock)
    requires Single(act) && Step(s, act, cfg, clk).Some? && act.Move? && At(s, act.i).Closing?
    ensures At(Step(s, act, cfg, clk).value, act.i).Completing?
  {
  }

  /** While an agent has seen no stream, no other agent can change the count. */
  lemma ActiveChange(s: State, i: nat)
    requires Exclusive(s) && Counted(s) && (Reads(At(s, i)) || Counts(At(s, i)))
    ensures Counts(At(s, i)) ==> s.active > 0
    ensures Reads(At(s, i)) ==> forall j :: j in s.agents ==> !SawNoStream(s.agents[j])
  {
    if Counts(At(s, i)) && s.active == 0 {
      CountZero(s.agents, Counts, i);
    }
  }

  // ---- leases ----

  lemma CountPositive(agents: map<nat, Agent>, p: Agent -> bool, i: nat)
    requires i in agents && p(agents[i])
    ensures Count(agents, p) >= 1
  {
    assert i in Who(agents, p);
  }

  lemma CountTwo(agents: map<nat, Agent>, p: Agent -> bool, i: nat, j: nat)
    requires i in agents && p(agents[i]) && j in agents && p(agents[j]) && i != j
    ensures Count(agents, p) >= 2
  {
    var who := Who(agents, p);
    assert j in who - {i} && |who| == |who - {i}| + 1;
  }

  /** A step that moves one agent without touching leases or the registry, but for its closed flag. */
  lemma IdleLeases(s: State, t: State, i: nat, a: Agent)
    requires LeasesKept(s) && t.agents == s.agents[i := a] && t.inst == s.inst
    requires t.store.mem == s.store.mem.(closed := t.store.mem.closed)
    requires Holds(a) <==> Holds(At(s, i))
    requires Holds(a) ==> a.lease == At(s, i).lease
    ensures LeasesKept(t)
  {
    hide Count, KeyOf;
    forall key ensures KeyKept(t.store.mem, t.agents, key) {
      assert KeyKept(s.store.mem, s.agents, key);
      CountPut(s.agents, i, a, HoldersOf(key));
    }
  }

  lemma PumpLeases(s: State, i: nat, pump: nat)
    requires LeasesKept(s) && At(s, i).Opened? && pump !in s.agents
    ensures LeasesKept(Put(Put(s, i, Leaving), pump, Relaying(At(s, i).lease)))
  {
    hide Count, KeyOf;
    var t := Put(Put(s, i, Leaving), pump, Relaying(At(s, i).lease));
    forall key ensures KeyKept(t.store.mem, t.agents, key) {
      assert KeyKept(s.store.mem, s.agents, key);
      CountPut(s.agents, i, Leaving, HoldersOf(key));
      CountPut(s.agents[i := Leaving], pump, Relaying(At(s, i).lease), HoldersOf(key));
    }
  }

  /** Named leases stay named through any operation that leaves them a holder. */
  lemma StaysNamed(s: State, cfg: Config, clk: Clock, op: Op, w: Write, j: nat)
    requires GoodClock(clk) && GoodConfig(cfg) && Inv(s.store.mem, cfg, clk(s.store.tick))
    requires Admissible(s.store.mem, op) && LeasesKept(s)
    requires j in s.agents && Holds(s.agents[j])
    requires op.ReleaseOp? && LeaseKey(s.agents[j].lease) == KeyOf(op.principal, op.conversation) ==>
               Count(s.agents, HoldersOf(LeaseKey(s.agents[j].lease))) >= 2
    ensures Named(Apply(s.store, cfg, clk, op, w).0.mem, s.agents[j].lease)
  {
    hide GoodClock, Inv, Admissible, Apply, Count, KeyOf;
    var key := LeaseKey(s.agents[j].lease);
    assert KeyKept(s.store.mem, s.agents, key);
    CountPositive(s.agents, HoldersOf(key), j);
    LeaseProtects(s.store, cfg, clk, op, w, key);
  }

  lemma AcquiredNamed(s: Store, cfg: Config, clk: Clock, p: string, c: string, mint: Option<string>, w: Write,
                      inst: nat)
    requires GoodClock(clk) && GoodConfig(cfg) && Inv(s.mem, cfg, clk(s.tick)) && Fresh(s.mem, mint)
    requires Resolve(s, cfg, clk, p, c, true, mint, w).1.Session?
    ensures var (s', reply) := Resolve(s, cfg, clk, p, c, true, mint, w);
            Named(s'.mem, Lease(inst, p, c, reply.id)) && !s'.mem.failed
  {
    hide GoodClock, Inv, Evicted, Use, Adopt, KeyOf, Identity, Fresh, WellKept, FileOf, Recorded;
    var (s', reply) := Resolve(s, cfg, clk, p, c, true, mint, w);
    AnsweredIsDurable(s, cfg, clk, p, c, true, mint, w);
    var op := ResolveOp(p, c, true, mint);
    StepKeepsInv(s, cfg, clk, op, w);
    InvKept(s'.mem, cfg, clk(s'.tick));
    AnsweredCommitted(s, cfg, clk, p, c, mint, w);
    RecordedIff(s'.mem, clk(s'.tick), KeyOf(p, c), reply.id);
  }

  lemma AnsweredCommitted(s: Store, cfg: Config, clk: Clock, p: string, c: string, mint: Option<string>, w: Write)
    requires Resolve(s, cfg, clk, p, c, true, mint, w).1.Session?
    ensures var s' := Resolve(s, cfg, clk, p, c, true, mint, w).0;
            s'.disk == Some(FileOf(s'.mem)) && !s'.mem.failed
  {
    hide EvictedOrder, Restrict, KeyOf, Identity, Touch, Snapshot;
  }

  lemma AcquireKeepsLeases(s: State, i: nat, p: string, c: string, mint: Option<string>, w: Write, cfg: Config,
                           clk: Clock)
    requires GoodClock(clk) && GoodConfig(cfg) && Inv(s.store.mem, cfg, clk(s.store.tick)) && LeasesKept(s)
    requires Step(s, Acquire(i, p, c, mint, w), cfg, clk).Some?
    ensures LeasesKept(Step(s, Acquire(i, p, c, mint, w), cfg, clk).value)
  {
    hide GoodClock, Inv, Admissible, Apply, Count, KeyOf, Named, KeyKept;
    var op := ResolveOp(p, c, true, mint);
    var t := Step(s, Acquire(i, p, c, mint, w), cfg, clk).value;
    var reply := Apply(s.store, cfg, clk, op, w).1;
    forall j | j in t.agents && Holds(t.agents[j])
      ensures Named(t.store.mem, t.agents[j].lease)
    {
      if j == i {
        ApplyIsResolve(s.store, cfg, clk, op, w);
        AcquiredNamed(s.store, cfg, clk, p, c, mint, w, s.inst);
      } else {
        StaysNamed(s, cfg, clk, op, w, j);
      }
    }
    forall key ensures KeyKept(t.store.mem, t.agents, key) {
      AcquireKey(s, i, p, c, mint, w, cfg, clk, key);
    }
  }

  lemma ApplyIsResolve(s: Store, cfg: Config, clk: Clock, op: Op, w: Write)
    requires op.ResolveOp? && Admissible(s.mem, op)
    ensures Apply(s, cfg, clk, op, w) == Resolve(s, cfg, clk, op.principal, op.conversation, op.lease, op.mint, w)
    ensures Fresh(s.mem, op.mint)
  {
    hide Resolve;
  }

  lemma AcquireKey(s: State, i: nat, p: string, c: string, mint: Option<string>, w: Write, cfg: Config, clk: Clock,
                   key: string)
    requires GoodClock(clk) && GoodConfig(cfg) && Inv(s.store.mem, cfg, clk(s.store.tick)) && LeasesKept(s)
    requires Step(s, Acquire(i, p, c, mint, w), cfg, clk).Some?
    ensures var t := Step(s, Acquire(i, p, c, mint, w), cfg, clk).value; KeyKept(t.store.mem, t.agents, key)
  {
    hide GoodClock, Inv, Admissible, Apply, Count, KeyOf, Named;
    var op := ResolveOp(p, c, true, mint);
    var t := Step(s, Acquire(i, p, c, mint, w), cfg, clk).value;
    assert KeyKept(s.store.mem, s.agents, key);
    CountPut(s.agents, i, t.agents[i], HoldersOf(key));
    LeaseAccounting(s.store, cfg, clk, op, w, key);
    LeaseFloor(s.store, cfg, clk, op, w, key);
    FailureLasts(s.store, cfg, clk, op, w);
  }

  /** A failed registry stays failed, and answers every dispatch operation with a refusal. */
  lemma FailureLasts(s: Store, cfg: Config, clk: Clock, op: Op, w: Write)
    requires !op.CloseOp? && !op.LookupOp?
    ensures var (s', reply) := Apply(s, cfg, clk, op, w);
            && (s.mem.failed ==> s'.mem == s.mem && reply == Refused)
            && (s'.mem.failed ==> reply == Refused)
            && (op.ResolveOp? ==> reply != Done)
            && (!s'.mem.failed && op.ReleaseOp? && reply == Refused ==> s'.mem == s.mem)
  {
    hide EvictedOrder, Restrict, KeyOf, Identity, Touch, Snapshot;
  }

  lemma GiveBackKeepsLeases(s: State, i: nat, a: Agent, w: Write, cfg: Config, clk: Clock)
    requires GoodClock(clk) && GoodConfig(cfg) && Inv(s.store.mem, cfg, clk(s.store.tick)) && LeasesKept(s)
    requires !s.store.mem.closed
    requires i in s.agents && Holds(s.agents[i]) && !Holds(a)
    ensures LeasesKept(Put(s, i, a).(store := Returned(s, s.agents[i].lease, cfg, clk, w)))
  {
    hide GoodClock, Inv, Apply, Count, KeyOf, Named, KeyKept, Release;
    var l := s.agents[i].lease;
    var op := ReleaseOp(l.principal, l.conversation);
    var t := Put(s, i, a).(store := Returned(s, l, cfg, clk, w));
    ApplyIsRelease(s.store, cfg, clk, op, w);
    forall j | j in t.agents && Holds(t.agents[j])
      ensures Named(t.store.mem, t.agents[j].lease)
    {
      if LeaseKey(s.agents[j].lease) == LeaseKey(l) {
        CountTwo(s.agents, HoldersOf(LeaseKey(l)), i, j);
      }
      StaysNamed(s, cfg, clk, op, w, j);
    }
    forall key ensures KeyKept(t.store.mem, t.agents, key) {
      GiveBackKey(s, i, a, w, cfg, clk, key);
    }
  }

  lemma ApplyIsRelease(s: Store, cfg: Config, clk: Clock, op: Op, w: Write)
    requires op.ReleaseOp?
    ensures Apply(s, cfg, clk, op, w) == Release(s, cfg, clk, op.principal, op.conversation, w)
    ensures Admissible(s.mem, op)
  {
    hide Release;
  }

  lemma GiveBackKey(s: State, i: nat, a: Agent, w: Write, cfg: Config, clk: Clock, key: string)
    requires GoodClock(clk) && GoodConfig(cfg) && Inv(s.store.mem, cfg, clk(s.store.tick)) && LeasesKept(s)
    requires !s.store.mem.closed
    requires i in s.agents && Holds(s.agents[i]) && !Holds(a)
    ensures KeyKept(Returned(s, s.agents[i].lease, cfg, clk, w).mem, s.agents[i := a], key)
  {
    hide GoodClock, Inv, Apply, Count, KeyOf, Named, Release;
    var l := s.agents[i].lease;
    var op := ReleaseOp(l.principal, l.conversation);
    ApplyIsRelease(s.store, cfg, clk, op, w);
    assert KeyKept(s.store.mem, s.agents, key) && KeyKept(s.store.mem, s.agents, LeaseKey(l));
    CountPositive(s.agents, HoldersOf(LeaseKey(l)), i);
    CountPut(s.agents, i, a, HoldersOf(key));
    LeaseAccounting(s.store, cfg, clk, op, w, key);
    LeaseFloor(s.store, cfg, clk, op, w, key);
    FailureLasts(s.store, cfg, clk, op, w);
    LeasedIsActive(s.store.mem, cfg, clk(s.store.tick), LeaseKey(l));
    if !s.store.mem.failed {
      HeldIsReleased(s.store, cfg, clk, l.principal, l.conversation, w);
    }
  }

  lemma LeasedIsActive(m: Memory, cfg: Config, now: int, key: string)
    requires Inv(m, cfg, now) && LeasesOf(m, key) > 0
    ensures key in m.entries && m.entries[key].state == Active
  {
    hide IdleCount, NoDup;
  }

  /** Releasing a held lease of a working registry is refused only by a write failure. */
  lemma HeldIsReleased(s: Store, cfg: Config, clk: Clock, p: string, c: string, w: Write)
    requires Ready(s.mem) && KeyOf(p, c) in s.mem.entries
    requires s.mem.entries[KeyOf(p, c)].state == Active && s.mem.entries[KeyOf(p, c)].leases > 0
    ensures var (s', reply) := Release(s, cfg, clk, p, c, w);
            (w == Written ==> reply == Done && !s'.mem.failed) && (w != Written ==> s'.mem.failed)
  {
    hide EvictedOrder, Restrict, KeyOf, Touch, Snapshot;
  }

  lemma SwapLeases(s: State, i: nat, mem: Memory, disk: Option<seq<Entry>>, cfg: Config, clk: Clock)
    requires Exclusive(s) && Counted(s) && QuietAgents(s)
    requires Step(s, Swap(i, mem, disk), cfg, clk).Some?
    ensures LeasesKept(Step(s, Swap(i, mem, disk), cfg, clk).value)
  {
    hide Count, KeyOf, Inv;
    NoHolders(s, i);
    var t := Step(s, Swap(i, mem, disk), cfg, clk).value;
    forall key ensures KeyKept(t.store.mem, t.agents, key) {
      CountNone(t.agents, HoldersOf(key));
    }
  }

  lemma OperateLeases(s: State, op: Op, w: Write, cfg: Config, clk: Clock)
    requires GoodClock(clk) && GoodConfig(cfg) && Inv(s.store.mem, cfg, clk(s.store.tick)) && LeasesKept(s)
    requires Step(s, Operate(op, w), cfg, clk).Some?
    ensures LeasesKept(Step(s, Operate(op, w), cfg, clk).value)
  {
    hide GoodClock, Inv, Admissible, Apply, Count, KeyOf, Named;
    var t := Step(s, Operate(op, w), cfg, clk).value;
    forall j | j in t.agents && Holds(t.agents[j])
      ensures Named(t.store.mem, t.agents[j].lease)
    {
      StaysNamed(s, cfg, clk, op, w, j);
    }
    forall key ensures KeyKept(t.store.mem, t.agents, key) {
      assert KeyKept(s.store.mem, s.agents, key);
      LeaseAccounting(s.store, cfg, clk, op, w, key);
      LeaseFloor(s.store, cfg, clk, op, w, key);
      OperationsKeepFailure(s.store, cfg, clk, op, w);
    }
  }

  lemma OperationsKeepFailure(s: Store, cfg: Config, clk: Clock, op: Op, w: Write)
    ensures s.mem.failed ==> Apply(s, cfg, clk, op, w).0.mem.failed
  {
    hide EvictedOrder, Restrict, KeyOf, Identity, Touch, Snapshot;
  }

  lemma LeasesStep(s: State, act: Action, cfg: Config, clk: Clock)
    requires GoodClock(clk) && GoodConfig(cfg) && HandlerInv(s, cfg, clk) && Step(s, act, cfg, clk).Some?
    ensures LeasesKept(Step(s, act, cfg, clk).value)
  {
    hide GoodClock, Inv, Admissible, Apply, Installable, Count, KeyOf, LeasesKept, Exclusive, Counted, QuietAgents,
         LockFree,
         NoWriter, NoLostWakeup, Release;
    var t := Step(s, act, cfg, clk).value;
    match act
    case Acquire(i, p, c, mint, w) => AcquireKeepsLeases(s, i, p, c, mint, w, cfg, clk);
    case GiveBack(i, w) => GiveBackKeepsLeases(s, i, t.agents[i], w, cfg, clk);
    case Swap(i, mem, disk) => SwapLeases(s, i, mem, disk, cfg, clk);
    case Operate(op, w) => OperateLeases(s, op, w, cfg, clk);
    case StartPump(i, pump) => PumpLeases(s, i, pump);
    case _ => IdleLeases(s, t, act.i, t.agents[act.i]);
  }

  // ---- the registry invariant ----

  lemma StoreStep(s: State, act: Action, cfg: Config, clk: Clock)
    requires GoodClock(clk) && GoodConfig(cfg) && Inv(s.store.mem, cfg, clk(s.store.tick))
             && Step(s, act, cfg, clk).Some?
    ensures var t := Step(s, act, cfg, clk).value; Inv(t.store.mem, cfg, clk(t.store.tick))
  {
    hide GoodClock, Inv, Admissible, Apply, After, Release;
    match act
    case Acquire(i, p, c, mint, w) => StepKeepsInv(s.store, cfg, clk, ResolveOp(p, c, true, mint), w);
    case GiveBack(i, w) =>
      var l := At(s, i).lease;
      ApplyIsRelease(s.store, cfg, clk, ReleaseOp(l.principal, l.conversation), w);
      StepKeepsInv(s.store, cfg, clk, ReleaseOp(l.principal, l.conversation), w);
    case Operate(op, w) => StepKeepsInv(s.store, cfg, clk, op, w);
    case _ => FailedKept(s.store.mem, cfg, clk(s.store.tick), true, s.store.mem.failed);
  }

  lemma QuietStep(s: State, act: Action, cfg: Config, clk: Clock)
    requires Exclusive(s) && Counted(s) && QuietAgents(s) && QuietClosed(s) && Step(s, act, cfg, clk).Some?
    ensures var t := Step(s, act, cfg, clk).value; QuietAgents(t) && QuietClosed(t)
  {
    hide Exclusive, Counted, Step;
    if Single(act) {
      hide QuietAgents, QuietClosed;
      SingleKeepsOpen(s, act, cfg, clk);
      SingleKeepsClosed(s, act, cfg, clk);
    } else {
      OtherKeepsQuiet(s, act, cfg, clk);
    }
  }

  lemma OtherKeepsQuiet(s: State, act: Action, cfg: Config, clk: Clock)
    requires QuietAgents(s) && QuietClosed(s) && Step(s, act, cfg, clk).Some? && !Single(act)
    ensures var t := Step(s, act, cfg, clk).value; QuietAgents(t) && QuietClosed(t)
  {
    hide Apply, Admissible;
    StepClosed(s, act, cfg, clk);
    var t := Step(s, act, cfg, clk).value;
    if s.store.mem.closed && !s.complete {
      var j :| j in s.agents && s.agents[j].Completing?;
      assert j in t.agents && t.agents[j] == s.agents[j];
    }
  }

  /** Every step of every agent keeps the invariant. */
  lemma HandlerStep(s: State, act: Action, cfg: Config, clk: Clock)
    requires GoodClock(clk) && GoodConfig(cfg) && HandlerInv(s, cfg, clk) && Step(s, act, cfg, clk).Some?
    ensures HandlerInv(Step(s, act, cfg, clk).value, cfg, clk)
  {
    StoreStep(s, act, cfg, clk);
    ExclusiveStep(s, act, cfg, clk);
    CountedStep(s, act, cfg, clk);
    QuietStep(s, act, cfg, clk);
    LeasesStep(s, act, cfg, clk);
    WakeupStep(s, act, cfg, clk);
    hide *;
  }

  // ---- whole runs ----

  /** Actions that are not enabled do nothing. */
  ghost function Run(s: State, acts: seq<Action>, cfg: Config, clk: Clock): State {
    if acts == [] then s
    else
      var before := Run(s, acts[..|acts| - 1], cfg, clk);
      match Step(before, acts[|acts| - 1], cfg, clk)
      case None => before
      case Some(after) => after
  }

  lemma RunsOn(s: State, acts: seq<Action>, a: Action, cfg: Config, clk: Clock)
    ensures var before := Run(s, acts, cfg, clk);
            Run(s, acts + [a], cfg, clk) == match Step(before, a, cfg, clk) case None => before case Some(t) => t
  {
    assert (acts + [a])[..|acts|] == acts;
  }

  lemma PutTwice(s: State, i: nat, a: Agent, b: Agent)
    ensures Put(Put(s, i, a), i, b) == Put(s, i, b)
  {
    assert s.agents[i := a][i := b] == s.agents[i := b];
  }

  /** A step of a call on its way in. */
  lemma CallMoves(s: State, i: nat, at: Agent, acts: seq<Action>, from: State, cfg: Config, clk: Clock)
    requires Run(from, acts, cfg, clk) == Put(s, i, at)
    requires at in {Arriving, WantsRead, Entered, Gone}
    ensures var next := match at
                        case Arriving => if s.requested then Gone else WantsRead
                        case WantsRead => if NoWriter(Put(s, i, WantsRead)) then Entered else WantsRead
                        case Entered => if s.requested then Leaving else Admitted
                        case _ => Gone;
            Run(from, acts + [Move(i)], cfg, clk) == Put(s, i, next)
  {
    hide NoWriter, LockFree, Run;
    RunsOn(from, acts, Move(i), cfg, clk);
    forall b ensures Put(Put(s, i, at), i, b) == Put(s, i, b) { PutTwice(s, i, at, b); }
  }

  /** A call by itself: turned away once a shutdown is requested, else let in unless a writer is there. */
  lemma CallGetsIn(s: State, i: nat, cfg: Config, clk: Clock)
    requires i !in s.agents
    ensures Run(s, [Arrive(i), Move(i), Move(i), Move(i)], cfg, clk)
            == s.(agents := s.agents[i := if s.requested then Gone else if NoWriter(s) then Admitted else WantsRead])
  {
    hide NoWriter, LockFree, Run;
    var one, two, three := [Arrive(i)], [Arrive(i), Move(i)], [Arrive(i), Move(i), Move(i)];
    assert [] + one == one && one + [Move(i)] == two && two + [Move(i)] == three;
    assert three + [Move(i)] == [Arrive(i), Move(i), Move(i), Move(i)];
    Starts(s, i, cfg, clk);
    CallMoves(s, i, Arriving, one, s, cfg, clk);
    var second := if s.requested then Gone else WantsRead;
    CallMoves(s, i, second, two, s, cfg, clk);
    NewcomerIsNoWriter(s, Put(s, i, WantsRead), i);
    CallMoves(s, i, if s.requested then Gone else if NoWriter(s) then Entered else WantsRead, three, s, cfg, clk);
  }

  lemma Starts(s: State, i: nat, cfg: Config, clk: Clock)
    requires i !in s.agents
    ensures Run(s, [Arrive(i)], cfg, clk) == Put(s, i, Arriving)
  {
    RunsOn(s, [], Arrive(i), cfg, clk);
    assert [] + [Arrive(i)] == [Arrive(i)];
  }

  lemma NewcomerIsNoWriter(s: State, t: State, i: nat)
    requires i !in s.agents && t.agents == s.agents[i := WantsRead]
    ensures NoWriter(t) <==> NoWriter(s)
  {
    forall j | j in s.agents ensures j in t.agents && t.agents[j] == s.agents[j] {}
  }

  /** A pump that has given its lease back: the last one after a request, and no other, goes on to drain. */
  lemma StreamFinishes(s: State, i: nat, cfg: Config, clk: Clock)
    requires At(s, i) == Released
    ensures Run(s, [Move(i), Move(i)], cfg, clk)
            == s.(active := s.active - 1,
                  agents := s.agents[i := if s.active == 1 && s.requested then WantsLock(Drain) else Gone])
  {
    hide NoWriter, LockFree, Run;
    RunsOn(s, [], Move(i), cfg, clk);
    RunsOn(s, [Move(i)], Move(i), cfg, clk);
    NotBegun(s, cfg, clk);
    assert [] + [Move(i)] == [Move(i)] && [Move(i)] + [Move(i)] == [Move(i), Move(i)];
    var last := Deciding(s.active == 1);
    PutTwice(s.(active := s.active - 1), i, last, if s.active == 1 && s.requested then WantsLock(Drain) else Gone);
  }

  lemma NotBegun(s: State, cfg: Config, clk: Clock)
    ensures Run(s, [], cfg, clk) == s
  {
  }

  /** A handler over a freshly opened registry. */
  ghost predicate Initial(s: State, cfg: Config, clk: Clock) {
    && !s.requested && !s.complete && s.active == 0 && s.agents == map[]
    && Installable(s, s.store.mem, cfg, clk)
  }

  lemma {:induction false} RunsKeepHandler(s: State, acts: seq<Action>, cfg: Config, clk: Clock)
    requires GoodClock(clk) && GoodConfig(cfg) && Initial(s, cfg, clk)
    ensures HandlerInv(Run(s, acts, cfg, clk), cfg, clk)
  {
    hide GoodClock, HandlerInv, Initial, Step;
    if acts == [] {
      InitialInv(s, cfg, clk);
    } else {
      var init, last := acts[..|acts| - 1], acts[|acts| - 1];
      RunsKeepHandler(s, init, cfg, clk);
      if Step(Run(s, init, cfg, clk), last, cfg, clk).Some? {
        HandlerStep(Run(s, init, cfg, clk), last, cfg, clk);
      }
    }
  }

  lemma InitialInv(s: State, cfg: Config, clk: Clock)
    requires Initial(s, cfg, clk)
    ensures HandlerInv(s, cfg, clk)
  {
    hide Inv, KeyOf;
    CountNone(s.agents, Counts);
    forall key ensures KeyKept(s.store.mem, s.agents, key) {
      CountNone(s.agents, HoldersOf(key));
    }
  }

  /**
    Shutdown drains: under every interleaving a closed registry has no admitted call, no live
    stream and no handler lease, and unless it had failed no lease at all.
   */
  lemma ClosedOnlyWhenDrained(s: State, acts: seq<Action>, cfg: Config, clk: Clock)
    requires GoodClock(clk) && GoodConfig(cfg) && Initial(s, cfg, clk)
    ensures var t := Run(s, acts, cfg, clk);
            (t.complete ==> t.store.mem.closed) &&
            (t.store.mem.closed ==>
               && t.requested && t.active == 0
               && (forall i :: i in t.agents ==> !t.agents[i].Admitted? && !Holds(t.agents[i]) && !Counts(t.agents[i]))
               && (!t.store.mem.failed ==> forall key :: LeasesOf(t.store.mem, key) == 0))
  {
    hide GoodClock, Initial, Inv, Exclusive, NoLostWakeup, Run, KeyOf;
    RunsKeepHandler(s, acts, cfg, clk);
    var t := Run(s, acts, cfg, clk);
    if t.store.mem.closed {
      forall i | i in t.agents ensures !Counts(t.agents[i]) {
        CountZero(t.agents, Counts, i);
      }
      forall key ensures !t.store.mem.failed ==> LeasesOf(t.store.mem, key) == 0 {
        CountNone(t.agents, HoldersOf(key));
        assert KeyKept(t.store.mem, t.agents, key);
      }
    }
  }

  /** Nobody is left who would look at the drain again, and no stream is live. */
  ghost predicate Settled(s: State) {
    forall i :: i in s.agents ==> !Counts(s.agents[i]) && !WillDrain(s.agents[i])
  }

  /** No wakeup is lost: once a shutdown was requested and everybody has settled, it is complete. */
  lemma ShutdownCompletes(s: State, acts: seq<Action>, cfg: Config, clk: Clock)
    requires GoodClock(clk) && GoodConfig(cfg) && Initial(s, cfg, clk)
    requires var t := Run(s, acts, cfg, clk); t.requested && Settled(t)
    ensures Run(s, acts, cfg, clk).complete
  {
    hide GoodClock, Initial, Inv, Exclusive, LeasesKept, Run, QuietAgents, QuietClosed;
    RunsKeepHandler(s, acts, cfg, clk);
    CountNone(Run(s, acts, cfg, clk).agents, Counts);
  }

  /**
    A dispatch holds what it was given: its registry is the current one, still open, and still maps
    its conversation to the same session; leases and holders agree while no write has failed.
   */
  lemma LeasesHold(s: State, acts: seq<Action>, cfg: Config, clk: Clock, i: nat)
    requires GoodClock(clk) && GoodConfig(cfg) && Initial(s, cfg, clk)
    requires var t := Run(s, acts, cfg, clk); i in t.agents && Holds(t.agents[i])
    ensures var t := Run(s, acts, cfg, clk);
            var l := t.agents[i].lease;
            && l.inst == t.inst && !t.store.mem.closed && !t.complete
            && Named(t.store.mem, l) && t.store.mem.entries[LeaseKey(l)].state == Active
            && LeasesOf(t.store.mem, LeaseKey(l)) >= Count(t.agents, HoldersOf(LeaseKey(l))) >= 1
            && (!t.store.mem.failed ==> forall key :: LeasesOf(t.store.mem, key) == Count(t.agents, HoldersOf(key)))
  {
    hide GoodClock, Initial, Inv, Exclusive, NoLostWakeup, Run, KeyOf, Count;
    RunsKeepHandler(s, acts, cfg, clk);
    var t := Run(s, acts, cfg, clk);
    var key := LeaseKey(t.agents[i].lease);
    assert KeyKept(t.store.mem, t.agents, key);
    CountPositive(t.agents, HoldersOf(key), i);
    LeasedIsActive(t.store.mem, cfg, clk(t.store.tick), key);
    forall k ensures !t.store.mem.failed ==> LeasesOf(t.store.mem, k) == Count(t.agents, HoldersOf(k)) {
      assert KeyKept(t.store.mem, t.agents, k);
    }
  }
}
