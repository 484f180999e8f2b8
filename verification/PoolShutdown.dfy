/** What becomes of the elastic pool once threadPoolDestroy has set shutdown: which accesses, waits
    and steps are still to come, and exactly when every waiting thread is let go. */
module PoolShutdown {
  import opened Sums
  import opened TaskRing
  import opened ElasticPool

  // ------------------------------------------------------------ the ring stops

  /** A thread past its shutdown test, which may still touch the ring once. */
  ghost function Pending(s: State): nat {
    match s.holder
    case Worker(t) => if t in s.workers && s.workers[t].Taking? then 1 else 0
    case Producer(j) => if j < |s.producers| && s.producers[j].Putting? then 1 else 0
    case _ => 0
  }

  ghost predicate RingSlows(s: State, n: State) {
    && n.pool.shutdown
    && |n.accepted| + n.taken + Pending(n) <= |s.accepted| + s.taken + Pending(s)
    && |s.accepted| <= |n.accepted| && s.taken <= n.taken
  }

  lemma RingStep(s: State, e: Event)
    requires LockInv(s) && s.pool.shutdown && Enabled(s, e)
    ensures RingSlows(s, Next(s, e))
  {
    match e
    case WorkerStep(t) => WorkerRingStep(s, t);
    case ProducerStep(j) => ProducerRingStep(s, j);
    case ManagerStep(newTid) => ManagerRingStep(s, newTid);
    case _ => OtherRingStep(s, e);
  }

  lemma WorkerRingStep(s: State, t: Tid)
    requires LockInv(s) && s.pool.shutdown && Enabled(s, WorkerStep(t))
    ensures RingSlows(s, WorkerNext(s, t))
  {
    hide FirstSlot;
  }

  lemma ProducerRingStep(s: State, j: nat)
    requires LockInv(s) && s.pool.shutdown && Enabled(s, ProducerStep(j))
    ensures RingSlows(s, ProducerNext(s, j))
  {
  }

  lemma ManagerRingStep(s: State, newTid: Tid)
    requires LockInv(s) && s.pool.shutdown && Enabled(s, ManagerStep(newTid))
    ensures RingSlows(s, ManagerNext(s, newTid))
  {
  }

  lemma OtherRingStep(s: State, e: Event)
    requires LockInv(s) && s.pool.shutdown && Enabled(s, e)
    requires !e.WorkerStep? && !e.ProducerStep? && !e.ManagerStep?
    ensures RingSlows(s, Next(s, e))
  {
  }

  /** Setting shutdown, although without the lock, stops the ring: from then on at most one more
      task is put or taken, by the one thread that had already passed its test. The tasks still
      queued are never run. */
  lemma {:induction false} ShutdownStopsRing(s: State, es: seq<Event>)
    requires Inv(s) && s.pool.shutdown && Possible(s, es)
    ensures var t := Run(s, es);
            && t.pool.shutdown
            && |t.accepted| + t.taken + Pending(t) <= |s.accepted| + s.taken + Pending(s)
            && |s.accepted| <= |t.accepted| && s.taken <= t.taken
    decreases |es|
  {
    hide Enabled, Next, Pending;
    if es != [] {
      StepKeepsInv(s, es[0]);
      hide Inv;
      RingStep(s, es[0]);
      ShutdownStopsRing(Next(s, es[0]), es[1..]);
    }
  }

  lemma AfterShutdown(s: State, es: seq<Event>)
    requires Reachable(s) && s.pool.shutdown && Possible(s, es)
    ensures |Run(s, es).accepted| + Run(s, es).taken <= |s.accepted| + s.taken + 1
  {
    ReachableInv(s);
    ShutdownStopsRing(s, es);
  }

  // ------------------------------------------------------------- waiting stops

  /** A worker or producer that read shutdown unset, and holds the lock on its way into the wait. */
  ghost function PendingWait(s: State): nat {
    match s.holder
    case Worker(t) => if t in s.workers && s.workers[t].AboutToWait? then 1 else 0
    case Producer(j) => if j < |s.producers| && s.producers[j].AboutToBlock? then 1 else 0
    case _ => 0
  }

  /** Somebody waits in n who did not wait in s. */
  ghost predicate BeginsToWait(s: State, n: State) {
    || (exists t :: t in n.workers && n.workers[t].Asleep? && !(t in s.workers && s.workers[t].Asleep?))
    || (exists j: nat :: j < |n.producers| && n.producers[j].Blocked?
          && !(j < |s.producers| && s.producers[j].Blocked?))
  }

  lemma WaitStep(s: State, e: Event)
    requires LockInv(s) && s.pool.shutdown && Enabled(s, e)
    ensures Next(s, e).pool.shutdown
    ensures Bit(BeginsToWait(s, Next(s, e))) + PendingWait(Next(s, e)) <= PendingWait(s)
  {
    match e
    case WorkerStep(t) => WorkerWaitStep(s, t);
    case ProducerStep(j) => ProducerWaitStep(s, j);
    case ManagerStep(newTid) => ManagerWaitStep(s, newTid);
    case Signal(ringer, woken) => SignalWaitStep(s, ringer, woken);
    case _ => OtherWaitStep(s, e);
  }

  lemma WorkerWaitStep(s: State, t: Tid)
    requires LockInv(s) && s.pool.shutdown && Enabled(s, WorkerStep(t))
    ensures WorkerNext(s, t).pool.shutdown
    ensures Bit(BeginsToWait(s, WorkerNext(s, t))) + PendingWait(WorkerNext(s, t)) <= PendingWait(s)
  {
    hide FirstSlot;
  }

  lemma ProducerWaitStep(s: State, j: nat)
    requires LockInv(s) && s.pool.shutdown && Enabled(s, ProducerStep(j))
    ensures ProducerNext(s, j).pool.shutdown
    ensures Bit(BeginsToWait(s, ProducerNext(s, j))) + PendingWait(ProducerNext(s, j)) <= PendingWait(s)
  {
  }

  lemma ManagerWaitStep(s: State, newTid: Tid)
    requires LockInv(s) && s.pool.shutdown && Enabled(s, ManagerStep(newTid))
    ensures ManagerNext(s, newTid).pool.shutdown
    ensures Bit(BeginsToWait(s, ManagerNext(s, newTid))) + PendingWait(ManagerNext(s, newTid)) <= PendingWait(s)
  {
  }

  lemma SignalWaitStep(s: State, ringer: Agent, woken: Agent)
    requires LockInv(s) && s.pool.shutdown && Enabled(s, Signal(ringer, woken))
    ensures var n := Next(s, Signal(ringer, woken));
            n.pool.shutdown && Bit(BeginsToWait(s, n)) + PendingWait(n) <= PendingWait(s)
  {
  }

  lemma OtherWaitStep(s: State, e: Event)
    requires LockInv(s) && s.pool.shutdown && Enabled(s, e)
    requires !e.WorkerStep? && !e.ProducerStep? && !e.ManagerStep? && !e.Signal?
    ensures Next(s, e).pool.shutdown
    ensures Bit(BeginsToWait(s, Next(s, e))) + PendingWait(Next(s, e)) <= PendingWait(s)
  {
  }

  /** How often a thread begins to wait in a run. */
  ghost function WaitsBegun(s: State, es: seq<Event>): nat
    requires Possible(s, es)
    decreases |es|
  {
    if es == [] then 0 else Bit(BeginsToWait(s, Next(s, es[0]))) + WaitsBegun(Next(s, es[0]), es[1..])
  }

  /** After shutdown at most one thread still begins to wait, and only if it held the lock and had
      read shutdown before it was set. That one may wait for ever: ShutdownSignalLost. */
  lemma {:induction false} ShutdownStopsWaiting(s: State, es: seq<Event>)
    requires Inv(s) && s.pool.shutdown && Possible(s, es)
    ensures WaitsBegun(s, es) + PendingWait(Run(s, es)) <= PendingWait(s) <= 1
    decreases |es|
  {
    hide Enabled, Next, BeginsToWait;
    if es != [] {
      StepKeepsInv(s, es[0]);
      WaitStep(s, es[0]);
      hide Inv, PendingWait;
      ShutdownStopsWaiting(Next(s, es[0]), es[1..]);
    }
  }

  // ------------------------------------------------------------ every run ends

  function WorkerCost(w: WorkerPhase): nat {
    match w
    case Gone(_) => 0
    case Closing => 1
    case Retiring => 1
    case ShutdownTest => 2
    case LoopTest => 3
    case Start => 4
    case RetireTest => 4
    case Waking => 5
    case Ran => 5
    case Asleep => 6
    case Running(_, _) => 6
    case AboutToWait => 7
    case Taken(_, _) => 7
    case Signalling(_, _) => 8
    case Taking => 9
  }

  function ProducerCost(r: ProducerPhase): nat {
    match r
    case Returned => 0
    case Notifying => 1
    case Putting(_) => 2
    case ProducerCheck(_) => 3
    case SizeTest(_) => 4
    case Calling(_) => 5
    case Unblocked(_) => 5
    case Blocked(_) => 6
    case AboutToBlock(_) => 7
  }

  /** A creation is paid for with 6: the new worker costs 4, one more signal costs 2. */
  function ManagerCost(m: ManagerPhase, max: nat): nat {
    match m
    case Over => 0
    case Idle => 1
    case Rousing(n) => 2 + Left(n, NUM)
    case Shrinking => 3 + NUM
    case ShrinkTest(_, _) => 4 + NUM
    case Growing(_, _, i, cnt) => 5 + NUM + Left(i, max) + 6 * Left(cnt, NUM)
    case GrowLock(_, _) => 6 + NUM + max + 6 * NUM
    case GrowTest(_, _, _) => 7 + NUM + max + 6 * NUM
    case SamplingBusy(_, _) => 8 + NUM + max + 6 * NUM
    case Sampling => 9 + NUM + max + 6 * NUM
  }

  function DestroyerCost(d: DestroyerPhase, live: int): nat {
    match d
    case Destroyed => 0
    case Counting(i) => 1 + 2 * Left(i, live)
    case Ringing(i) => 2 + 2 * Left(i + 1, live)
    case Joining => 2 + 2 * Left(0, live)
    case Serving => 3 + 2 * Left(0, live)
  }

  /** The passes left of a loop that stands at i and ends at n. */
  function Left(i: nat, n: int): nat { if i < n then n - i else 0 }

  ghost function WorkersCost(ws: map<Tid, WorkerPhase>): nat {
    if ws == map[] then 0 else
      var t :| t in ws;
      WorkerCost(ws[t]) + WorkersCost(ws - {t})
  }

  lemma {:induction false} AnyWorkerFirst(ws: map<Tid, WorkerPhase>, t: Tid)
    requires t in ws
    ensures WorkersCost(ws) == WorkerCost(ws[t]) + WorkersCost(ws - {t})
    decreases |ws|
  {
    var u :| u in ws && WorkersCost(ws) == WorkerCost(ws[u]) + WorkersCost(ws - {u});
    if u != t {
      AnyWorkerFirst(ws - {u}, t);
      AnyWorkerFirst(ws - {t}, u);
      assert ws - {u} - {t} == ws - {t} - {u};
    }
  }

  lemma CostOfUpdate(ws: map<Tid, WorkerPhase>, t: Tid, w: WorkerPhase)
    ensures WorkersCost(ws[t := w]) + (if t in ws then WorkerCost(ws[t]) else 0) == WorkersCost(ws) + WorkerCost(w)
  {
    AnyWorkerFirst(ws[t := w], t);
    assert ws[t := w] - {t} == ws - {t};
    if t in ws { AnyWorkerFirst(ws, t); } else { assert ws - {t} == ws; }
  }

  ghost function Cost(s: State): nat {
    WorkersCost(s.workers) + Sum(s.producers, ProducerCost)
      + ManagerCost(s.manager, Left(0, s.pool.maxNum)) + DestroyerCost(s.destroyer, s.pool.liveNum)
  }

  /** Once shutdown is set, every step of every thread brings the end nearer: of workers, producers,
      the manager, who may still create threads, and the destroyer, whose loop follows liveNum. */
  lemma ShutdownStepCosts(s: State, e: Event)
    requires s.pool.shutdown && Enabled(s, e)
    ensures Next(s, e).pool.shutdown && Cost(Next(s, e)) < Cost(s)
  {
    hide WorkersCost;
    match e
    case WorkerStep(t) => WorkerStepCosts(s, t);
    case WorkerWake(t) => AwokenCosts(s, Worker(t));
    case ProducerStep(j) => ProducerStepCosts(s, j);
    case ProducerWake(j) => AwokenCosts(s, Producer(j));
    case ManagerStep(newTid) => ManagerStepCosts(s, newTid);
    case Signal(ringer, woken) =>
      SignalCosts(s, ringer);
      AwokenCosts(AfterSignal(s, ringer), woken);
    case DestroyerStep =>
    case Shutdown =>
  }

  lemma WorkerStepCosts(s: State, t: Tid)
    requires s.pool.shutdown && Enabled(s, WorkerStep(t))
    ensures var n := WorkerNext(s, t); n.pool.shutdown && Cost(n) < Cost(s)
  {
    WorkerStepPays(s, t);
    CostOfUpdate(s.workers, t, WorkerNext(s, t).workers[t]);
    hide WorkerNext, WorkersCost, WorkerCost;
  }

  lemma WorkerStepPays(s: State, t: Tid)
    requires s.pool.shutdown && Enabled(s, WorkerStep(t))
    ensures var n := WorkerNext(s, t);
            && n.pool.shutdown && n.pool.maxNum == s.pool.maxNum && n.pool.liveNum <= s.pool.liveNum
            && n.manager == s.manager && n.producers == s.producers && n.destroyer == s.destroyer
            && n.workers == s.workers[t := n.workers[t]]
            && WorkerCost(n.workers[t]) < WorkerCost(s.workers[t])
  {
    hide FirstSlot;
  }

  lemma AwokenCosts(s: State, woken: Agent)
    requires woken.Worker? ==> woken.t in s.workers && s.workers[woken.t].Asleep?
    requires woken.Producer? ==> woken.j < |s.producers| && s.producers[woken.j].Blocked?
    ensures var n := Awoken(s, woken);
            n.pool == s.pool && Cost(n) == Cost(s) - Bit(woken.Worker? || woken.Producer?)
  {
    hide WorkersCost;
    match woken
    case Worker(t) => CostOfUpdate(s.workers, t, Waking);
    case Producer(j) => SumUpdate(s.producers, ProducerCost, j, Unblocked(s.producers[j].job));
    case _ =>
  }

  lemma SignalCosts(s: State, ringer: Agent)
    requires Rings(s, ringer)
    ensures var n := AfterSignal(s, ringer); n.pool == s.pool && Cost(n) < Cost(s)
  {
    hide WorkersCost;
    match ringer
    case Worker(t) => CostOfUpdate(s.workers, t, AfterSignal(s, ringer).workers[t]);
    case Producer(j) => SumUpdate(s.producers, ProducerCost, j, Returned);
    case _ =>
  }

  lemma ProducerStepCosts(s: State, j: nat)
    requires s.pool.shutdown && Enabled(s, ProducerStep(j))
    ensures var n := ProducerNext(s, j); n.pool.shutdown && Cost(n) < Cost(s)
  {
    SumUpdate(s.producers, ProducerCost, j, ProducerNext(s, j).producers[j]);
  }

  lemma ManagerStepCosts(s: State, newTid: Tid)
    requires s.pool.shutdown && Enabled(s, ManagerStep(newTid))
    ensures var n := ManagerNext(s, newTid); n.pool.shutdown && Cost(n) < Cost(s)
  {
    ManagerStepPays(s, newTid);
    CostOfUpdate(s.workers, newTid, Start);
    hide WorkersCost, Sum, ManagerNext, ManagerCost, DestroyerCost, Enabled;
  }

  lemma ManagerStepPays(s: State, newTid: Tid)
    requires s.pool.shutdown && Enabled(s, ManagerStep(newTid))
    ensures var n, max := ManagerNext(s, newTid), Left(0, s.pool.maxNum);
            && n.pool.shutdown && n.pool.maxNum == s.pool.maxNum && n.producers == s.producers
            && (n.workers == s.workers || (newTid !in s.workers && n.workers == s.workers[newTid := Start]))
            && ManagerCost(n.manager, max) + DestroyerCost(n.destroyer, n.pool.liveNum)
               + (if n.workers == s.workers then 0 else WorkerCost(Start))
               < ManagerCost(s.manager, max) + DestroyerCost(s.destroyer, s.pool.liveNum)
  {
  }

  /** Shutdown ends every run: it has at most Cost steps more, whatever the schedule. */
  lemma {:induction false} ShutdownRunEnds(s: State, es: seq<Event>)
    requires s.pool.shutdown && Possible(s, es)
    ensures |es| + Cost(Run(s, es)) <= Cost(s)
    decreases |es|
  {
    hide Enabled, Next, Cost;
    if es != [] {
      ShutdownStepCosts(s, es[0]);
      ShutdownRunEnds(Next(s, es[0]), es[1..]);
    }
  }

  // ------------------------------------------------------- where the runs end

  /** Steps a thread takes by itself, its signals included; not new calls, not spurious wakeups. */
  ghost predicate OwnStep(s: State, e: Event) {
    match e
    case WorkerWake(_) => false
    case ProducerWake(_) => false
    case ProducerStep(j) => j < |s.producers| && !s.producers[j].Calling?
    case Shutdown => false
    case _ => true
  }

  ghost predicate Moves(s: State, e: Event) { Enabled(s, e) && OwnStep(s, e) }

  ghost predicate CanMove(s: State) {
    exists e :: Moves(s, e)
  }

  /** A thread about to signal can do so, whether or not anybody waits. */
  lemma SignalMoves(s: State, ringer: Agent) returns (e: Event)
    requires Rings(s, ringer)
    ensures e.Signal? && e.ringer == ringer && Moves(s, e)
  {
    var woken := Nobody;
    if ringer.Worker? && SomeBlocked(s.producers) {
      var j :| 0 <= j < |s.producers| && s.producers[j].Blocked?;
      woken := Producer(j);
    } else if !ringer.Worker? && SomeAsleep(s.workers) {
      var t :| t in s.workers && s.workers[t].Asleep?;
      woken := Worker(t);
    }
    e := Signal(ringer, woken);
  }

  /** Who the event belongs to. */
  ghost function ActorOf(e: Event): Agent {
    match e
    case WorkerStep(t) => Worker(t)
    case WorkerWake(t) => Worker(t)
    case ProducerStep(j) => Producer(j)
    case ProducerWake(j) => Producer(j)
    case ManagerStep(_) => Manager
    case Signal(ringer, _) => ringer
    case _ => Destroyer
  }

  /** The holder of mutexPool can always go on. */
  lemma HolderMoves(s: State) returns (e: Event)
    requires Inv(s) && s.holder != Nobody
    ensures Moves(s, e) && ActorOf(e) == s.holder
  {
    hide CountInv, TicketInv, CoverInv, DestroyInv;
    match s.holder
    case Worker(t) =>
      if s.workers[t].Signalling? { e := SignalMoves(s, s.holder); } else { e := WorkerStep(t); }
    case Producer(j) =>
      if s.producers[j].Notifying? { e := SignalMoves(s, s.holder); } else { e := ProducerStep(j); }
    case Manager =>
      var newTid := UnusedTid(s.workers.Keys);
      e := ManagerStep(newTid);
    case Destroyer => assert false;
    case Nobody =>
  }

  lemma {:induction false} UnusedTid(used: set<Tid>) returns (t: Tid)
    ensures t > 0 && forall u :: u in used ==> u < t
  {
    if used == {} {
      t := 1;
    } else {
      var u :| u in used;
      t := UnusedTid(used - {u});
      t := if u < t then t else u + 1;
      assert forall v :: v in used ==> v == u || v in used - {u};
    }
  }

  /** Where nobody moves by itself any more the lock is free, the manager is out, the destroyer is
      past its loop, and every thread left behind is in pthread_cond_wait. */
  lemma ShutdownLeavesWaiters(s: State)
    requires Reachable(s) && s.pool.shutdown && !CanMove(s)
    ensures s.holder == Nobody && s.manager.Over? && s.destroyer.Destroyed?
    ensures forall t :: t in s.workers ==> s.workers[t].Asleep? || s.workers[t].Gone?
    ensures forall j: nat :: j < |s.producers| ==>
      s.producers[j].Calling? || s.producers[j].Blocked? || s.producers[j].Returned?
  {
    ReachableInv(s);
    StuckWaits(s);
  }

  lemma StuckWaits(s: State)
    requires Inv(s) && s.pool.shutdown && !CanMove(s)
    ensures s.holder == Nobody && s.manager.Over? && s.destroyer.Destroyed?
    ensures forall t :: t in s.workers ==> s.workers[t].Asleep? || s.workers[t].Gone?
    ensures forall j: nat :: j < |s.producers| ==>
      s.producers[j].Calling? || s.producers[j].Blocked? || s.producers[j].Returned?
  {
    if s.holder != Nobody { var e := HolderMoves(s); }
    hide QueueInv, TestInv, CountInv, SlotInv, TicketInv, CoverInv;
    if Rings(s, Manager) { var e := SignalMoves(s, Manager); }
    if Rings(s, Destroyer) { var e := SignalMoves(s, Destroyer); }
    assert !Moves(s, ManagerStep(1)) && !Moves(s, DestroyerStep);
    forall t | t in s.workers ensures s.workers[t].Asleep? || s.workers[t].Gone? {
      assert !Moves(s, WorkerStep(t));
    }
    forall j: nat | j < |s.producers|
      ensures s.producers[j].Calling? || s.producers[j].Blocked? || s.producers[j].Returned?
    {
      assert !Moves(s, ProducerStep(j));
    }
  }

  // ------------------------------------------------- runs of own steps

  ghost predicate AllMove(s: State, es: seq<Event>)
    decreases |es|
  {
    es == [] || (Moves(s, es[0]) && AllMove(Next(s, es[0]), es[1..]))
  }

  /** Letting the threads run on by themselves comes to an end. */
  lemma {:induction false} RunOn(s: State) returns (es: seq<Event>)
    requires s.pool.shutdown
    ensures Possible(s, es) && AllMove(s, es) && !CanMove(Run(s, es))
    decreases Cost(s)
  {
    hide Enabled, Next, Cost, OwnStep;
    es := [];
    if CanMove(s) {
      var e :| Moves(s, e);
      ShutdownStepCosts(s, e);
      var rest := RunOn(Next(s, e));
      es := [e] + rest;
      assert es[1..] == rest;
    }
  }

  // ------------------------------------------------------ blocked producers

  function IsBlocked(r: ProducerPhase): nat { if r.Blocked? then 1 else 0 }

  /** A take that is still to come or still to be signalled. */
  ghost function TakeSignal(s: State): nat {
    match s.holder
    case Worker(t) => if t in s.workers && (s.workers[t].Taking? || s.workers[t].Signalling?) then 1 else 0
    case _ => 0
  }

  ghost predicate StillToBlock(s: State) {
    s.holder.Producer? && s.holder.j < |s.producers| && s.producers[s.holder.j].AboutToBlock?
  }

  /** A producer is about to block, or more of them are blocked than takes are still signalled. */
  ghost predicate StrandsProducer(s: State) {
    StillToBlock(s) || Sum(s.producers, IsBlocked) > TakeSignal(s)
  }

  /** After shutdown a step strands no producer, and no thread's own step rescues one. */
  lemma StrandingStep(s: State, e: Event)
    requires LockInv(s) && s.pool.shutdown && Enabled(s, e)
    ensures StrandsProducer(Next(s, e)) ==> StrandsProducer(s)
    ensures StrandsProducer(s) && OwnStep(s, e) ==> StrandsProducer(Next(s, e))
  {
    hide Sum;
    match e
    case WorkerStep(t) => WorkerStrandingStep(s, t);
    case ProducerStep(j) => ProducerStrandingStep(s, j);
    case ProducerWake(j) =>
      SumUpdate(s.producers, IsBlocked, j, Unblocked(s.producers[j].job));
    case Signal(ringer, woken) => SignalStrandingStep(s, ringer, woken);
    case _ => OtherStrandingStep(s, e);
  }

  lemma WorkerStrandingStep(s: State, t: Tid)
    requires LockInv(s) && s.pool.shutdown && Enabled(s, WorkerStep(t))
    ensures StrandsProducer(WorkerNext(s, t)) <==> StrandsProducer(s)
  {
    hide Sum, FirstSlot;
  }

  lemma ProducerStrandingStep(s: State, j: nat)
    requires LockInv(s) && s.pool.shutdown && Enabled(s, ProducerStep(j))
    ensures StrandsProducer(ProducerNext(s, j)) <==> StrandsProducer(s)
  {
    SumUpdate(s.producers, IsBlocked, j, ProducerNext(s, j).producers[j]);
    hide Sum;
  }

  lemma SignalStrandingStep(s: State, ringer: Agent, woken: Agent)
    requires LockInv(s) && s.pool.shutdown && Enabled(s, Signal(ringer, woken))
    ensures StrandsProducer(Next(s, Signal(ringer, woken))) <==> StrandsProducer(s)
  {
    if ringer.Producer? { SumUpdate(s.producers, IsBlocked, ringer.j, Returned); }
    if woken.Producer? {
      SumUpdate(s.producers, IsBlocked, woken.j, Unblocked(s.producers[woken.j].job));
    } else if ringer.Worker? {
      NoneBlocked(s.producers);
    }
    hide Sum;
  }

  lemma OtherStrandingStep(s: State, e: Event)
    requires LockInv(s) && Enabled(s, e)
    requires e.WorkerWake? || e.ManagerStep? || e.DestroyerStep? || e.Shutdown?
    ensures StrandsProducer(Next(s, e)) <==> StrandsProducer(s)
  {
    hide Sum;
  }

  lemma {:induction false} NoneBlocked(rs: seq<ProducerPhase>)
    ensures Sum(rs, IsBlocked) > 0 <==> SomeBlocked(rs)
  {
    if rs != [] {
      NoneBlocked(rs[1..]);
      if SomeBlocked(rs[1..]) {
        var j :| 0 <= j < |rs[1..]| && rs[1..][j].Blocked?;
        assert rs[j + 1].Blocked?;
      }
      if SomeBlocked(rs) && !rs[0].Blocked? {
        var j :| 0 <= j < |rs| && rs[j].Blocked?;
        assert rs[1..][j - 1].Blocked?;
      }
    }
  }

  lemma {:induction false} StrandingRun(s: State, es: seq<Event>)
    requires Inv(s) && s.pool.shutdown && Possible(s, es)
    ensures StrandsProducer(Run(s, es)) ==> StrandsProducer(s)
    ensures StrandsProducer(s) && AllMove(s, es) ==> StrandsProducer(Run(s, es))
    decreases |es|
  {
    hide Enabled, Next, StrandsProducer, OwnStep;
    if es != [] {
      StepKeepsInv(s, es[0]);
      WaitStep(s, es[0]);
      StrandingStep(s, es[0]);
      hide Inv;
      StrandingRun(Next(s, es[0]), es[1..]);
    }
  }

  ghost predicate AlwaysFreesProducers(s: State) {
    forall es :: Possible(s, es) && !CanMove(Run(s, es)) ==> !SomeBlocked(Run(s, es).producers)
  }

  /** threadPoolDestroy never signals notFull. From any moment after shutdown on, every run ends
      with no producer blocked exactly when none is about to block and no more are blocked than
      the one take that may still be under way will wake. */
  lemma FreesProducersIff(s: State)
    requires Reachable(s) && s.pool.shutdown
    ensures AlwaysFreesProducers(s) <==> !StrandsProducer(s)
  {
    ReachableInv(s);
    hide Inv, StrandsProducer;
    if StrandsProducer(s) {
      var es := RunOn(s);
      StrandingRun(s, es);
      StrandedIffBlocked(s, es);
    } else {
      forall es | Possible(s, es) && !CanMove(Run(s, es)) ensures !SomeBlocked(Run(s, es).producers) {
        StrandingRun(s, es);
        StrandedIffBlocked(s, es);
      }
    }
  }

  lemma StrandedIffBlocked(s: State, es: seq<Event>)
    requires Inv(s) && s.pool.shutdown && Possible(s, es) && !CanMove(Run(s, es))
    ensures StrandsProducer(Run(s, es)) <==> SomeBlocked(Run(s, es).producers)
  {
    hide Sum, IsBlocked, Enabled, Next, CanMove;
    RunKeepsInv(s, es);
    ShutdownStopsRing(s, es);
    hide Inv;
    StuckWaits(Run(s, es));
    NoneBlocked(Run(s, es).producers);
  }

  // ------------------------------------------------------- sleeping workers

  ghost function Sleepers(ws: map<Tid, WorkerPhase>): set<Tid> {
    set t | t in ws && ws[t].Asleep?
  }

  /** Workers back from waiting that have yet to make the retire check. */
  ghost function Returning(ws: map<Tid, WorkerPhase>): set<Tid> {
    set t | t in ws && (ws[t].Waking? || ws[t].RetireTest?)
  }

  /** threadPoolDestroy has joined the manager. */
  ghost predicate Ending(s: State) {
    s.pool.shutdown && s.manager.Over? && !s.destroyer.Serving? && !s.destroyer.Joining?
  }

  ghost predicate StillToSleep(s: State) {
    s.holder.Worker? && s.holder.t in s.workers && s.workers[s.holder.t].AboutToWait?
  }

  /** A put that is still to come or still to be signalled. */
  ghost function PutSignal(s: State): nat {
    match s.holder
    case Producer(j) => if j < |s.producers| && (s.producers[j].Putting? || s.producers[j].Notifying?) then 1 else 0
    case _ => 0
  }

  /** How many more workers can retire while one of those asleep stays asleep. */
  ghost function CanRetire(s: State): int {
    Min(s.pool.exitNum, Min(s.pool.liveNum - s.pool.minNum, |Sleepers(s.workers)| - 1 + |Returning(s.workers)|))
  }

  /** The destroyer's loop can come to its end with a worker asleep: signals for all sleepers but
      one, together with the retirements that lower liveNum meanwhile, reach liveNum. */
  ghost predicate OutrunsLoop(s: State, i: nat) {
    i + |Sleepers(s.workers)| - PutSignal(s) - 1 + CanRetire(s) >= s.pool.liveNum
  }

  ghost predicate StrandsWorker(s: State) {
    var sleepers := |Sleepers(s.workers)|;
    || StillToSleep(s)
    || match s.destroyer
       case Counting(i) => sleepers > PutSignal(s) && OutrunsLoop(s, i)
       case Ringing(i) => sleepers > PutSignal(s) + 1 && OutrunsLoop(s, i)
       case _ => sleepers > PutSignal(s)
  }

  lemma MovedAsleep(ws: map<Tid, WorkerPhase>, t: Tid, w: WorkerPhase)
    requires t in ws
    ensures |Sleepers(ws[t := w])| - |Sleepers(ws)| == Bit(w.Asleep?) - Bit(ws[t].Asleep?)
  {
    var r := ws[t := w];
    assert Sleepers(r) - {t} == Sleepers(ws) - {t};
    OneElement(Sleepers(r), t);
    OneElement(Sleepers(ws), t);
  }

  lemma MovedReturning(ws: map<Tid, WorkerPhase>, t: Tid, w: WorkerPhase)
    requires t in ws
    ensures |Returning(ws[t := w])| - |Returning(ws)|
         == Bit(w.Waking? || w.RetireTest?) - Bit(ws[t].Waking? || ws[t].RetireTest?)
  {
    var r := ws[t := w];
    assert Returning(r) - {t} == Returning(ws) - {t};
    OneElement(Returning(r), t);
    OneElement(Returning(ws), t);
  }

  lemma MovedSleeper(ws: map<Tid, WorkerPhase>, t: Tid, w: WorkerPhase)
    requires t in ws
    ensures var r := ws[t := w];
            && |Sleepers(r)| - |Sleepers(ws)| == Bit(w.Asleep?) - Bit(ws[t].Asleep?)
            && |Returning(r)| - |Returning(ws)|
               == Bit(w.Waking? || w.RetireTest?) - Bit(ws[t].Waking? || ws[t].RetireTest?)
  {
    MovedAsleep(ws, t, w);
    MovedReturning(ws, t, w);
  }

  lemma SomeSleeper(ws: map<Tid, WorkerPhase>)
    ensures |Sleepers(ws)| > 0 <==> SomeAsleep(ws)
  {
    if SomeAsleep(ws) {
      var t :| t in ws && ws[t].Asleep?;
      OneElement(Sleepers(ws), t);
    } else {
      assert Sleepers(ws) == {};
    }
  }

  lemma SomeReturning(ws: map<Tid, WorkerPhase>) returns (t: Tid)
    requires |Returning(ws)| > 0
    ensures t in ws && (ws[t].Waking? || ws[t].RetireTest?)
  {
    t :| t in Returning(ws);
  }

  /** After shutdown no step strands a worker. */
  lemma FreeingStep(s: State, e: Event)
    requires Inv(s) && Ending(s) && Enabled(s, e) && !StrandsWorker(s)
    ensures Ending(Next(s, e)) && !StrandsWorker(Next(s, e))
  {
    hide QueueInv, TestInv, SlotInv, TicketInv, CoverInv;
    match e
    case WorkerStep(t) => WorkerFreeingStep(s, t);
    case ProducerStep(j) => ProducerSleepStep(s, j);
    case Signal(ringer, woken) => SignalSleepStep(s, ringer, woken);
    case WorkerWake(t) =>
      MovedSleeper(s.workers, t, Waking);
      hide Sleepers, Returning;
    case ProducerWake(j) => hide Sleepers, Returning;
    case DestroyerStep => hide Sleepers, Returning;
  }

  lemma WorkerFreeingStep(s: State, t: Tid)
    requires LockInv(s) && CountInv(s) && Ending(s) && Enabled(s, WorkerStep(t)) && !StrandsWorker(s)
    ensures Ending(WorkerNext(s, t)) && !StrandsWorker(WorkerNext(s, t))
  {
    MovedSleeper(s.workers, t, WorkerNext(s, t).workers[t]);
    hide Sleepers, Returning, FirstSlot, Counted, Busy;
    if s.workers[t].RetireTest? { RetiringFreeingStep(s, t); }
  }

  /** A retirement lowers liveNum and the number of retirements still possible together. */
  lemma RetiringFreeingStep(s: State, t: Tid)
    requires LockInv(s) && CountInv(s) && Ending(s) && Enabled(s, WorkerStep(t)) && !StrandsWorker(s)
    requires s.workers[t].RetireTest?
    ensures Ending(WorkerNext(s, t)) && !StrandsWorker(WorkerNext(s, t))
  {
    MovedSleeper(s.workers, t, WorkerNext(s, t).workers[t]);
    hide Sleepers, Returning, FirstSlot, Counted, Busy;
  }

  lemma ProducerSleepStep(s: State, j: nat)
    requires LockInv(s) && Ending(s) && Enabled(s, ProducerStep(j))
    ensures Ending(ProducerNext(s, j)) && (StrandsWorker(ProducerNext(s, j)) <==> StrandsWorker(s))
  {
    hide Sleepers, Returning;
  }

  lemma SignalSleepStep(s: State, ringer: Agent, woken: Agent)
    requires LockInv(s) && Ending(s) && Enabled(s, Signal(ringer, woken))
    ensures var n := Next(s, Signal(ringer, woken)); Ending(n) && (StrandsWorker(n) <==> StrandsWorker(s))
  {
    var m := AfterSignal(s, ringer);
    if ringer.Worker? { MovedSleeper(s.workers, ringer.t, m.workers[ringer.t]); }
    if woken.Worker? { MovedSleeper(m.workers, woken.t, Waking); }
    if woken.Nobody? && !ringer.Worker? { SomeSleeper(s.workers); }
    hide Sleepers, Returning;
  }

  lemma {:induction false} FreeingRun(s: State, es: seq<Event>)
    requires Inv(s) && Ending(s) && Possible(s, es) && !StrandsWorker(s)
    ensures Ending(Run(s, es)) && !StrandsWorker(Run(s, es))
    decreases |es|
  {
    hide Enabled, Next, StrandsWorker, Ending;
    if es != [] {
      StepKeepsInv(s, es[0]);
      FreeingStep(s, es[0]);
      hide Inv;
      FreeingRun(Next(s, es[0]), es[1..]);
    }
  }

  // Conversely, as long as a worker can be stranded, the schedule below keeps it so: the destroyer
  // goes on while it has sleepers to spare, otherwise whoever brings the next retirement nearer.

  lemma CountingMove(s: State, i: nat)
    requires CountInv(s) && Ending(s) && StrandsWorker(s) && s.destroyer == Counting(i)
    requires StillToSleep(s) || i >= s.pool.liveNum || |Sleepers(s.workers)| > PutSignal(s) + 1
    ensures Ending(DestroyerNext(s)) && StrandsWorker(DestroyerNext(s))
  {
    hide Sleepers, Returning, Counted, Busy;
  }

  lemma WorkerRetiringMove(s: State, i: nat, t: Tid)
    requires LockInv(s) && CountInv(s) && Ending(s) && StrandsWorker(s) && Enabled(s, WorkerStep(t))
    requires s.destroyer == Counting(i) && i < s.pool.liveNum && !StillToSleep(s)
    requires |Sleepers(s.workers)| == 1 && PutSignal(s) == 0
    ensures Ending(WorkerNext(s, t)) && StrandsWorker(WorkerNext(s, t))
  {
    MovedSleeper(s.workers, t, WorkerNext(s, t).workers[t]);
    hide Sleepers, Returning, FirstSlot, Counted, Busy;
  }

  lemma WorkerStrandedMove(s: State, t: Tid)
    requires LockInv(s) && Ending(s) && StrandsWorker(s) && Enabled(s, WorkerStep(t)) && s.destroyer.Destroyed?
    ensures Ending(WorkerNext(s, t)) && StrandsWorker(WorkerNext(s, t))
  {
    MovedSleeper(s.workers, t, WorkerNext(s, t).workers[t]);
    hide Sleepers, Returning, FirstSlot;
  }

  lemma RetiringMove(s: State, i: nat) returns (e: Event)
    requires Inv(s) && Ending(s) && StrandsWorker(s) && s.destroyer == Counting(i) && i < s.pool.liveNum
    requires !StillToSleep(s) && |Sleepers(s.workers)| <= PutSignal(s) + 1
    ensures Moves(s, e) && Ending(Next(s, e)) && StrandsWorker(Next(s, e))
  {
    hide QueueInv, TestInv, SlotInv, TicketInv, CoverInv, Sleepers, Returning;
    if s.holder == Nobody {
      var t := SomeReturning(s.workers);
      e := WorkerStep(t);
    } else {
      e := HolderMoves(s);
    }
    hide OutrunsLoop, StrandsWorker;
    match e
    case WorkerStep(t) => WorkerRetiringMove(s, i, t);
    case ProducerStep(j) => ProducerSleepStep(s, j);
    case Signal(ringer, woken) => SignalSleepStep(s, ringer, woken);
  }

  /** While a worker can be stranded, some thread has a step of its own after which it still can. */
  lemma StrandingMove(s: State) returns (e: Event)
    requires Inv(s) && Ending(s) && CanMove(s) && StrandsWorker(s)
    ensures Moves(s, e) && Ending(Next(s, e)) && StrandsWorker(Next(s, e))
  {
    hide QueueInv, TestInv, SlotInv, TicketInv, CoverInv, StrandsWorker;
    match s.destroyer
    case Ringing(_) =>
      e := SignalMoves(s, Destroyer);
      SignalSleepStep(s, Destroyer, e.woken);
    case Counting(i) =>
      if StillToSleep(s) || i >= s.pool.liveNum || |Sleepers(s.workers)| > PutSignal(s) + 1 {
        e := DestroyerStep;
        CountingMove(s, i);
      } else {
        e := RetiringMove(s, i);
      }
    case Destroyed =>
      e :| Moves(s, e);
      match e
      case WorkerStep(t) => WorkerStrandedMove(s, t);
      case ProducerStep(j) => ProducerSleepStep(s, j);
      case Signal(ringer, woken) => SignalSleepStep(s, ringer, woken);
  }

  lemma {:induction false} StrandingSchedule(s: State) returns (es: seq<Event>)
    requires Inv(s) && Ending(s) && StrandsWorker(s)
    ensures Possible(s, es) && AllMove(s, es) && !CanMove(Run(s, es)) && SomeAsleep(Run(s, es).workers)
    decreases Cost(s)
  {
    hide Enabled, Next, OwnStep, Cost, SomeAsleep, StrandsWorker, Inv, Ending;
    es := [];
    if CanMove(s) {
      var e := StrandingMove(s);
      StepKeepsInv(s, e);
      EndingShut(s);
      ShutdownStepCosts(s, e);
      var rest := StrandingSchedule(Next(s, e));
      es := [e] + rest;
      assert es[1..] == rest;
    } else {
      StrandedAtEnd(s);
    }
  }

  lemma EndingShut(s: State)
    requires Ending(s)
    ensures s.pool.shutdown
  {
  }

  lemma StrandedAtEnd(s: State)
    requires Inv(s) && Ending(s) && !CanMove(s)
    ensures StrandsWorker(s) <==> SomeAsleep(s.workers)
    ensures SomeAsleep(s.workers) <==> !AllOut(s)
  {
    hide CanMove, Sleepers;
    StuckWaits(s);
    hide Inv;
    SomeSleeper(s.workers);
  }

  ghost predicate AllOut(s: State) {
    forall t :: t in s.workers ==> s.workers[t].Gone?
  }

  ghost predicate AlwaysFreesWorkers(s: State) {
    forall es :: Possible(s, es) && !CanMove(Run(s, es)) ==> AllOut(Run(s, es))
  }

  /** From any moment of the destroyer's loop on, every run ends with all workers out exactly when
      no worker is about to sleep and the loop cannot be outrun. */
  lemma FreesWorkersIff(s: State)
    requires Reachable(s) && Ending(s)
    ensures AlwaysFreesWorkers(s) <==> !StrandsWorker(s)
  {
    ReachableInv(s);
    hide Inv, StrandsWorker, Ending, AllOut;
    if StrandsWorker(s) {
      var es := StrandingSchedule(s);
      RunKeepsInv(s, es);
      EndingRun(s, es);
      StrandedAtEnd(Run(s, es));
    } else {
      forall es | Possible(s, es) && !CanMove(Run(s, es)) ensures AllOut(Run(s, es)) {
        RunKeepsInv(s, es);
        FreeingRun(s, es);
        StrandedAtEnd(Run(s, es));
      }
    }
  }

  lemma {:induction false} EndingRun(s: State, es: seq<Event>)
    requires Ending(s) && Possible(s, es)
    ensures Ending(Run(s, es))
    decreases |es|
  {
    hide Enabled, Next, Ending;
    if es != [] {
      EndingStep(s, es[0]);
      EndingRun(Next(s, es[0]), es[1..]);
    }
  }

  lemma EndingStep(s: State, e: Event)
    requires Ending(s) && Enabled(s, e)
    ensures Ending(Next(s, e))
  {
    hide FirstSlot;
  }

  ghost predicate OnlySleepers(ws: map<Tid, WorkerPhase>) {
    forall t :: t in ws ==> ws[t].Asleep? || ws[t] == Gone(true)
  }

  /** In particular: if nobody is between test and wait when the signals begin, all workers get out
      unless some of them may retire; and with all of them asleep, two or more, one may indeed be
      left whenever one may retire. */
  lemma SignalsReachAll(s: State)
    requires Reachable(s) && s.destroyer == Counting(0) && !StillToSleep(s)
    ensures s.pool.exitNum == 0 || s.pool.liveNum == s.pool.minNum ==> AlwaysFreesWorkers(s)
    ensures s.holder == Nobody && OnlySleepers(s.workers) ==>
      (AlwaysFreesWorkers(s)
       <==> s.pool.exitNum == 0 || s.pool.liveNum == s.pool.minNum || s.pool.liveNum < 2)
  {
    ReachableInv(s);
    FreesWorkersIff(s);
    assert Sleepers(s.workers) <= Counted(s.workers);
    SubsetSize(Sleepers(s.workers), Counted(s.workers));
    if OnlySleepers(s.workers) {
      assert Sleepers(s.workers) == Counted(s.workers);
      assert Returning(s.workers) == {};
    }
    hide AlwaysFreesWorkers, QueueInv, TestInv, SlotInv, TicketInv, CoverInv, Sleepers, Counted, Returning;
  }
}
