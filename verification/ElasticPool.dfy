/** The elastic pool as a protocol: producers, workers that may retire, the manager and the thread
    that destroys the pool interleave between any two accesses of shared data that one lock does
    not join, tests and the waits after them included. shutdown, liveNum and the slots are read and
    written without the lock where the source does so; only threadExit's search is one step. */
module ElasticPool {
  import opened Sums
  import opened TaskRing

  datatype WorkerPhase =
    | Start                            // about to lock mutexPool
    | LoopTest                         // holds it, at the head of the waiting loop
    | AboutToWait                      // holds it, found the queue empty and shutdown unset
    | Asleep                           // in pthread_cond_wait
    | Waking                           // woken, about to lock again
    | RetireTest                       // holds it, just back from waiting
    | ShutdownTest                     // holds it, past the waiting loop
    | Taking                           // holds it, about to read the ring
    | Signalling(ticket: nat, task: Task) // holds it, about to signal notFull
    | Taken(ticket: nat, task: Task)   // not yet counted in busyNum
    | Running(ticket: nat, task: Task) // counted
    | Ran                              // task over, still counted
    | Retiring                         // liveNum already lowered, slot not yet cleared
    | Closing                          // saw shutdown, slot not yet cleared
    | Gone(retired: bool)

  datatype ProducerPhase =
    | Calling(job: Task)
    | SizeTest(job: Task)              // holds mutexPool, at the head of the waiting loop
    | AboutToBlock(job: Task)          // holds it, found the queue full and shutdown unset
    | Blocked(job: Task)               // in pthread_cond_wait
    | Unblocked(job: Task)
    | ProducerCheck(job: Task)         // holds it, about to test shutdown
    | Putting(job: Task)               // holds it, about to write the ring
    | Notifying                        // holds it, about to signal notEmpty
    | Returned

  /** The numbers are the manager's own copies of queueSize, liveNum and busyNum. */
  datatype ManagerPhase =
    | Idle
    | Sampling
    | SamplingBusy(size: int, live: int)
    | GrowTest(size: int, live: int, busy: int)
    | GrowLock(live: int, busy: int)
    | Growing(live: int, busy: int, i: nat, cnt: nat)   // holds mutexPool
    | ShrinkTest(live: int, busy: int)
    | Shrinking
    | Rousing(n: nat)                  // has signalled notEmpty n times
    | Over

  /** The thread in threadPoolDestroy. */
  datatype DestroyerPhase =
    | Serving                          // not yet called
    | Joining                          // shutdown is set, waits for the manager to end
    | Counting(i: nat)                 // about to compare i with liveNum, without the lock
    | Ringing(i: nat)                  // about to signal notEmpty
    | Destroyed                        // past its loop

  datatype Agent = Nobody | Worker(t: Tid) | Producer(j: nat) | Manager | Destroyer

  /** accepted, taken and finished only record what happened: the tasks put into the ring, how
      many were taken out, and which have run to completion (by place in accepted). */
  datatype State = State(
    pool: Pool,
    holder: Agent,
    workers: map<Tid, WorkerPhase>,
    producers: seq<ProducerPhase>,
    manager: ManagerPhase,
    destroyer: DestroyerPhase,
    accepted: seq<Task>,
    taken: nat,
    finished: seq<(nat, Task)>)

  /** A signal wakes one of the threads that wait on its condition, woken, if there is any; a
      waiting thread may also wake by itself at any moment. newTid is the id the next created
      thread gets. Shutdown is the beginning of threadPoolDestroy, which is called at most once. */
  datatype Event =
    | WorkerStep(t: Tid)
    | WorkerWake(t: Tid)
    | ProducerStep(j: nat)
    | ProducerWake(j: nat)
    | ManagerStep(newTid: Tid)
    | DestroyerStep
    | Signal(ringer: Agent, woken: Agent)
    | Shutdown

  /** The workers 1 to n, each about to begin. */
  function Started(n: nat): (ws: map<Tid, WorkerPhase>)
    ensures forall t :: t in ws <==> 0 < t <= n
    ensures forall t :: t in ws ==> ws[t] == Start
  {
    if n == 0 then map[] else Started(n - 1)[n := Start]
  }

  /** The pool as threadPoolCreate leaves it, with the threadPoolAdd calls still to come. */
  function Init(min: nat, max: nat, ring: seq<Task>, jobs: seq<Task>): State {
    State(InitPool(min, max, ring), Nobody,
          Started(min),
          seq(|jobs|, j requires 0 <= j < |jobs| => Calling(jobs[j])),
          Idle, Serving, [], 0, [])
  }

  predicate Locks(w: WorkerPhase) { w.Start? || w.Waking? }

  predicate WorkerHolds(w: WorkerPhase) {
    w.LoopTest? || w.AboutToWait? || w.RetireTest? || w.ShutdownTest? || w.Taking? || w.Signalling?
  }

  predicate ProducerLocks(r: ProducerPhase) { r.Calling? || r.Unblocked? }

  predicate ProducerHolds(r: ProducerPhase) {
    r.SizeTest? || r.AboutToBlock? || r.ProducerCheck? || r.Putting? || r.Notifying?
  }

  /** The pass of the manager's loop creates a thread in slot i. */
  predicate Creates(p: Pool, i: nat) {
    i < |p.threadIDs| && p.threadIDs[i] == 0
  }

  /** Loop condition of the manager's growing loop. */
  predicate KeepsGrowing(p: Pool, i: nat, cnt: nat) {
    i < p.maxNum && cnt < NUM && p.liveNum < p.maxNum
  }

  /** Who is about to signal: a worker notFull, the others notEmpty. */
  predicate Rings(s: State, ringer: Agent) {
    match ringer
    case Nobody => false
    case Worker(t) => t in s.workers && s.workers[t].Signalling?
    case Producer(j) => j < |s.producers| && s.producers[j].Notifying?
    case Manager => s.manager.Rousing? && s.manager.n < NUM
    case Destroyer => s.destroyer.Ringing?
  }

  predicate SomeAsleep(ws: map<Tid, WorkerPhase>) {
    exists t :: t in ws && ws[t].Asleep?
  }

  predicate SomeBlocked(rs: seq<ProducerPhase>) {
    exists j :: 0 <= j < |rs| && rs[j].Blocked?
  }

  /** A signal is lost only if nobody waits. */
  predicate MayWake(s: State, ringer: Agent, woken: Agent) {
    match woken
    case Worker(t) => !ringer.Worker? && t in s.workers && s.workers[t].Asleep?
    case Producer(j) => ringer.Worker? && j < |s.producers| && s.producers[j].Blocked?
    case Nobody => if ringer.Worker? then !SomeBlocked(s.producers) else !SomeAsleep(s.workers)
    case _ => false
  }

  /** Accesses to the ring and to the slots are part of Enabled only when they are in bounds;
      MemorySafe below shows that this never holds a thread up. */
  predicate Enabled(s: State, e: Event) {
    match e
    case WorkerStep(t) =>
      t in s.workers && !s.workers[t].Asleep? && !s.workers[t].Gone? && !s.workers[t].Signalling?
      && (Locks(s.workers[t]) ==> s.holder == Nobody)
      && (s.workers[t].Taking? ==> s.pool.queueFront < |s.pool.taskQ| && s.pool.queueCapacity > 0)
    case WorkerWake(t) => t in s.workers && s.workers[t].Asleep?
    case ProducerStep(j) =>
      j < |s.producers| && !s.producers[j].Blocked? && !s.producers[j].Returned? && !s.producers[j].Notifying?
      && (ProducerLocks(s.producers[j]) ==> s.holder == Nobody)
      && (s.producers[j].Putting? ==> s.pool.queueRear < |s.pool.taskQ| && s.pool.queueCapacity > 0)
    case ProducerWake(j) => j < |s.producers| && s.producers[j].Blocked?
    case ManagerStep(newTid) =>
      !s.manager.Over? && !Rings(s, Manager)
      && (s.manager.Sampling? || s.manager.GrowLock? || s.manager.Shrinking? ==> s.holder == Nobody)
      && (s.manager.Growing? && KeepsGrowing(s.pool, s.manager.i, s.manager.cnt) ==>
            s.manager.i < |s.pool.threadIDs| && newTid > 0 && newTid !in s.workers)
    case DestroyerStep => s.destroyer.Counting? || (s.destroyer.Joining? && s.manager.Over?)
    case Signal(ringer, woken) => Rings(s, ringer) && MayWake(s, ringer, woken)
    case Shutdown => s.destroyer.Serving?
  }

  function WorkerNext(s: State, t: Tid): State
    requires Enabled(s, WorkerStep(t))
  {
    var p := s.pool;
    match s.workers[t]
    case Start => s.(holder := Worker(t), workers := s.workers[t := LoopTest])
    case Waking => s.(holder := Worker(t), workers := s.workers[t := RetireTest])
    case LoopTest =>
      if p.queueSize == 0 && !p.shutdown
      then s.(workers := s.workers[t := AboutToWait])
      else s.(workers := s.workers[t := ShutdownTest])
    case AboutToWait => s.(holder := Nobody, workers := s.workers[t := Asleep])
    case RetireTest =>
      if Retires(p)
      then s.(pool := RetireCheck(p), holder := Nobody, workers := s.workers[t := Retiring])
      else s.(pool := RetireCheck(p), workers := s.workers[t := LoopTest])
    case ShutdownTest =>
      if p.shutdown
      then s.(holder := Nobody, workers := s.workers[t := Closing])
      else s.(workers := s.workers[t := Taking])
    case Taking =>
      s.(pool := Take(p), taken := s.taken + 1,
         workers := s.workers[t := Signalling(s.taken, p.taskQ[p.queueFront])])
    case Taken(k, task) =>
      s.(pool := p.(busyNum := p.busyNum + 1), workers := s.workers[t := Running(k, task)])
    case Running(k, task) =>
      s.(finished := s.finished + [(k, task)], workers := s.workers[t := Ran])
    case Ran =>
      s.(pool := p.(busyNum := p.busyNum - 1), workers := s.workers[t := Start])
    case w =>
      s.(pool := Vacate(p, t), workers := s.workers[t := Gone(w.Retiring?)])
  }

  function ProducerNext(s: State, j: nat): State
    requires Enabled(s, ProducerStep(j))
  {
    var p := s.pool;
    match s.producers[j]
    case SizeTest(job) =>
      if p.queueSize == p.queueCapacity && !p.shutdown
      then s.(producers := s.producers[j := AboutToBlock(job)])
      else s.(producers := s.producers[j := ProducerCheck(job)])
    case AboutToBlock(job) => s.(holder := Nobody, producers := s.producers[j := Blocked(job)])
    case ProducerCheck(job) =>
      if p.shutdown
      then s.(holder := Nobody, producers := s.producers[j := Returned])
      else s.(producers := s.producers[j := Putting(job)])
    case Putting(job) =>
      s.(pool := Put(p, job), accepted := s.accepted + [job], producers := s.producers[j := Notifying])
    case Calling(job) => s.(holder := Producer(j), producers := s.producers[j := SizeTest(job)])
    case Unblocked(job) => s.(holder := Producer(j), producers := s.producers[j := SizeTest(job)])
  }

  function ManagerNext(s: State, newTid: Tid): State
    requires Enabled(s, ManagerStep(newTid))
  {
    var p := s.pool;
    match s.manager
    case Idle => s.(manager := if p.shutdown then Over else Sampling)
    case Sampling => s.(manager := SamplingBusy(p.queueSize, p.liveNum))
    case SamplingBusy(size, live) => s.(manager := GrowTest(size, live, p.busyNum))
    case GrowTest(size, live, busy) =>
      s.(manager := if size > live && live < p.maxNum then GrowLock(live, busy) else ShrinkTest(live, busy))
    case GrowLock(live, busy) => s.(holder := Manager, manager := Growing(live, busy, 0, 0))
    case Growing(live, busy, i, cnt) =>
      if !KeepsGrowing(p, i, cnt) then s.(holder := Nobody, manager := ShrinkTest(live, busy))
      else if Creates(p, i) then
        s.(pool := GrowAt(p, i, newTid), workers := s.workers[newTid := Start],
           manager := Growing(live, busy, i + 1, cnt + 1))
      else s.(manager := Growing(live, busy, i + 1, cnt))
    case ShrinkTest(live, busy) =>
      s.(manager := if busy * 2 < live && live > p.minNum then Shrinking else Idle)
    case Shrinking => s.(pool := p.(exitNum := NUM), manager := Rousing(0))
    case _ => s.(manager := Idle)
  }

  function DestroyerNext(s: State): State
    requires Enabled(s, DestroyerStep)
  {
    match s.destroyer
    case Counting(i) => s.(destroyer := if i < s.pool.liveNum then Ringing(i) else Destroyed)
    case _ => s.(destroyer := Counting(0))
  }

  function Awoken(s: State, woken: Agent): State
    requires woken.Worker? ==> woken.t in s.workers
    requires woken.Producer? ==> woken.j < |s.producers| && s.producers[woken.j].Blocked?
  {
    match woken
    case Worker(t) => s.(workers := s.workers[t := Waking])
    case Producer(j) => s.(producers := s.producers[j := Unblocked(s.producers[j].job)])
    case _ => s
  }

  function AfterSignal(s: State, ringer: Agent): State
    requires Rings(s, ringer)
  {
    match ringer
    case Worker(t) =>
      s.(holder := Nobody, workers := s.workers[t := Taken(s.workers[t].ticket, s.workers[t].task)])
    case Producer(j) => s.(holder := Nobody, producers := s.producers[j := Returned])
    case Manager => s.(manager := Rousing(s.manager.n + 1))
    case Destroyer => s.(destroyer := Counting(s.destroyer.i + 1))
  }

  function Next(s: State, e: Event): State
    requires Enabled(s, e)
  {
    match e
    case WorkerStep(t) => WorkerNext(s, t)
    case WorkerWake(t) => Awoken(s, Worker(t))
    case ProducerStep(j) => ProducerNext(s, j)
    case ProducerWake(j) => Awoken(s, Producer(j))
    case ManagerStep(newTid) => ManagerNext(s, newTid)
    case DestroyerStep => DestroyerNext(s)
    case Signal(ringer, woken) => Awoken(AfterSignal(s, ringer), woken)
    case Shutdown => s.(pool := s.pool.(shutdown := true), destroyer := Joining)
  }

  predicate Possible(s: State, es: seq<Event>)
    decreases |es|
  {
    es == [] || (Enabled(s, es[0]) && Possible(Next(s, es[0]), es[1..]))
  }

  function Run(s: State, es: seq<Event>): State
    requires Possible(s, es)
    decreases |es|
  {
    if es == [] then s else Run(Next(s, es[0]), es[1..])
  }

  // -------------------------------------------------------------- invariants

  /** mutexPool: exactly the thread inside a critical section holds it. */
  ghost predicate LockInv(s: State) {
    && (forall t :: t in s.workers ==> (WorkerHolds(s.workers[t]) <==> s.holder == Worker(t)))
    && (forall j: nat :: j < |s.producers| ==> (ProducerHolds(s.producers[j]) <==> s.holder == Producer(j)))
    && (s.manager.Growing? <==> s.holder == Manager)
    && (s.holder.Worker? ==> s.holder.t in s.workers)
    && (s.holder.Producer? ==> s.holder.j < |s.producers|)
    && s.holder != Destroyer
  }

  /** The ring holds what was accepted and not yet taken, in order. */
  ghost predicate QueueInv(s: State) {
    RingOk(s.pool) && s.taken <= |s.accepted| && Contents(s.pool) == s.accepted[s.taken..]
  }

  /** What a thread past a test may rely on, although shutdown can be set at any moment. */
  ghost predicate TestInv(s: State) {
    && (forall t :: t in s.workers && s.workers[t].ShutdownTest? ==> s.pool.queueSize != 0 || s.pool.shutdown)
    && (forall t :: t in s.workers && s.workers[t].Taking? ==> s.pool.queueSize != 0)
    && (forall t :: t in s.workers && s.workers[t].AboutToWait? ==> s.pool.queueSize == 0)
    && (forall j: nat :: j < |s.producers| && s.producers[j].ProducerCheck? ==>
          s.pool.queueSize != s.pool.queueCapacity || s.pool.shutdown)
    && (forall j: nat :: j < |s.producers| && s.producers[j].Putting? ==> s.pool.queueSize != s.pool.queueCapacity)
    && (forall j: nat :: j < |s.producers| && s.producers[j].AboutToBlock? ==>
          s.pool.queueSize == s.pool.queueCapacity)
    && (forall t :: t in s.workers && (s.workers[t].Closing? || s.workers[t] == Gone(false)) ==> s.pool.shutdown)
  }

  /** The workers that liveNum counts: all but those that lowered it. */
  ghost function Counted(ws: map<Tid, WorkerPhase>): set<Tid> {
    set t | t in ws && !ws[t].Retiring? && ws[t] != Gone(true)
  }

  ghost function Busy(ws: map<Tid, WorkerPhase>): set<Tid> {
    set t | t in ws && (ws[t].Running? || ws[t].Ran?)
  }

  ghost function Present(ws: map<Tid, WorkerPhase>): set<Tid> {
    set t | t in ws && !ws[t].Gone?
  }

  ghost function RetiringOnes(ws: map<Tid, WorkerPhase>): set<Tid> {
    set t | t in ws && ws[t].Retiring?
  }

  ghost function ClosedOnes(ws: map<Tid, WorkerPhase>): set<Tid> {
    set t | t in ws && ws[t] == Gone(false)
  }

  ghost predicate CountInv(s: State) {
    && s.pool.minNum <= s.pool.liveNum <= s.pool.maxNum
    && s.pool.liveNum == |Counted(s.workers)|
    && 0 <= s.pool.exitNum <= NUM
    && s.pool.busyNum == |Busy(s.workers)|
  }

  ghost predicate SlotInv(s: State) {
    |s.pool.threadIDs| == s.pool.maxNum && SlotsOk(s.pool.threadIDs, Present(s.workers))
  }

  ghost predicate Holding(w: WorkerPhase) { w.Signalling? || w.Taken? || w.Running? }

  ghost predicate IsHeldBy(s: State, t: Tid, k: nat) {
    t in s.workers && Holding(s.workers[t]) && s.workers[t].ticket == k
  }

  ghost predicate IsFinished(s: State, k: nat) {
    exists x :: 0 <= x < |s.finished| && s.finished[x].0 == k
  }

  ghost predicate HeldInv(s: State) {
    && (forall t :: t in s.workers && Holding(s.workers[t]) ==>
          s.workers[t].ticket < s.taken <= |s.accepted| && s.workers[t].task == s.accepted[s.workers[t].ticket])
    && (forall t, u :: t in s.workers && u in s.workers && t != u && Holding(s.workers[t]) && Holding(s.workers[u]) ==>
          s.workers[t].ticket != s.workers[u].ticket)
  }

  ghost predicate FinishedInv(s: State) {
    && (forall x :: 0 <= x < |s.finished| ==>
          s.finished[x].0 < s.taken <= |s.accepted| && s.finished[x].1 == s.accepted[s.finished[x].0])
    && (forall x, y :: 0 <= x < y < |s.finished| ==> s.finished[x].0 != s.finished[y].0)
  }

  ghost predicate ApartInv(s: State) {
    forall t, x :: t in s.workers && Holding(s.workers[t]) && 0 <= x < |s.finished| ==>
      s.workers[t].ticket != s.finished[x].0
  }

  /** Every task taken is held by one worker or finished once, never both, and is the task accepted there. */
  ghost predicate TicketInv(s: State) {
    HeldInv(s) && FinishedInv(s) && ApartInv(s)
  }

  ghost predicate CoverInv(s: State) {
    forall k: nat :: k < s.taken ==> IsFinished(s, k) || exists t :: IsHeldBy(s, t, k)
  }

  /** threadPoolDestroy signals only after the manager has ended. */
  ghost predicate DestroyInv(s: State) {
    && (s.destroyer.Serving? <==> !s.pool.shutdown)
    && (s.destroyer.Serving? || s.destroyer.Joining? || s.manager.Over?)
  }

  ghost predicate Inv(s: State) {
    && LockInv(s) && QueueInv(s) && TestInv(s) && CountInv(s) && SlotInv(s)
    && TicketInv(s) && CoverInv(s) && DestroyInv(s)
  }

  // ------------------------------------------------------- the initial state

  lemma {:induction false} UpTo(n: nat, s: set<nat>)
    requires forall t: nat :: t in s <==> 0 < t <= n
    ensures |s| == n
  {
    if n == 0 {
      assert s == {};
    } else {
      UpTo(n - 1, s - {n});
    }
  }

  lemma {:induction false} Below(n: nat, s: set<nat>)
    requires forall t: nat :: t in s <==> t < n
    ensures |s| == n
  {
    if n == 0 {
      assert s == {};
    } else {
      Below(n - 1, s - {n - 1});
    }
  }

  lemma InitInv(min: nat, max: nat, ring: seq<Task>, jobs: seq<Task>)
    requires min <= max
    ensures Inv(Init(min, max, ring, jobs))
  {
    var s := Init(min, max, ring, jobs);
    UpTo(min, Counted(s.workers));
    UpTo(min, Present(s.workers));
    Below(min, Occupied(s.pool.threadIDs));
    assert Busy(s.workers) == {};
    forall t | t in Present(s.workers) ensures t in s.pool.threadIDs {
      assert s.pool.threadIDs[t - 1] == t;
    }
  }

  // ------------------------------------------------------ every step keeps them

  lemma StepKeepsLock(s: State, e: Event)
    requires LockInv(s) && Enabled(s, e)
    ensures LockInv(Next(s, e))
  {
    hide Put, Take, RetireCheck, Vacate, GrowAt, Retires, LockInv;
    match e
    case WorkerStep(t) => WorkerKeepsLock(s, t);
    case ProducerStep(j) => ProducerKeepsLock(s, j);
    case ManagerStep(newTid) => ManagerKeepsLock(s, newTid);
    case WorkerWake(t) => AwokenKeepsLock(s, Worker(t));
    case ProducerWake(j) => AwokenKeepsLock(s, Producer(j));
    case Signal(ringer, woken) =>
      SignalKeepsLock(s, ringer);
      AwokenKeepsLock(AfterSignal(s, ringer), woken);
    case DestroyerStep => SameHolders(s, Next(s, e));
    case Shutdown => SameHolders(s, Next(s, e));
  }

  lemma WorkerKeepsLock(s: State, t: Tid)
    requires LockInv(s) && Enabled(s, WorkerStep(t))
    ensures LockInv(WorkerNext(s, t))
  {
    hide Put, Take, RetireCheck, Vacate, GrowAt, Retires;
  }

  lemma ManagerKeepsLock(s: State, newTid: Tid)
    requires LockInv(s) && Enabled(s, ManagerStep(newTid))
    ensures LockInv(ManagerNext(s, newTid))
  {
    hide Put, Take, RetireCheck, Vacate, GrowAt, Retires;
  }

  lemma ProducerKeepsLock(s: State, j: nat)
    requires LockInv(s) && Enabled(s, ProducerStep(j))
    ensures LockInv(ProducerNext(s, j))
  {
    hide Put;
  }

  lemma AwokenKeepsLock(s: State, woken: Agent)
    requires LockInv(s)
    requires woken.Worker? ==> woken.t in s.workers && s.workers[woken.t].Asleep?
    requires woken.Producer? ==> woken.j < |s.producers| && s.producers[woken.j].Blocked?
    ensures LockInv(Awoken(s, woken))
  {
  }

  lemma SignalKeepsLock(s: State, ringer: Agent)
    requires LockInv(s) && Rings(s, ringer)
    ensures LockInv(AfterSignal(s, ringer))
  {
  }

  lemma SameHolders(s: State, t: State)
    requires LockInv(s) && t.holder == s.holder
    requires t.workers == s.workers && t.producers == s.producers && t.manager == s.manager
    ensures LockInv(t)
  {
  }

  lemma StepKeepsQueue(s: State, e: Event)
    requires QueueInv(s) && TestInv(s) && Enabled(s, e)
    ensures QueueInv(Next(s, e))
  {
    hide Put, Take, RingOk, Contents, FirstSlot;
    var p, q := s.pool, Next(s, e).pool;
    if e.WorkerStep? && s.workers[e.t].Taking? {
      assert p.queueSize > 0 by { EmptyOrMore(p); }
      TakeRemovesOldest(p);
    } else if e.ProducerStep? && s.producers[e.j].Putting? {
      PutAppends(p, s.producers[e.j].job);
    } else {
      SameRing(p, q);
    }
  }

  lemma EmptyOrMore(p: Pool)
    requires RingOk(p)
    ensures 0 <= p.queueSize <= p.queueCapacity == |p.taskQ|
    ensures p.queueCapacity > 0 ==> p.queueFront < |p.taskQ| && p.queueRear < |p.taskQ|
  {
  }

  lemma StepKeepsTests(s: State, e: Event)
    requires LockInv(s) && TestInv(s) && Enabled(s, e)
    ensures TestInv(Next(s, e))
  {
    hide Put, Take, LockInv, TestInv, FirstSlot;
    match e
    case WorkerStep(t) => WorkerKeepsTests(s, t);
    case WorkerWake(t) => SameRingKeepsTests(s, Next(s, e));
    case ProducerStep(j) => ProducerKeepsTests(s, j);
    case ProducerWake(j) => SameRingKeepsTests(s, Next(s, e));
    case ManagerStep(newTid) => SameRingKeepsTests(s, Next(s, e));
    case DestroyerStep => SameRingKeepsTests(s, Next(s, e));
    case Signal(ringer, woken) => SignalKeepsTests(s, ringer, woken);
    case Shutdown => ShutdownKeepsTests(s);
  }

  lemma SignalKeepsTests(s: State, ringer: Agent, woken: Agent)
    requires TestInv(s) && Enabled(s, Signal(ringer, woken))
    ensures TestInv(Next(s, Signal(ringer, woken)))
  {
    hide TestInv;
    SameRingKeepsTests(s, Next(s, Signal(ringer, woken)));
  }

  predicate Tested(w: WorkerPhase) {
    w.AboutToWait? || w.ShutdownTest? || w.Taking? || w.Closing? || w == Gone(false)
  }

  predicate TestedProducer(r: ProducerPhase) {
    r.AboutToBlock? || r.ProducerCheck? || r.Putting?
  }

  /** Only put, take and shutdown change what the tests look at. */
  lemma SameRingKeepsTests(s: State, t: State)
    requires TestInv(s)
    requires t.pool.queueSize == s.pool.queueSize && t.pool.queueCapacity == s.pool.queueCapacity
    requires t.pool.shutdown == s.pool.shutdown
    requires forall u :: u in t.workers && Tested(t.workers[u]) ==> u in s.workers && t.workers[u] == s.workers[u]
    requires |t.producers| == |s.producers|
    requires forall j: nat :: j < |t.producers| && TestedProducer(t.producers[j]) ==> t.producers[j] == s.producers[j]
    ensures TestInv(t)
  {
  }

  lemma WorkerKeepsTests(s: State, t: Tid)
    requires LockInv(s) && TestInv(s) && Enabled(s, WorkerStep(t))
    ensures TestInv(WorkerNext(s, t))
  {
    if WorkerHolds(s.workers[t]) || s.workers[t].Closing? {
      HolderKeepsTests(s, t);
    } else {
      hide FirstSlot, TestInv, LockInv;
      SameRingKeepsTests(s, WorkerNext(s, t));
    }
  }

  lemma HolderKeepsTests(s: State, t: Tid)
    requires LockInv(s) && TestInv(s) && Enabled(s, WorkerStep(t))
    requires WorkerHolds(s.workers[t]) || s.workers[t].Closing?
    ensures TestInv(WorkerNext(s, t))
  {
    hide FirstSlot;
  }

  lemma ProducerKeepsTests(s: State, j: nat)
    requires LockInv(s) && TestInv(s) && Enabled(s, ProducerStep(j))
    ensures TestInv(ProducerNext(s, j))
  {
  }

  lemma ShutdownKeepsTests(s: State)
    requires TestInv(s) && Enabled(s, Shutdown)
    ensures TestInv(Next(s, Shutdown))
  {
  }

  // ------------------------------------------------------------- the census

  lemma StepKeepsCounts(s: State, e: Event)
    requires CountInv(s) && Enabled(s, e)
    ensures CountInv(Next(s, e))
  {
    hide CountInv, FirstSlot;
    match e
    case WorkerStep(t) => WorkerKeepsCounts(s, t);
    case WorkerWake(t) => AwokenKeepsCounts(s, Worker(t));
    case ManagerStep(newTid) => ManagerKeepsCounts(s, newTid);
    case Signal(ringer, woken) =>
      SignalKeepsCounts(s, ringer);
      AwokenKeepsCounts(AfterSignal(s, ringer), woken);
    case _ => SameCounts(s, Next(s, e));
  }

  lemma WorkerKeepsCounts(s: State, t: Tid)
    requires CountInv(s) && Enabled(s, WorkerStep(t))
    ensures CountInv(WorkerNext(s, t))
  {
    MovedWorker(s.workers, t, WorkerNext(s, t).workers[t]);
    hide FirstSlot, Counted, Busy;
    CountedBits(s.workers, t);
    CountedBits(WorkerNext(s, t).workers, t);
  }

  lemma CountedBits(ws: map<Tid, WorkerPhase>, t: Tid)
    requires t in ws
    ensures t in Counted(ws) <==> !ws[t].Retiring? && ws[t] != Gone(true)
    ensures t in Busy(ws) <==> ws[t].Running? || ws[t].Ran?
  {
  }

  lemma AwokenKeepsCounts(s: State, woken: Agent)
    requires CountInv(s)
    requires woken.Worker? ==> woken.t in s.workers && s.workers[woken.t].Asleep?
    requires woken.Producer? ==> woken.j < |s.producers| && s.producers[woken.j].Blocked?
    ensures CountInv(Awoken(s, woken))
  {
    if woken.Worker? { MovedWorker(s.workers, woken.t, Waking); }
  }

  lemma SignalKeepsCounts(s: State, ringer: Agent)
    requires CountInv(s) && Rings(s, ringer)
    ensures CountInv(AfterSignal(s, ringer))
  {
    if ringer.Worker? { MovedWorker(s.workers, ringer.t, AfterSignal(s, ringer).workers[ringer.t]); }
  }

  lemma ManagerKeepsCounts(s: State, newTid: Tid)
    requires CountInv(s) && Enabled(s, ManagerStep(newTid))
    ensures CountInv(ManagerNext(s, newTid))
  {
    if newTid !in s.workers { NewWorker(s.workers, newTid); }
    hide Counted, Busy;
  }

  lemma SameCounts(s: State, t: State)
    requires CountInv(s) && t.workers == s.workers
    requires t.pool.minNum == s.pool.minNum && t.pool.maxNum == s.pool.maxNum
    requires t.pool.liveNum == s.pool.liveNum && t.pool.exitNum == s.pool.exitNum && t.pool.busyNum == s.pool.busyNum
    ensures CountInv(t)
  {
  }

  /** How one worker's step changes the three counts. */
  lemma MovedWorker(ws: map<Tid, WorkerPhase>, t: Tid, w: WorkerPhase)
    requires t in ws
    ensures var r := ws[t := w];
            && |Counted(r)| - |Counted(ws)| == Bit(t in Counted(r)) - Bit(t in Counted(ws))
            && |Busy(r)| - |Busy(ws)| == Bit(t in Busy(r)) - Bit(t in Busy(ws))
            && |Present(r)| - |Present(ws)| == Bit(t in Present(r)) - Bit(t in Present(ws))
  {
    var r := ws[t := w];
    assert Counted(r) - {t} == Counted(ws) - {t};
    assert Busy(r) - {t} == Busy(ws) - {t};
    assert Present(r) - {t} == Present(ws) - {t};
    OneElement(Counted(r), t);
    OneElement(Counted(ws), t);
    OneElement(Busy(r), t);
    OneElement(Busy(ws), t);
    OneElement(Present(r), t);
    OneElement(Present(ws), t);
  }

  function Bit(b: bool): int { if b then 1 else 0 }

  lemma OneElement<T>(a: set<T>, t: T)
    ensures |a| == |a - {t}| + Bit(t in a)
  {
    if t in a { assert a == (a - {t}) + {t}; } else { assert a == a - {t}; }
  }

  lemma NewWorker(ws: map<Tid, WorkerPhase>, t: Tid)
    requires t !in ws
    ensures |Counted(ws[t := Start])| == |Counted(ws)| + 1
    ensures Busy(ws[t := Start]) == Busy(ws)
    ensures Present(ws[t := Start]) == Present(ws) + {t}
    ensures |Present(ws[t := Start])| == |Present(ws)| + 1
  {
    var r := ws[t := Start];
    assert t in Counted(r) && Counted(r) - {t} == Counted(ws);
    assert t in Present(r) && Present(r) - {t} == Present(ws);
    OneElement(Counted(r), t);
    OneElement(Present(r), t);
  }

  lemma StepKeepsSlots(s: State, e: Event)
    requires SlotInv(s) && Enabled(s, e)
    ensures SlotInv(Next(s, e))
  {
    hide SlotInv, FirstSlot;
    match e
    case WorkerStep(t) =>
      if s.workers[t].Retiring? || s.workers[t].Closing? {
        VacateKeepsSlots(s, t, WorkerNext(s, t));
      } else {
        SameSlots(s, WorkerNext(s, t));
      }
    case ManagerStep(newTid) =>
      if s.manager.Growing? && KeepsGrowing(s.pool, s.manager.i, s.manager.cnt) && Creates(s.pool, s.manager.i) {
        GrowKeepsSlots(s, s.manager.i, newTid, ManagerNext(s, newTid));
      } else {
        SameSlots(s, ManagerNext(s, newTid));
      }
    case Signal(ringer, woken) => SignalKeepsSlots(s, ringer, woken);
    case _ => SameSlots(s, Next(s, e));
  }

  lemma SignalKeepsSlots(s: State, ringer: Agent, woken: Agent)
    requires SlotInv(s) && Enabled(s, Signal(ringer, woken))
    ensures SlotInv(Next(s, Signal(ringer, woken)))
  {
    hide SlotInv;
    SameSlots(s, Next(s, Signal(ringer, woken)));
  }

  lemma SameSlots(s: State, t: State)
    requires SlotInv(s) && t.pool.threadIDs == s.pool.threadIDs && t.pool.maxNum == s.pool.maxNum
    requires t.workers.Keys == s.workers.Keys
    requires forall u :: u in t.workers ==> (t.workers[u].Gone? <==> s.workers[u].Gone?)
    ensures SlotInv(t)
  {
    assert Present(t.workers) == Present(s.workers);
  }

  lemma VacateKeepsSlots(s: State, u: Tid, t: State)
    requires SlotInv(s) && u in s.workers && !s.workers[u].Gone?
    requires t.pool == Vacate(s.pool, u)
    requires t.workers.Keys == s.workers.Keys && t.workers[u].Gone?
    requires forall v :: v in t.workers && v != u ==> t.workers[v] == s.workers[v]
    ensures SlotInv(t)
  {
    hide SlotsOk;
    VacateSlot(s.pool.threadIDs, Present(s.workers), u);
    assert Present(t.workers) == Present(s.workers) - {u};
  }

  lemma GrowKeepsSlots(s: State, i: nat, newTid: Tid, t: State)
    requires SlotInv(s) && Creates(s.pool, i) && newTid > 0 && newTid !in s.workers
    requires t.pool == GrowAt(s.pool, i, newTid) && t.workers == s.workers[newTid := Start]
    ensures SlotInv(t)
  {
    hide SlotsOk;
    FillSlot(s.pool.threadIDs, Present(s.workers), i, newTid);
    assert Present(t.workers) == Present(s.workers) + {newTid};
  }

  // --------------------------------------------------------------- the tasks

  lemma StepKeepsTickets(s: State, e: Event)
    requires QueueInv(s) && TestInv(s) && TicketInv(s) && Enabled(s, e)
    ensures TicketInv(Next(s, e))
  {
    hide TicketInv, QueueInv, TestInv, Put, Take, FirstSlot, RetireCheck;
    if e.WorkerStep? && s.workers[e.t].Taking? {
      TakingKeepsTickets(s, e.t);
    } else if e.WorkerStep? && s.workers[e.t].Running? {
      FinishingKeepsTickets(s, e.t);
    } else {
      OthersKeepTickets(s, Next(s, e));
    }
  }

  lemma TakingKeepsTickets(s: State, t: Tid)
    requires QueueInv(s) && TestInv(s) && TicketInv(s) && Enabled(s, WorkerStep(t)) && s.workers[t].Taking?
    ensures TicketInv(WorkerNext(s, t))
  {
    TakesOldest(s, t);
    hide QueueInv, TestInv;
  }

  /** The worker about to read the ring reads the oldest task accepted and not yet taken. */
  lemma TakesOldest(s: State, t: Tid)
    requires QueueInv(s) && TestInv(s) && t in s.workers && s.workers[t].Taking?
    ensures s.pool.queueFront < |s.pool.taskQ| && s.taken < |s.accepted|
    ensures s.pool.taskQ[s.pool.queueFront] == s.accepted[s.taken]
  {
    hide Take, Contents;
    TakeRemovesOldest(s.pool);
    assert s.accepted[s.taken..][0] == s.accepted[s.taken];
  }

  lemma FinishingKeepsTickets(s: State, t: Tid)
    requires TicketInv(s) && Enabled(s, WorkerStep(t)) && s.workers[t].Running?
    ensures TicketInv(WorkerNext(s, t))
  {
    var n := WorkerNext(s, t);
    assert HeldInv(n) by { hide FinishedInv, ApartInv; }
    assert FinishedInv(n) by {
      forall x | 0 <= x < |s.finished| ensures s.finished[x].0 != s.workers[t].ticket { }
      hide HeldInv;
    }
    assert ApartInv(n) by { hide FinishedInv; }
  }

  lemma OthersKeepTickets(s: State, t: State)
    requires TicketInv(s) && t.taken == s.taken && t.finished == s.finished && s.accepted <= t.accepted
    requires forall u :: u in t.workers && Holding(t.workers[u]) ==>
               && u in s.workers && Holding(s.workers[u])
               && t.workers[u].ticket == s.workers[u].ticket && t.workers[u].task == s.workers[u].task
    ensures TicketInv(t)
  {
  }

  lemma StepKeepsCover(s: State, e: Event)
    requires CoverInv(s) && Enabled(s, e)
    ensures CoverInv(Next(s, e))
  {
    hide Put, Take, FirstSlot, RetireCheck;
    var t := Next(s, e);
    forall k: nat | k < t.taken ensures IsFinished(t, k) || exists u :: IsHeldBy(t, u, k) {
      if k == s.taken {
        assert IsHeldBy(t, e.t, k);
      } else if IsFinished(s, k) {
        var x :| 0 <= x < |s.finished| && s.finished[x].0 == k;
        assert t.finished[x].0 == k;
      } else {
        var u :| IsHeldBy(s, u, k);
        if e == WorkerStep(u) && s.workers[u].Running? {
          assert t.finished[|s.finished|].0 == k;
        } else {
          assert IsHeldBy(t, u, k);
        }
      }
    }
  }

  lemma StepKeepsDestroy(s: State, e: Event)
    requires DestroyInv(s) && Enabled(s, e)
    ensures DestroyInv(Next(s, e))
  {
    hide FirstSlot;
  }

  lemma StepKeepsInv(s: State, e: Event)
    requires Inv(s) && Enabled(s, e)
    ensures Inv(Next(s, e))
  {
    hide LockInv, QueueInv, TestInv, CountInv, SlotInv, TicketInv, CoverInv, DestroyInv, Enabled, Next;
    StepKeepsLock(s, e);
    StepKeepsQueue(s, e);
    StepKeepsTests(s, e);
    StepKeepsCounts(s, e);
    StepKeepsSlots(s, e);
    StepKeepsTickets(s, e);
    StepKeepsCover(s, e);
    StepKeepsDestroy(s, e);
  }

  /** Every state of every run. */
  lemma {:induction false} RunKeepsInv(s: State, es: seq<Event>)
    requires Inv(s) && Possible(s, es)
    ensures Inv(Run(s, es))
    decreases |es|
  {
    hide Inv, Enabled, Next;
    if es != [] {
      StepKeepsInv(s, es[0]);
      RunKeepsInv(Next(s, es[0]), es[1..]);
    }
  }

  ghost predicate Reachable(s: State) {
    exists min: nat, max: nat, ring, jobs, es :: ReachedBy(s, min, max, ring, jobs, es)
  }

  ghost predicate ReachedBy(s: State, min: nat, max: nat, ring: seq<Task>, jobs: seq<Task>, es: seq<Event>) {
    min <= max && Possible(Init(min, max, ring, jobs), es) && Run(Init(min, max, ring, jobs), es) == s
  }

  lemma ReachableInv(s: State)
    requires Reachable(s)
    ensures Inv(s)
  {
    hide Inv;
    var min: nat, max: nat, ring, jobs, es :| ReachedBy(s, min, max, ring, jobs, es);
    InitInv(min, max, ring, jobs);
    RunKeepsInv(Init(min, max, ring, jobs), es);
  }

  // ------------------------------------------------------------ what follows

  /** The census of workers, although the manager decides from stale numbers and slots are
      cleared without the lock. */
  lemma WorkerCensus(s: State)
    requires Reachable(s)
    ensures s.pool.minNum <= s.pool.liveNum <= s.pool.maxNum
    ensures 0 <= s.pool.exitNum <= NUM
    ensures |Occupied(s.pool.threadIDs)| + |ClosedOnes(s.workers)| == s.pool.liveNum + |RetiringOnes(s.workers)|
    ensures !s.pool.shutdown ==> ClosedOnes(s.workers) == {}
  {
    ReachableInv(s);
    CensusSets(s.workers);
    hide Counted, Present, Occupied, RetiringOnes;
  }

  lemma CensusSets(ws: map<Tid, WorkerPhase>)
    ensures |Present(ws)| + |ClosedOnes(ws)| == |Counted(ws)| + |RetiringOnes(ws)|
  {
    assert Present(ws) + ClosedOnes(ws) == Counted(ws) + RetiringOnes(ws);
    DisjointSize(Present(ws), ClosedOnes(ws));
    DisjointSize(Counted(ws), RetiringOnes(ws));
  }

  lemma DisjointSize<T>(a: set<T>, b: set<T>)
    requires a !! b
    ensures |a + b| == |a| + |b|
  {
  }

  /** busyNum counts the workers between its two updates, and never exceeds liveNum, although
      different mutexes guard the two. */
  lemma BusyCensus(s: State)
    requires Reachable(s)
    ensures s.pool.busyNum == |Busy(s.workers)|
    ensures 0 <= s.pool.busyNum <= s.pool.liveNum
  {
    ReachableInv(s);
    assert Busy(s.workers) <= Counted(s.workers);
    SubsetSize(Busy(s.workers), Counted(s.workers));
  }

  lemma SubsetSize<T>(a: set<T>, b: set<T>)
    requires a <= b
    ensures |a| <= |b|
  {
    assert b == a + (b - a) && a !! (b - a);
    assert |b| == |a| + |b - a|;
  }

  /** The ring is a bounded queue in every reachable state. */
  lemma RingRefinesQueue(s: State)
    requires Reachable(s)
    ensures RingOk(s.pool) && s.taken <= |s.accepted| && Contents(s.pool) == s.accepted[s.taken..]
  {
    ReachableInv(s);
    hide RingOk, Contents;
  }

  /** No access to the ring or to the slots is out of bounds: a thread past its tests is enabled,
      and a worker that reads the ring finds a task there. */
  lemma MemorySafe(s: State)
    requires Reachable(s)
    ensures forall t :: t in s.workers && s.workers[t].Taking? ==>
      s.pool.queueSize > 0 && Enabled(s, WorkerStep(t))
    ensures forall j: nat :: j < |s.producers| && s.producers[j].Putting? ==>
      s.pool.queueSize < s.pool.queueCapacity && Enabled(s, ProducerStep(j))
    ensures s.manager.Growing? && KeepsGrowing(s.pool, s.manager.i, s.manager.cnt) ==>
      s.manager.i < |s.pool.threadIDs|
  {
    ReachableInv(s);
  }

  /** Where the task accepted as number k is. */
  datatype Place = Queued | HeldBy(t: Tid) | Finished(x: nat)

  ghost predicate IsAt(s: State, k: nat, p: Place) {
    match p
    case Queued => s.taken <= k
    case HeldBy(t) => IsHeldBy(s, t, k)
    case Finished(x) => x < |s.finished| && s.finished[x].0 == k
  }

  /** Exactly-once accounting: each task accepted is in exactly one place, as it was accepted. */
  lemma EachTaskInOnePlace(s: State, k: nat) returns (p: Place)
    requires Reachable(s) && k < |s.accepted|
    ensures IsAt(s, k, p) && forall q :: IsAt(s, k, q) ==> q == p
    ensures match p
            case Queued =>
              RingOk(s.pool) && k - s.taken < |Contents(s.pool)| && Contents(s.pool)[k - s.taken] == s.accepted[k]
            case HeldBy(t) => s.workers[t].task == s.accepted[k]
            case Finished(x) => s.finished[x].1 == s.accepted[k]
  {
    ReachableInv(s);
    hide Contents, RingOk, LockInv, TestInv, CountInv, SlotInv;
    if s.taken <= k {
      p := Queued;
    } else if IsFinished(s, k) {
      var x :| 0 <= x < |s.finished| && s.finished[x].0 == k;
      p := Finished(x);
    } else {
      var t :| IsHeldBy(s, t, k);
      p := HeldBy(t);
    }
  }

  /** Tasks are taken in the order in which they were accepted, by one worker at a time. */
  lemma TakenInOrder(s: State, t: Tid)
    requires Reachable(s) && Enabled(s, WorkerStep(t)) && s.workers[t].Taking?
    ensures s.taken < |s.accepted|
    ensures WorkerNext(s, t).workers[t] == Signalling(s.taken, s.accepted[s.taken])
    ensures forall u :: u in s.workers && u != t ==> !WorkerHolds(s.workers[u])
  {
    ReachableInv(s);
    hide QueueInv, TestInv, CountInv, SlotInv, TicketInv, CoverInv;
    TakesOldest(s, t);
  }
}
