/** The webserver's thread pool as a monitor protocol: workers, AddTask calls and the closing
    destructor interleave at every lock, unlock, wait and notification. */
module DrainingPool {
  import opened Sums

  /** A task is represented by the identity of its closure. */
  type Task = nat

  /** What the mutex guards. */
  datatype Pool = Pool(isClosed: bool, tasks: seq<Task>)

  /** What a worker does when it looks at the pool with the lock held. */
  datatype Turn = Take(task: Task) | Leave | Wait

  function TurnOf(p: Pool): Turn {
    if p.tasks != [] then Take(p.tasks[0]) else if p.isClosed then Leave else Wait
  }

  function AfterTurn(p: Pool): Pool {
    if p.tasks != [] then p.(tasks := p.tasks[1..]) else p
  }

  /** What AddTask does with the lock held. */
  function Pushed(p: Pool, task: Task): Pool {
    p.(tasks := p.tasks + [task])
  }

  /** What the destructor does with the lock held. */
  function ClosedOff(p: Pool): Pool {
    p.(isClosed := true)
  }

  datatype WorkerPhase =
    | Locking                          // about to lock, or woken and about to lock again
    | Inside                           // holds the lock at the head of the loop
    | Asleep                           // in wait
    | Working(ticket: nat, task: Task) // running a task without the lock
    | Gone

  datatype AdderPhase = Calling(task: Task) | Pushing(task: Task) | Notifying | Returned

  datatype CloserPhase = Open | Closing | Announcing | Closed

  datatype Agent = Nobody | Worker(i: nat) | Adder(j: nat) | Closer

  /** added, taken, done and lateAdds only record what happened: the tasks added so far, how many
      were taken off the queue, which have run to completion (by place in added), and how many
      were added after isClosed was set. */
  datatype State = State(
    pool: Pool,
    holder: Agent,
    workers: seq<WorkerPhase>,
    adders: seq<AdderPhase>,
    closer: CloserPhase,
    added: seq<Task>,
    taken: nat,
    done: seq<(nat, Task)>,
    lateAdds: nat)

  /** wake is the waiting worker that a notify_one picks. */
  datatype Event =
    | WorkerStep(i: nat)
    | SpuriousWake(i: nat)
    | AdderStep(j: nat, wake: nat)
    | CloserStep

  function Init(threadCount: nat, calls: seq<Task>): State {
    State(Pool(false, []), Nobody, seq(threadCount, i => Locking),
          seq(|calls|, j requires 0 <= j < |calls| => Calling(calls[j])),
          Open, [], 0, [], 0)
  }

  predicate SomeAsleep(ws: seq<WorkerPhase>) {
    exists i :: 0 <= i < |ws| && ws[i] == Asleep
  }

  predicate Enabled(s: State, e: Event) {
    match e
    case WorkerStep(i) =>
      i < |s.workers|
      && (s.workers[i].Inside? || s.workers[i].Working? || (s.workers[i].Locking? && s.holder == Nobody))
    case SpuriousWake(i) => i < |s.workers| && s.workers[i].Asleep?
    case AdderStep(j, wake) =>
      j < |s.adders| &&
      (match s.adders[j]
       case Calling(_) => s.holder == Nobody
       case Pushing(_) => true
       case Notifying => SomeAsleep(s.workers) ==> wake < |s.workers| && s.workers[wake] == Asleep
       case Returned => false)
    case CloserStep =>
      match s.closer
      case Open => s.holder == Nobody
      case Closing => true
      case Announcing => true
      case Closed => false
  }

  function WakeAll(ws: seq<WorkerPhase>): (r: seq<WorkerPhase>)
    ensures |r| == |ws|
  {
    seq(|ws|, i requires 0 <= i < |ws| => if ws[i] == Asleep then Locking else ws[i])
  }

  function WorkerNext(s: State, i: nat): State
    requires Enabled(s, WorkerStep(i))
  {
    match s.workers[i]
    case Locking => s.(holder := Worker(i), workers := s.workers[i := Inside])
    case Working(k, task) => s.(workers := s.workers[i := Locking], done := s.done + [(k, task)])
    case _ =>
      var t := s.(pool := AfterTurn(s.pool), holder := Nobody);
      match TurnOf(s.pool)
      case Take(task) => t.(workers := s.workers[i := Working(s.taken, task)], taken := s.taken + 1)
      case Leave => t.(workers := s.workers[i := Gone])
      case Wait => t.(workers := s.workers[i := Asleep])
  }

  function AdderNext(s: State, j: nat, wake: nat): State
    requires Enabled(s, AdderStep(j, wake))
  {
    match s.adders[j]
    case Calling(task) => s.(holder := Adder(j), adders := s.adders[j := Pushing(task)])
    case Pushing(task) =>
      s.(pool := Pushed(s.pool, task), holder := Nobody, adders := s.adders[j := Notifying],
         added := s.added + [task], lateAdds := s.lateAdds + if s.pool.isClosed then 1 else 0)
    case _ =>
      s.(adders := s.adders[j := Returned],
         workers := if SomeAsleep(s.workers) then s.workers[wake := Locking] else s.workers)
  }

  function CloserNext(s: State): State
    requires Enabled(s, CloserStep)
  {
    match s.closer
    case Open => s.(holder := Closer, closer := Closing)
    case Closing => s.(holder := Nobody, closer := Announcing, pool := ClosedOff(s.pool))
    case _ => s.(closer := Closed, workers := WakeAll(s.workers))
  }

  function Next(s: State, e: Event): State
    requires Enabled(s, e)
  {
    match e
    case WorkerStep(i) => WorkerNext(s, i)
    case SpuriousWake(i) => s.(workers := s.workers[i := Locking])
    case AdderStep(j, wake) => AdderNext(s, j, wake)
    case CloserStep => CloserNext(s)
  }

  predicate Possible(s: State, es: seq<Event>)
    decreases |es|
  {
    es == [] || (Enabled(s, es[0]) && Possible(Next(s, es[0]), es[1..]))
  }

  function Run(s: State, es: seq<Event>): State
    requires Possible(s, es)
    decreases |es|
  {
    if es == [] then s else Run(Next(s, es[0]), es[1..])
  }

  // -------------------------------------------------------------- invariants

  /** The mutex: exactly the threads inside a critical section hold it. */
  ghost predicate LockInv(s: State) {
    && (forall i: nat :: i < |s.workers| ==> (s.workers[i].Inside? <==> s.holder == Worker(i)))
    && (forall j: nat :: j < |s.adders| ==> (s.adders[j].Pushing? <==> s.holder == Adder(j)))
    && (s.closer == Closing <==> s.holder == Closer)
    && (s.holder.Worker? ==> s.holder.i < |s.workers|)
    && (s.holder.Adder? ==> s.holder.j < |s.adders|)
  }

  /** The queue is what was added and not yet taken, in order. */
  ghost predicate QueueInv(s: State) {
    s.taken <= |s.added| && s.pool.tasks == s.added[s.taken..]
  }

  ghost predicate IsWorkingOn(s: State, i: nat, k: nat) {
    i < |s.workers| && s.workers[i].Working? && s.workers[i].ticket == k
  }

  ghost predicate IsDone(s: State, k: nat) {
    exists x :: 0 <= x < |s.done| && s.done[x].0 == k
  }

  /** Every task taken is on one worker or done once, never both, and is the task added there. */
  ghost predicate TicketInv(s: State) {
    && (forall i: nat :: i < |s.workers| && s.workers[i].Working? ==>
          s.workers[i].ticket < s.taken <= |s.added| && s.workers[i].task == s.added[s.workers[i].ticket])
    && (forall i: nat, j: nat :: i < j < |s.workers| && s.workers[i].Working? && s.workers[j].Working? ==>
          s.workers[i].ticket != s.workers[j].ticket)
    && (forall x :: 0 <= x < |s.done| ==> s.done[x].0 < s.taken <= |s.added| && s.done[x].1 == s.added[s.done[x].0])
    && (forall x, y :: 0 <= x < y < |s.done| ==> s.done[x].0 != s.done[y].0)
    && (forall i: nat, x :: i < |s.workers| && s.workers[i].Working? && 0 <= x < |s.done| ==>
          s.workers[i].ticket != s.done[x].0)
  }

  ghost predicate CoverInv(s: State) {
    forall k: nat :: k < s.taken ==> IsDone(s, k) || exists i: nat :: IsWorkingOn(s, i, k)
  }

  ghost predicate CloseInv(s: State) {
    && (s.pool.isClosed <==> s.closer.Announcing? || s.closer.Closed?)
    && (forall i: nat :: i < |s.workers| && s.workers[i].Gone? ==> s.pool.isClosed && |s.pool.tasks| <= s.lateAdds)
    && (forall i: nat :: i < |s.workers| && s.workers[i].Asleep? && s.pool.isClosed ==> s.closer.Announcing?)
  }

  function Owes(a: AdderPhase): nat { if a.Notifying? then 1 else 0 }

  function Heading(w: WorkerPhase): nat { if w.Locking? || w.Inside? then 1 else 0 }

  /** While any worker sleeps, every queued task has its own notification still owed or its own
      worker on the way to the lock. */
  ghost predicate WakeInv(s: State) {
    SomeAsleep(s.workers) ==> |s.pool.tasks| <= Sum(s.adders, Owes) + Sum(s.workers, Heading)
  }

  ghost predicate Inv(s: State) {
    LockInv(s) && QueueInv(s) && TicketInv(s) && CoverInv(s) && CloseInv(s) && WakeInv(s)
  }

  lemma InitInv(threadCount: nat, calls: seq<Task>)
    ensures Inv(Init(threadCount, calls))
  {
  }

  lemma StepKeepsLock(s: State, e: Event)
    requires LockInv(s) && Enabled(s, e)
    ensures LockInv(Next(s, e))
  {
    hide SomeAsleep, LockInv;
    match e
    case WorkerStep(i) => WorkerKeepsLock(s, i);
    case AdderStep(j, wake) => AdderKeepsLock(s, j, wake);
    case SpuriousWake(i) => AwakeKeepsLock(s, s.workers[i := Locking]);
    case CloserStep => CloserKeepsLock(s);
  }

  lemma WorkerKeepsLock(s: State, i: nat)
    requires LockInv(s) && Enabled(s, WorkerStep(i))
    ensures LockInv(WorkerNext(s, i))
  {
  }

  lemma AwakeKeepsLock(s: State, ws: seq<WorkerPhase>)
    requires LockInv(s) && |ws| == |s.workers|
    requires forall i: nat :: i < |ws| ==> ws[i] == s.workers[i] || (s.workers[i].Asleep? && ws[i].Locking?)
    ensures LockInv(s.(workers := ws))
  {
  }

  lemma AdderKeepsLock(s: State, j: nat, wake: nat)
    requires LockInv(s) && Enabled(s, AdderStep(j, wake))
    ensures LockInv(AdderNext(s, j, wake))
  {
    if s.adders[j].Notifying? {
      var ws := AdderNext(s, j, wake).workers;
      AwakeKeepsLock(s, ws);
    }
  }

  lemma CloserKeepsLock(s: State)
    requires LockInv(s) && Enabled(s, CloserStep)
    ensures LockInv(CloserNext(s))
  {
    if s.closer.Announcing? { AwakeKeepsLock(s, WakeAll(s.workers)); }
  }

  lemma StepKeepsQueue(s: State, e: Event)
    requires QueueInv(s) && Enabled(s, e)
    ensures QueueInv(Next(s, e))
  {
    hide SomeAsleep, WakeAll;
  }

  lemma StepKeepsTickets(s: State, e: Event)
    requires QueueInv(s) && TicketInv(s) && Enabled(s, e)
    ensures TicketInv(Next(s, e))
  {
    hide TicketInv;
    match e
    case WorkerStep(i) => WorkerKeepsTickets(s, i);
    case _ => OthersKeepTickets(s, Next(s, e));
  }

  lemma WorkerKeepsTickets(s: State, i: nat)
    requires QueueInv(s) && TicketInv(s) && Enabled(s, WorkerStep(i))
    ensures TicketInv(WorkerNext(s, i))
  {
  }

  lemma OthersKeepTickets(s: State, t: State)
    requires TicketInv(s) && |t.workers| == |s.workers| && t.taken == s.taken && t.done == s.done
    requires s.added <= t.added
    requires forall i: nat :: i < |t.workers| && t.workers[i].Working? ==> t.workers[i] == s.workers[i]
    ensures TicketInv(t)
  {
  }

  lemma StepKeepsCover(s: State, e: Event)
    requires CoverInv(s) && Enabled(s, e)
    ensures CoverInv(Next(s, e))
  {
    var t := Next(s, e);
    forall k: nat | k < t.taken ensures IsDone(t, k) || exists i: nat :: IsWorkingOn(t, i, k) {
      if k == s.taken {
        assert IsWorkingOn(t, e.i, k);
      } else if IsDone(s, k) {
        var x :| 0 <= x < |s.done| && s.done[x].0 == k;
        assert t.done[x].0 == k;
      } else {
        var i: nat :| IsWorkingOn(s, i, k);
        if e == WorkerStep(i) {
          assert t.done[|s.done|].0 == k;
        } else {
          assert IsWorkingOn(t, i, k);
        }
      }
    }
  }

  lemma StepKeepsClose(s: State, e: Event)
    requires LockInv(s) && CloseInv(s) && Enabled(s, e)
    ensures CloseInv(Next(s, e))
  {
    hide SomeAsleep;
  }

  lemma StepKeepsWake(s: State, e: Event)
    requires WakeInv(s) && Enabled(s, e)
    ensures WakeInv(Next(s, e))
  {
    var t := Next(s, e);
    match e
    case WorkerStep(i) =>
      SumUpdate(s.workers, Heading, i, t.workers[i]);
      if SomeAsleep(t.workers) && t.workers[i] != Asleep { StaysAsleep(s.workers, i, t.workers[i]); }
    case SpuriousWake(i) =>
      SumUpdate(s.workers, Heading, i, Locking);
    case AdderStep(j, wake) =>
      SumUpdate(s.adders, Owes, j, t.adders[j]);
      if s.adders[j].Notifying? && SomeAsleep(s.workers) {
        SumUpdate(s.workers, Heading, wake, Locking);
      }
    case CloserStep =>
      assert s.closer.Announcing? ==> !SomeAsleep(t.workers);
  }

  lemma StaysAsleep(ws: seq<WorkerPhase>, i: nat, w: WorkerPhase)
    requires i < |ws| && w != Asleep && SomeAsleep(ws[i := w])
    ensures SomeAsleep(ws)
  {
    var k :| 0 <= k < |ws| && ws[i := w][k] == Asleep;
    assert ws[k] == Asleep;
  }

  lemma StepKeepsInv(s: State, e: Event)
    requires Inv(s) && Enabled(s, e)
    ensures Inv(Next(s, e))
  {
    hide LockInv, QueueInv, TicketInv, CoverInv, CloseInv, WakeInv, Enabled, Next;
    StepKeepsLock(s, e);
    StepKeepsQueue(s, e);
    StepKeepsTickets(s, e);
    StepKeepsCover(s, e);
    StepKeepsClose(s, e);
    StepKeepsWake(s, e);
  }

  /** Every state of every run, for any number of workers and AddTask calls. */
  lemma {:induction false} RunKeepsInv(s: State, es: seq<Event>)
    requires Inv(s) && Possible(s, es)
    ensures Inv(Run(s, es))
    decreases |es|
  {
    hide Inv, Enabled, Next;
    if es != [] {
      StepKeepsInv(s, es[0]);
      RunKeepsInv(Next(s, es[0]), es[1..]);
    }
  }

  ghost predicate Reachable(s: State, threadCount: nat, calls: seq<Task>) {
    exists es :: Possible(Init(threadCount, calls), es) && Run(Init(threadCount, calls), es) == s
  }

  lemma ReachableInv(s: State, threadCount: nat, calls: seq<Task>)
    requires Reachable(s, threadCount, calls)
    ensures Inv(s)
  {
    hide Inv;
    var es :| Possible(Init(threadCount, calls), es) && Run(Init(threadCount, calls), es) == s;
    InitInv(threadCount, calls);
    RunKeepsInv(Init(threadCount, calls), es);
  }

  // ------------------------------------------------------------ what follows

  /** No lost wakeup, while adding and while closing. */
  lemma NoLostWakeup(s: State, threadCount: nat, calls: seq<Task>)
    requires Reachable(s, threadCount, calls)
    ensures SomeAsleep(s.workers) && s.pool.tasks != [] ==>
      (exists j: nat :: j < |s.adders| && s.adders[j].Notifying?)
      || (exists i: nat :: i < |s.workers| && (s.workers[i].Locking? || s.workers[i].Inside?))
    ensures SomeAsleep(s.workers) && s.pool.isClosed ==> s.closer.Announcing?
  {
    ReachableInv(s, threadCount, calls);
    if SomeAsleep(s.workers) && s.pool.tasks != [] {
      if Sum(s.adders, Owes) > 0 {
        var j := SumPositive(s.adders, Owes);
        assert s.adders[j].Notifying?;
      } else {
        var i := SumPositive(s.workers, Heading);
        assert s.workers[i].Locking? || s.workers[i].Inside?;
      }
    }
  }

  /** The mutex is exclusive, and no worker holds it while it runs a task. */
  lemma TasksRunUnlocked(s: State, threadCount: nat, calls: seq<Task>, i: nat)
    requires Reachable(s, threadCount, calls) && i < |s.workers|
    ensures s.workers[i].Working? ==> s.holder != Worker(i)
    ensures s.workers[i].Inside? ==>
      && (forall k: nat :: k < |s.workers| && k != i ==> !s.workers[k].Inside?)
      && (forall j: nat :: j < |s.adders| ==> !s.adders[j].Pushing?)
      && s.closer != Closing
  {
    ReachableInv(s, threadCount, calls);
  }

  /** Tasks leave the queue in the order in which AddTask put them there: the next task taken is
      the oldest one added and not yet taken. */
  lemma TakenInOrder(s: State, threadCount: nat, calls: seq<Task>, i: nat)
    requires Reachable(s, threadCount, calls) && Enabled(s, WorkerStep(i))
    ensures var t := WorkerNext(s, i);
            s.workers[i].Inside? && t.workers[i].Working? ==>
              && s.taken < |s.added|
              && t.workers[i] == Working(s.taken, s.added[s.taken])
              && t.taken == s.taken + 1
  {
    ReachableInv(s, threadCount, calls);
  }

  /** Where the task added as number k is: queued, on worker i, or done. */
  datatype Place = Queued | On(i: nat) | Done(x: nat)

  ghost predicate IsAt(s: State, k: nat, p: Place) {
    match p
    case Queued => s.taken <= k
    case On(i) => IsWorkingOn(s, i, k)
    case Done(x) => x < |s.done| && s.done[x].0 == k
  }

  /** Each task ever added is in exactly one place, as the task that was added. */
  lemma EachTaskInOnePlace(s: State, threadCount: nat, calls: seq<Task>, k: nat) returns (p: Place)
    requires Reachable(s, threadCount, calls) && k < |s.added|
    ensures IsAt(s, k, p) && forall q :: IsAt(s, k, q) ==> q == p
    ensures match p
            case Queued => k - s.taken < |s.pool.tasks| && s.pool.tasks[k - s.taken] == s.added[k]
            case On(i) => s.workers[i].task == s.added[k]
            case Done(x) => s.done[x].1 == s.added[k]
  {
    ReachableInv(s, threadCount, calls);
    if s.taken <= k {
      p := Queued;
    } else if IsDone(s, k) {
      var x :| 0 <= x < |s.done| && s.done[x].0 == k;
      p := Done(x);
    } else {
      var i: nat :| IsWorkingOn(s, i, k);
      p := On(i);
    }
  }

  ghost predicate AllGone(s: State) {
    forall i: nat :: i < |s.workers| ==> s.workers[i].Gone?
  }

  /** When all workers have left, exactly the tasks taken have run to completion, once each. The
      workers left a closed pool with nothing queued but tasks added after the closing, so every
      task added before it has run. */
  lemma AllGoneMeansAllDone(s: State, threadCount: nat, calls: seq<Task>)
    requires Reachable(s, threadCount, calls) && AllGone(s)
    ensures forall k: nat :: IsDone(s, k) <==> k < s.taken
    ensures forall x, y :: 0 <= x < y < |s.done| ==> s.done[x].0 != s.done[y].0
    ensures |s.workers| > 0 ==>
      && s.pool.isClosed && |s.pool.tasks| <= s.lateAdds
      && forall k: nat :: k < |s.added| - s.lateAdds ==> IsDone(s, k)
  {
    ReachableInv(s, threadCount, calls);
    if |s.workers| > 0 { assert s.workers[0].Gone?; }
  }

  function Sleeps(w: WorkerPhase): nat { if w.Asleep? then 1 else 0 }

  lemma {:induction false} SomeAsleepIff(ws: seq<WorkerPhase>)
    ensures Sum(ws, Sleeps) > 0 <==> SomeAsleep(ws)
  {
    if ws != [] {
      SomeAsleepIff(ws[1..]);
      if SomeAsleep(ws[1..]) {
        var i :| 0 <= i < |ws[1..]| && ws[1..][i] == Asleep;
        assert ws[i + 1] == Asleep;
      }
      if SomeAsleep(ws) && ws[0] != Asleep {
        var i :| 0 <= i < |ws| && ws[i] == Asleep;
        assert ws[1..][i - 1] == Asleep;
      }
    }
  }

  /** Who is woken: by AddTask's notification exactly one worker, if any waits, by the closing one
      all of them, and by no other step but a spurious wakeup anybody. */
  lemma WakesExactly(s: State, e: Event)
    requires Enabled(s, e)
    ensures var before, after := Sum(s.workers, Sleeps), Sum(Next(s, e).workers, Sleeps);
            match e
            case WorkerStep(_) => after >= before
            case SpuriousWake(_) => after == before - 1
            case AdderStep(j, _) => after == before - if s.adders[j].Notifying? && before > 0 then 1 else 0
            case CloserStep => after == if s.closer.Announcing? then 0 else before
  {
    var n := Next(s, e);
    SomeAsleepIff(s.workers);
    SomeAsleepIff(n.workers);
    match e
    case WorkerStep(i) => SumUpdate(s.workers, Sleeps, i, n.workers[i]);
    case SpuriousWake(i) => SumUpdate(s.workers, Sleeps, i, Locking);
    case AdderStep(_, wake) =>
      if n.workers != s.workers { SumUpdate(s.workers, Sleeps, wake, Locking); }
    case CloserStep =>
  }

  // ---------------------------------------------------------------- progress

  /** Steps a started thread takes by itself; not new calls, not spurious wakeups. */
  ghost predicate OwnStep(s: State, e: Event) {
    match e
    case WorkerStep(_) => true
    case SpuriousWake(_) => false
    case AdderStep(j, _) => j < |s.adders| && !s.adders[j].Calling?
    case CloserStep => s.closer != Open
  }

  ghost predicate CanMove(s: State) {
    exists e :: Enabled(s, e) && OwnStep(s, e)
  }

  /** A pool that cannot move has released its lock, owes no notification, and has nothing to
      do: the queue is empty unless every worker has left, and after closing every worker has. */
  lemma StuckMeansIdle(s: State, threadCount: nat, calls: seq<Task>)
    requires Reachable(s, threadCount, calls) && !CanMove(s)
    ensures s.holder == Nobody
    ensures forall i: nat :: i < |s.workers| ==> s.workers[i].Asleep? || s.workers[i].Gone?
    ensures s.pool.tasks == [] || AllGone(s)
    ensures s.pool.isClosed ==> AllGone(s)
  {
    ReachableInv(s, threadCount, calls);
    forall e | Enabled(s, e) ensures !OwnStep(s, e) {
    }
    if s.holder.Worker? { assert Enabled(s, WorkerStep(s.holder.i)); }
    if s.holder.Adder? { assert Enabled(s, AdderStep(s.holder.j, 0)); }
    if s.holder.Closer? { assert Enabled(s, CloserStep); }
    forall i: nat | i < |s.workers| ensures s.workers[i].Asleep? || s.workers[i].Gone? {
      assert !Enabled(s, WorkerStep(i));
    }
    forall j: nat | j < |s.adders| ensures !s.adders[j].Notifying? {
      if s.adders[j].Notifying? {
        if SomeAsleep(s.workers) {
          var w :| 0 <= w < |s.workers| && s.workers[w] == Asleep;
          assert Enabled(s, AdderStep(j, w));
        } else {
          assert Enabled(s, AdderStep(j, 0));
        }
      }
    }
    if SomeAsleep(s.workers) {
      NoLostWakeup(s, threadCount, calls);
      assert !s.closer.Announcing? by { assert !Enabled(s, CloserStep) || s.closer == Open; }
    } else {
      forall i: nat | i < |s.workers| ensures s.workers[i].Gone? {
        assert s.workers[i] != Asleep;
      }
    }
  }

  function WorkerCost(w: WorkerPhase): nat {
    match w
    case Asleep => 3
    case Working(_, _) => 3
    case Locking => 2
    case Inside => 1
    case Gone => 0
  }

  function AdderCost(a: AdderPhase): nat {
    match a
    case Calling(_) => 6
    case Pushing(_) => 5
    case Notifying => 1
    case Returned => 0
  }

  function CloserCost(c: CloserPhase): nat {
    match c
    case Open => 3
    case Closing => 2
    case Announcing => 1
    case Closed => 0
  }

  /** A bound on the steps left once the pool is closed. */
  function Cost(s: State): nat {
    3 * |s.pool.tasks| + Sum(s.workers, WorkerCost) + Sum(s.adders, AdderCost) + CloserCost(s.closer)
  }

  /** Once the pool is closed, every step of every thread brings the end nearer, and no worker
      enters wait again. */
  lemma ClosedStepCosts(s: State, e: Event)
    requires s.pool.isClosed && Enabled(s, e)
    ensures Next(s, e).pool.isClosed && Cost(Next(s, e)) < Cost(s)
    ensures forall i :: 0 <= i < |Next(s, e).workers| && Next(s, e).workers[i].Asleep? ==> s.workers[i].Asleep?
  {
    var t := Next(s, e);
    match e
    case WorkerStep(i) => SumUpdate(s.workers, WorkerCost, i, t.workers[i]);
    case SpuriousWake(i) => SumUpdate(s.workers, WorkerCost, i, Locking);
    case AdderStep(j, wake) =>
      SumUpdate(s.adders, AdderCost, j, t.adders[j]);
      if s.adders[j].Notifying? && SomeAsleep(s.workers) {
        SumUpdate(s.workers, WorkerCost, wake, Locking);
      }
    case CloserStep => SumMonotone(t.workers, s.workers, WorkerCost);
  }

  /** Closing terminates: a run of a closed pool has at most Cost steps, whatever the scheduler
      and spurious wakeups do. */
  lemma {:induction false} ClosedRunEnds(s: State, es: seq<Event>)
    requires s.pool.isClosed && Possible(s, es)
    ensures Run(s, es).pool.isClosed && |es| + Cost(Run(s, es)) <= Cost(s)
    decreases |es|
  {
    hide Enabled, Next, Cost;
    if es != [] {
      ClosedStepCosts(s, es[0]);
      ClosedRunEnds(Next(s, es[0]), es[1..]);
    }
  }

  /** Closing a pool with at least one worker and letting it run until it cannot move runs every
      task added before the closing exactly once, and leaves no worker behind. */
  lemma ClosingDrains(s: State, threadCount: nat, calls: seq<Task>)
    requires threadCount > 0 && Reachable(s, threadCount, calls)
    requires s.pool.isClosed && !CanMove(s)
    ensures AllGone(s)
    ensures forall k: nat :: k < |s.added| - s.lateAdds ==> IsDone(s, k)
    ensures forall x, y :: 0 <= x < y < |s.done| ==> s.done[x].0 != s.done[y].0
  {
    StuckMeansIdle(s, threadCount, calls);
    ReachableThreads(s, threadCount, calls);
    AllGoneMeansAllDone(s, threadCount, calls);
  }

  lemma ReachableThreads(s: State, threadCount: nat, calls: seq<Task>)
    requires Reachable(s, threadCount, calls)
    ensures |s.workers| == threadCount && |s.adders| == |calls|
  {
    var es :| Possible(Init(threadCount, calls), es) && Run(Init(threadCount, calls), es) == s;
    RunKeepsThreads(Init(threadCount, calls), es);
  }

  lemma {:induction false} RunKeepsThreads(s: State, es: seq<Event>)
    requires Possible(s, es)
    ensures |Run(s, es).workers| == |s.workers| && |Run(s, es).adders| == |s.adders|
    decreases |es|
  {
    if es != [] { RunKeepsThreads(Next(s, es[0]), es[1..]); }
  }

  // ------------------------------------------------- the guarded object itself

  /** The tasks that turns at an otherwise undisturbed pool take, in order. */
  function Drained(p: Pool): seq<Task>
    decreases |p.tasks|
  {
    match TurnOf(p)
    case Take(task) => [task] + Drained(AfterTurn(p))
    case _ => []
  }

  /** The turn that comes after them. */
  function LastTurn(p: Pool): Turn
    decreases |p.tasks|
  {
    if TurnOf(p).Take? then LastTurn(AfterTurn(p)) else TurnOf(p)
  }

  /** AddTask puts its task behind all others, takes none away, and does not end the waiting. */
  lemma {:induction false} PushedIsTakenLast(p: Pool, task: Task)
    ensures Drained(Pushed(p, task)) == Drained(p) + [task]
    ensures LastTurn(Pushed(p, task)) == LastTurn(p)
    decreases |p.tasks|
  {
    if p.tasks == [] {
      assert AfterTurn(Pushed(p, task)) == p;
    } else {
      assert AfterTurn(Pushed(p, task)) == Pushed(AfterTurn(p), task);
      PushedIsTakenLast(AfterTurn(p), task);
    }
  }

  /** Closing changes no task and no order; it only makes workers leave where they would wait. */
  lemma {:induction false} ClosedOffIsDrained(p: Pool)
    ensures Drained(ClosedOff(p)) == Drained(p) == p.tasks
    ensures LastTurn(ClosedOff(p)) == Leave && (LastTurn(p) == Wait <==> !p.isClosed)
    decreases |p.tasks|
  {
    if p.tasks != [] {
      assert AfterTurn(ClosedOff(p)) == ClosedOff(AfterTurn(p));
      ClosedOffIsDrained(AfterTurn(p));
    }
  }

  /** The fields behind the mutex, changed in place by the three critical sections. */
  class SharedPool {
    var isClosed: bool
    var tasks: seq<Task>

    function Value(): Pool
      reads this
    {
      Pool(isClosed, tasks)
    }

    constructor ()
      ensures Value() == Init(0, []).pool
    {
      isClosed, tasks := false, [];
    }

    /** AddTask's critical section. */
    method AddTask(task: Task)
      modifies this
      ensures Value() == Pushed(old(Value()), task)
    {
      tasks := tasks + [task];
    }

    /** One pass of the worker's loop up to the point where it gives up the lock. */
    method WorkerTurn() returns (turn: Turn)
      modifies this
      ensures turn == TurnOf(old(Value())) && Value() == AfterTurn(old(Value()))
    {
      if |tasks| != 0 {
        turn := Take(tasks[0]);
        tasks := tasks[1..];
      } else if isClosed {
        turn := Leave;
      } else {
        turn := Wait;
      }
    }

    /** The destructor's critical section. */
    method Close()
      modifies this
      ensures Value() == ClosedOff(old(Value()))
    {
      isClosed := true;
    }
  }
}
