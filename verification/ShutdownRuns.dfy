/** Runs of the elastic pool in which threadPoolDestroy leaves a thread waiting for ever, one for
    each of the ways in which PoolShutdown's conditions can fail. */
module ShutdownRuns {
  import opened TaskRing
  import opened ElasticPool
  import opened PoolShutdown

  lemma Goes(s: State, e: Event) returns (n: State)
    requires Reachable(s) && Enabled(s, e)
    ensures n == Next(s, e) && Reachable(n)
  {
    hide Enabled, Next, Init;
    n := Next(s, e);
    var min: nat, max: nat, ring, jobs, es :| ReachedBy(s, min, max, ring, jobs, es);
    RunExtends(Init(min, max, ring, jobs), es, e);
    assert ReachedBy(n, min, max, ring, jobs, es + [e]);
  }

  lemma {:induction false} RunExtends(s: State, es: seq<Event>, e: Event)
    requires Possible(s, es) && Enabled(Run(s, es), e)
    ensures Possible(s, es + [e]) && Run(s, es + [e]) == Next(Run(s, es), e)
    decreases |es|
  {
    hide Enabled, Next;
    if es == [] {
      assert ([e])[1..] == [];
    } else {
      assert (es + [e])[1..] == es[1..] + [e];
      RunExtends(Next(s, es[0]), es[1..], e);
    }
  }

  lemma StartsReachable(min: nat, max: nat, ring: seq<Task>, jobs: seq<Task>) returns (s: State)
    requires min <= max
    ensures s == Init(min, max, ring, jobs) && Reachable(s)
  {
    s := Init(min, max, ring, jobs);
    assert ReachedBy(s, min, max, ring, jobs, []);
  }

  /** The lost signal: the only worker reads shutdown unset; then threadPoolDestroy sets it, joins
      the manager and begins to signal, while nobody waits yet. */
  lemma ShutdownSignalLost() returns (s: State)
    ensures Reachable(s) && s.workers == map[1 := AboutToWait] && s.destroyer == Counting(0)
    ensures !AlwaysFreesWorkers(s)
  {
    s := WorkerOvertaken();
    hide Reachable, AlwaysFreesWorkers;
    FreesWorkersIff(s);
  }

  lemma WorkerOvertaken() returns (s: State)
    ensures Reachable(s) && Ending(s) && StillToSleep(s)
    ensures s.workers == map[1 := AboutToWait] && s.destroyer == Counting(0)
  {
    s := ShutdownUnseen();
    hide Reachable, WorkerNext, ProducerNext;
    s := Goes(s, Shutdown);
    s := Goes(s, ManagerStep(2));
    s := Goes(s, DestroyerStep);
  }

  lemma ShutdownUnseen() returns (s: State)
    ensures Reachable(s) && s.workers == map[1 := AboutToWait] && s.holder == Worker(1)
    ensures s.manager.Idle? && s.destroyer.Serving?
  {
    hide Reachable, ManagerNext, ProducerNext;
    s := StartsReachable(1, 1, [], []);
    assert s.workers == map[1 := Start] by { assert Started(0) == map[]; }
    s := Goes(s, WorkerStep(1));
    s := Goes(s, WorkerStep(1));
  }

  /** A producer waits at a full queue when shutdown is set, before the worker has taken the task:
      nobody will signal notFull. */
  lemma ProducerLeftBlocked(a: Task, b: Task) returns (s: State)
    ensures Reachable(s) && s.pool.shutdown && s.producers == [Returned, Blocked(b)]
    ensures !AlwaysFreesProducers(s)
  {
    s := QueueFull(a, b);
    hide Reachable;
    s := Goes(s, ProducerStep(1));
    s := Goes(s, ProducerStep(1));
    s := Goes(s, ProducerStep(1));
    s := Goes(s, Shutdown);
    hide AlwaysFreesProducers, Enabled, Next;
    FreesProducersIff(s);
    NoneBlocked(s.producers);
  }

  lemma QueueFull(a: Task, b: Task) returns (s: State)
    ensures Reachable(s) && s.holder == Nobody && s.pool.queueSize == s.pool.queueCapacity == 1
    ensures s.destroyer.Serving? && !s.pool.shutdown && s.producers == [Returned, Calling(b)]
  {
    hide Reachable;
    s := StartsReachable(1, 1, [a], [a, b]);
    assert s.workers == map[1 := Start] by { assert Started(0) == map[]; }
    s := Goes(s, ProducerStep(0));
    s := Goes(s, ProducerStep(0));
    s := Goes(s, ProducerStep(0));
    s := Goes(s, ProducerStep(0));
    s := Goes(s, Signal(Producer(0), Nobody));
  }

  /** The signals outrun: two workers sleep, two retirements are still asked for from a time when
      nobody slept, and the first worker woken may lower liveNum before the second signal. */
  lemma RetirementOutruns(a: Task) returns (s: State)
    ensures Reachable(s) && s.destroyer == Counting(0) && s.holder == Nobody
    ensures s.workers == map[1 := Asleep, 2 := Asleep] && s.pool.liveNum == 2 && s.pool.exitNum == 2
    ensures !AlwaysFreesWorkers(s)
  {
    s := OneQueued(a);
    s := TwoCreated(a, s);
    s := ShrinkAsked(a, s);
    s := TaskTaken(a, s);
    s := TaskRun(a, s);
    s := BothAsleep(a, s);
    hide Reachable, AlwaysFreesWorkers;
    SignalsReachAll(s);
  }

  /** minNum 0, maxNum 2 and a ring of one slot, between two stages of the run. */
  function Stage(a: Task, size: int, live: int, exit: int, ids: seq<Tid>,
                 workers: map<Tid, WorkerPhase>, taken: nat, finished: seq<(nat, Task)>): State
  {
    State(Pool(0, 2, 1, [a], size, 0, 0, 0, live, exit, false, ids), Nobody, workers, [Returned],
          Idle, Serving, [a], taken, finished)
  }

  lemma OneQueued(a: Task) returns (s: State)
    ensures Reachable(s)
    ensures s == Stage(a, 1, 0, 0, [0, 0], map[], 0, [])
  {
    hide Reachable, WorkerNext, ManagerNext, DestroyerNext;
    s := StartsReachable(0, 2, [a], [a]);
    s := Goes(s, ProducerStep(0));
    s := Goes(s, ProducerStep(0));
    s := Goes(s, ProducerStep(0));
    s := Goes(s, ProducerStep(0));
    s := Goes(s, Signal(Producer(0), Nobody));
  }

  lemma TwoCreated(a: Task, r: State) returns (s: State)
    requires Reachable(r)
    requires r == Stage(a, 1, 0, 0, [0, 0], map[], 0, [])
    ensures Reachable(s)
    ensures s == Stage(a, 1, 2, 0, [1, 2], map[1 := Start, 2 := Start], 0, [])
  {
    hide Reachable, WorkerNext, ProducerNext, DestroyerNext, AfterSignal, Awoken, Put, Take, FirstSlot;
    s := Goes(r, ManagerStep(1));
    s := Goes(s, ManagerStep(1));
    s := Goes(s, ManagerStep(1));
    s := Goes(s, ManagerStep(1));
    s := Goes(s, ManagerStep(1));
    s := Goes(s, ManagerStep(1));
    s := Goes(s, ManagerStep(2));
    s := Goes(s, ManagerStep(3));
    s := Goes(s, ManagerStep(3));
  }

  lemma ShrinkAsked(a: Task, r: State) returns (s: State)
    requires Reachable(r)
    requires r == Stage(a, 1, 2, 0, [1, 2], map[1 := Start, 2 := Start], 0, [])
    ensures Reachable(s)
    ensures s == Stage(a, 1, 2, 2, [1, 2], map[1 := Start, 2 := Start], 0, [])
  {
    hide Reachable, WorkerNext, ProducerNext, DestroyerNext, Put, Take, FirstSlot;
    s := Goes(r, ManagerStep(3));
    s := Goes(s, ManagerStep(3));
    s := Goes(s, ManagerStep(3));
    s := Goes(s, ManagerStep(3));
    s := Goes(s, ManagerStep(3));
    s := Goes(s, ManagerStep(3));
    s := Goes(s, Signal(Manager, Nobody));
    s := Goes(s, Signal(Manager, Nobody));
    s := Goes(s, ManagerStep(3));
  }

  lemma TaskTaken(a: Task, r: State) returns (s: State)
    requires Reachable(r)
    requires r == Stage(a, 1, 2, 2, [1, 2], map[1 := Start, 2 := Start], 0, [])
    ensures Reachable(s)
    ensures s == Stage(a, 0, 2, 2, [1, 2], map[1 := Taken(0, a), 2 := Start], 1, [])
  {
    hide Reachable, ManagerNext, ProducerNext, DestroyerNext, Put, FirstSlot;
    s := Goes(r, WorkerStep(1));
    s := Goes(s, WorkerStep(1));
    s := Goes(s, WorkerStep(1));
    s := Goes(s, WorkerStep(1));
    s := Goes(s, Signal(Worker(1), Nobody));
  }

  lemma TaskRun(a: Task, r: State) returns (s: State)
    requires Reachable(r)
    requires r == Stage(a, 0, 2, 2, [1, 2], map[1 := Taken(0, a), 2 := Start], 1, [])
    ensures Reachable(s)
    ensures s == Stage(a, 0, 2, 2, [1, 2], map[1 := Asleep, 2 := Start], 1, [(0, a)])
  {
    hide Reachable, ManagerNext, ProducerNext, DestroyerNext, AfterSignal, Awoken, Put, Take, FirstSlot;
    s := Goes(r, WorkerStep(1));
    s := Goes(s, WorkerStep(1));
    s := Goes(s, WorkerStep(1));
    s := Goes(s, WorkerStep(1));
    s := Goes(s, WorkerStep(1));
    s := Goes(s, WorkerStep(1));
  }

  lemma BothAsleep(a: Task, r: State) returns (s: State)
    requires Reachable(r)
    requires r == Stage(a, 0, 2, 2, [1, 2], map[1 := Asleep, 2 := Start], 1, [(0, a)])
    ensures Reachable(s) && s.destroyer == Counting(0) && s.holder == Nobody
    ensures s.workers == map[1 := Asleep, 2 := Asleep] && s.pool.liveNum == s.pool.exitNum == 2 && s.pool.minNum == 0
  {
    hide Reachable, ProducerNext, AfterSignal, Awoken, Put, Take, FirstSlot;
    s := Goes(r, WorkerStep(2));
    s := Goes(s, WorkerStep(2));
    s := Goes(s, WorkerStep(2));
    s := Goes(s, Shutdown);
    s := Goes(s, ManagerStep(3));
    s := Goes(s, DestroyerStep);
  }
}
