/** The critical sections of the elastic pool as its callers see them: who waits when, and what one
    look of a worker at the queue and one threadPoolAdd come to. */
module PoolSections {
  import opened TaskRing
  import opened ElasticPool

  /** In every run a worker begins to wait only at an empty queue, a producer only at a full one. */
  lemma WaitsOnlyInVain(s: State, e: Event)
    requires Reachable(s) && Enabled(s, e)
    ensures RingOk(s.pool)
    ensures forall t :: t in Next(s, e).workers && Next(s, e).workers[t].Asleep? ==>
      (t in s.workers && s.workers[t].Asleep?) || Contents(s.pool) == []
    ensures forall j: nat :: j < |Next(s, e).producers| && Next(s, e).producers[j].Blocked? ==>
      (j < |s.producers| && s.producers[j].Blocked?) || |Contents(s.pool)| == s.pool.queueCapacity
  {
    ReachableInv(s);
    EmptyIffNone(s.pool);
    SleepsOnlyAtEmpty(s, e);
    BlocksOnlyAtFull(s, e);
    hide *;
  }

  lemma EmptyIffNone(p: Pool)
    requires RingOk(p)
    ensures |Contents(p)| == p.queueSize
  {
  }

  lemma SleepsOnlyAtEmpty(s: State, e: Event)
    requires TestInv(s) && Enabled(s, e)
    ensures forall t :: t in Next(s, e).workers && Next(s, e).workers[t].Asleep? ==>
      (t in s.workers && s.workers[t].Asleep?) || s.pool.queueSize == 0
  {
    hide FirstSlot;
  }

  lemma BlocksOnlyAtFull(s: State, e: Event)
    requires TestInv(s) && Enabled(s, e)
    ensures forall j: nat :: j < |Next(s, e).producers| && Next(s, e).producers[j].Blocked? ==>
      (j < |s.producers| && s.producers[j].Blocked?) || s.pool.queueSize == s.pool.queueCapacity
  {
    hide FirstSlot;
  }

  function Times(e: Event, n: nat): (es: seq<Event>)
    ensures |es| == n
  {
    if n == 0 then [] else [e] + Times(e, n - 1)
  }

  lemma TwoSteps(s: State, e: Event)
    requires Enabled(s, e) && Enabled(Next(s, e), e)
    ensures Possible(s, Times(e, 2)) && Run(s, Times(e, 2)) == Next(Next(s, e), e)
  {
    hide Enabled, Next;
    assert Times(e, 2) == [e, e] && [e, e][1..] == [e] && [e][1..] == [];
    assert Possible(Next(s, e), [e]);
    assert Run(Next(s, e), [e]) == Run(Next(Next(s, e), e), []);
  }

  lemma ThreeSteps(s: State, e: Event)
    requires Enabled(s, e) && Enabled(Next(s, e), e) && Enabled(Next(Next(s, e), e), e)
    ensures Possible(s, Times(e, 3)) && Run(s, Times(e, 3)) == Next(Next(Next(s, e), e), e)
  {
    TwoSteps(Next(s, e), e);
    assert Times(e, 3)[1..] == Times(e, 2);
  }

  /** A worker that looks at a queue with tasks, shutdown unset, takes the oldest one; it does not wait. */
  lemma LookTakes(s: State, t: Tid)
    requires Reachable(s) && t in s.workers && s.workers[t].LoopTest?
    requires RingOk(s.pool) && Contents(s.pool) != [] && !s.pool.shutdown
    ensures Possible(s, Times(WorkerStep(t), 3))
    ensures var n := Run(s, Times(WorkerStep(t), 3));
            && t in n.workers && n.workers[t] == Signalling(s.taken, Contents(s.pool)[0])
            && RingOk(n.pool) && Contents(n.pool) == Contents(s.pool)[1..] && n.taken == s.taken + 1
            && n.accepted == s.accepted && n.holder == Worker(t)
  {
    HoldsLock(s, t);
    hide Reachable, Contents, RingOk;
    EmptyOrMore(s.pool);
    TakeRemovesOldest(s.pool);
    TakingSteps(s, t);
    hide *;
  }

  lemma TakingSteps(s: State, t: Tid)
    requires t in s.workers && s.workers[t].LoopTest? && s.pool.queueSize != 0 && !s.pool.shutdown
    requires s.pool.queueFront < |s.pool.taskQ| && s.pool.queueCapacity > 0
    ensures Possible(s, Times(WorkerStep(t), 3))
    ensures var n := Run(s, Times(WorkerStep(t), 3));
            && n == s.(pool := Take(s.pool), taken := s.taken + 1, workers := n.workers)
            && t in n.workers && n.workers[t] == Signalling(s.taken, s.pool.taskQ[s.pool.queueFront])
  {
    var e := WorkerStep(t);
    hide Take, RetireCheck, Vacate, Times, Run, Possible;
    var a := Next(s, e);
    assert a == s.(workers := s.workers[t := ShutdownTest]);
    var b := Next(a, e);
    assert b == a.(workers := a.workers[t := Taking]);
    ThreeSteps(s, e);
  }

  lemma HoldsLock(s: State, t: Tid)
    requires Reachable(s) && t in s.workers && s.workers[t].LoopTest?
    ensures s.holder == Worker(t)
  {
    ReachableInv(s);
  }

  /** At an empty queue it waits and gives up the lock; once shutdown is set it leaves without a task. */
  lemma LookTakesNothing(s: State, t: Tid)
    requires t in s.workers && s.workers[t].LoopTest?
    requires RingOk(s.pool) && (Contents(s.pool) == [] || s.pool.shutdown)
    ensures Possible(s, Times(WorkerStep(t), 2))
    ensures Run(s, Times(WorkerStep(t), 2))
         == s.(workers := s.workers[t := if s.pool.shutdown then Closing else Asleep], holder := Nobody)
  {
    hide Contents, RingOk;
    EmptyOrMore(s.pool);
    TwoSteps(s, WorkerStep(t));
    var w := WorkerNext(s, t).workers[t];
    assert s.workers[t := w][t := Closing] == s.workers[t := Closing];
    assert s.workers[t := w][t := Asleep] == s.workers[t := Asleep];
  }

  /** threadPoolAdd with the lock, shutdown unset and room in the ring, accepts the task at the end. */
  lemma AddAccepts(s: State, j: nat)
    requires j < |s.producers| && s.producers[j].SizeTest?
    requires RingOk(s.pool) && |Contents(s.pool)| < s.pool.queueCapacity && !s.pool.shutdown
    ensures Possible(s, Times(ProducerStep(j), 3))
    ensures var n, job := Run(s, Times(ProducerStep(j), 3)), s.producers[j].job;
            && |n.producers| == |s.producers| && n.producers[j].Notifying?
            && RingOk(n.pool) && Contents(n.pool) == Contents(s.pool) + [job]
            && n.accepted == s.accepted + [job] && n.taken == s.taken && n.holder == s.holder
  {
    hide Put, Contents, RingOk;
    EmptyOrMore(s.pool);
    PutAppends(s.pool, s.producers[j].job);
    ThreeSteps(s, ProducerStep(j));
  }

  /** At a full ring it blocks with its task and gives up the lock; once shutdown is set it returns
      without having added anything. */
  lemma AddAcceptsNothing(s: State, j: nat)
    requires j < |s.producers| && s.producers[j].SizeTest?
    requires RingOk(s.pool) && (|Contents(s.pool)| == s.pool.queueCapacity || s.pool.shutdown)
    ensures Possible(s, Times(ProducerStep(j), 2))
    ensures Run(s, Times(ProducerStep(j), 2))
         == s.(producers := s.producers[j := if s.pool.shutdown then Returned else Blocked(s.producers[j].job)],
               holder := Nobody)
  {
    hide Contents, RingOk;
    TwoSteps(s, ProducerStep(j));
    var r := ProducerNext(s, j).producers[j];
    assert s.producers[j := r][j := Returned] == s.producers[j := Returned];
  }
}
