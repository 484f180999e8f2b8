/** What the manager of the elastic pool decides: on which numbers it creates threads or asks for
    retirements in any run, and what exactly a round does when nobody disturbs it. */
module ManagerRounds {
  import opened TaskRing
  import opened ElasticPool
  import opened PoolShutdown

  // ------------------------------------------------------------ in every run

  /** What the manager last read of queueSize, liveNum and busyNum. */
  datatype Sample = Sample(size: int, live: int, busy: int)

  /** The first two are read together with mutexPool held, the third later under mutexBusy. */
  ghost function Sampled(s: State, e: Event, o: Sample): Sample {
    if e.ManagerStep? && s.manager.Sampling? then Sample(s.pool.queueSize, s.pool.liveNum, o.busy)
    else if e.ManagerStep? && s.manager.SamplingBusy? then o.(busy := s.pool.busyNum)
    else o
  }

  ghost function LastSample(s: State, es: seq<Event>, o: Sample): Sample
    requires Possible(s, es)
    decreases |es|
  {
    if es == [] then o else LastSample(Next(s, es[0]), es[1..], Sampled(s, es[0], o))
  }

  ghost predicate Crowded(p: Pool, o: Sample) { o.size > o.live && o.live < p.maxNum }

  ghost predicate Slack(p: Pool, o: Sample) { o.busy * 2 < o.live && o.live > p.minNum }

  /** The manager's own copies are its last readings, and it has passed the tests on them. */
  ghost predicate SampleInv(s: State, o: Sample) {
    match s.manager
    case SamplingBusy(size, live) => size == o.size && live == o.live
    case GrowTest(size, live, busy) => o == Sample(size, live, busy)
    case GrowLock(live, busy) => live == o.live && busy == o.busy && Crowded(s.pool, o)
    case Growing(live, busy, _, _) => live == o.live && busy == o.busy && Crowded(s.pool, o)
    case ShrinkTest(live, busy) => live == o.live && busy == o.busy
    case Shrinking => Slack(s.pool, o)
    case _ => true
  }

  lemma StepKeepsSample(s: State, e: Event, o: Sample)
    requires SampleInv(s, o) && Enabled(s, e)
    ensures SampleInv(Next(s, e), Sampled(s, e, o))
  {
    hide FirstSlot;
    match e
    case ManagerStep(_) =>
    case WorkerStep(t) => SameManager(s, WorkerNext(s, t), o);
    case ProducerStep(j) => SameManager(s, ProducerNext(s, j), o);
    case _ =>
  }

  lemma SameManager(s: State, n: State, o: Sample)
    requires SampleInv(s, o) && n.manager == s.manager
    requires n.pool.minNum == s.pool.minNum && n.pool.maxNum == s.pool.maxNum
    ensures SampleInv(n, o)
  {
  }

  lemma {:induction false} RunKeepsSample(s: State, es: seq<Event>, o: Sample)
    requires SampleInv(s, o) && Possible(s, es)
    ensures SampleInv(Run(s, es), LastSample(s, es, o))
    decreases |es|
  {
    hide SampleInv, Enabled, Next;
    if es != [] {
      StepKeepsSample(s, es[0], o);
      RunKeepsSample(Next(s, es[0]), es[1..], Sampled(s, es[0], o));
    }
  }

  /** In every run a thread is created only after the manager last read more tasks than threads and
      fewer threads than maxNum, and exitNum is raised only after it last read fewer than half of
      the threads busy and more threads than minNum. Nobody else does either. */
  lemma ManagerActsOnSample(min: nat, max: nat, ring: seq<Task>, jobs: seq<Task>, es: seq<Event>, e: Event, o: Sample)
    requires Possible(Init(min, max, ring, jobs), es) && Enabled(Run(Init(min, max, ring, jobs), es), e)
    ensures var s := Run(Init(min, max, ring, jobs), es);
            var n, r := Next(s, e), LastSample(Init(min, max, ring, jobs), es, o);
            && (n.workers.Keys != s.workers.Keys || n.pool.liveNum > s.pool.liveNum ==>
                  r.size > r.live && r.live < s.pool.maxNum)
            && (n.pool.exitNum > s.pool.exitNum ==> 2 * r.busy < r.live && r.live > s.pool.minNum)
  {
    var s := Run(Init(min, max, ring, jobs), es);
    RunKeepsSample(Init(min, max, ring, jobs), es, o);
    hide Init, Run, Possible, LastSample;
    ActsOnSample(s, e, LastSample(Init(min, max, ring, jobs), es, o));
  }

  lemma ActsOnSample(s: State, e: Event, r: Sample)
    requires SampleInv(s, r) && Enabled(s, e)
    ensures var n := Next(s, e);
            && (n.workers.Keys != s.workers.Keys || n.pool.liveNum > s.pool.liveNum ==> Crowded(s.pool, r))
            && (n.pool.exitNum > s.pool.exitNum ==> Slack(s.pool, r))
  {
    hide FirstSlot;
    match e
    case WorkerStep(t) => assert WorkerNext(s, t).workers.Keys == s.workers.Keys;
    case ManagerStep(_) =>
    case WorkerWake(t) => assert Next(s, e).workers.Keys == s.workers.Keys;
    case Signal(_, _) => assert Next(s, e).workers.Keys == s.workers.Keys;
    case _ =>
  }

  /** While mutexPool is held no other thread changes, nor does the manager read, what it guards;
      busyNum has its own lock, shutdown and the slots have none. */
  lemma HolderAlone(s: State, e: Event, o: Sample)
    requires Reachable(s) && Enabled(s, e) && s.holder != Nobody && ActorOf(e) != s.holder
    ensures var n := Next(s, e);
            && n.holder == s.holder && n.accepted == s.accepted && n.taken == s.taken
            && n.pool == s.pool.(busyNum := n.pool.busyNum, shutdown := n.pool.shutdown,
                                 threadIDs := n.pool.threadIDs)
            && Sampled(s, e, o) == o.(busy := Sampled(s, e, o).busy)
  {
    ReachableInv(s);
    hide QueueInv, TestInv, CountInv, SlotInv, TicketInv, CoverInv, DestroyInv, FirstSlot, Reachable;
    match e
    case WorkerStep(t) => WorkerOutside(s, t);
    case ManagerStep(newTid) => ManagerOutside(s, newTid, o);
    case Signal(ringer, woken) => hide WorkerNext, ProducerNext, ManagerNext, DestroyerNext;
    case _ => hide WorkerNext, ManagerNext, AfterSignal;
  }

  lemma ManagerOutside(s: State, newTid: Tid, o: Sample)
    requires LockInv(s) && Enabled(s, ManagerStep(newTid)) && s.holder != Nobody && s.holder != Manager
    ensures var n := ManagerNext(s, newTid);
            n.holder == s.holder && n.accepted == s.accepted && n.taken == s.taken && n.pool == s.pool
    ensures !s.manager.Sampling?
  {
  }

  lemma WorkerOutside(s: State, t: Tid)
    requires LockInv(s) && Enabled(s, WorkerStep(t)) && s.holder != Nobody && s.holder != Worker(t)
    ensures var n := WorkerNext(s, t);
            && n.holder == s.holder && n.accepted == s.accepted && n.taken == s.taken
            && n.pool == s.pool.(busyNum := n.pool.busyNum, threadIDs := n.pool.threadIDs)
            && n.manager == s.manager
  {
    hide FirstSlot;
  }

  // -------------------------------------------------------- undisturbed rounds

  ghost predicate ManagersOwn(e: Event) {
    e.ManagerStep? || (e.Signal? && e.ringer == Manager)
  }

  /** es are the manager's steps from s to its next arrival at the head of its loop. */
  ghost predicate RoundFrom(s: State, es: seq<Event>)
    decreases |es|
  {
    if es == [] then s.manager.Idle?
    else !s.manager.Idle? && ManagersOwn(es[0]) && Enabled(s, es[0]) && RoundFrom(Next(s, es[0]), es[1..])
  }

  ghost predicate Round(s: State, es: seq<Event>) {
    s.manager.Idle? && es != [] && es[0].ManagerStep? && Enabled(s, es[0]) && RoundFrom(Next(s, es[0]), es[1..])
  }

  function Grown(p: Pool, i: nat, cnt: nat): int {
    p.liveNum + Min(NUM - cnt, Min(p.maxNum - p.liveNum, FreeFrom(p.threadIDs, i)))
  }

  /** liveNum at the end of the round. */
  function LiveAtEnd(s: State): int {
    var p := s.pool;
    match s.manager
    case Sampling => if p.queueSize > p.liveNum && p.liveNum < p.maxNum then Grown(p, 0, 0) else p.liveNum
    case SamplingBusy(size, live) => if size > live && live < p.maxNum then Grown(p, 0, 0) else p.liveNum
    case GrowTest(size, live, _) => if size > live && live < p.maxNum then Grown(p, 0, 0) else p.liveNum
    case GrowLock(_, _) => Grown(p, 0, 0)
    case Growing(_, _, i, cnt) => Grown(p, i, cnt)
    case _ => p.liveNum
  }

  /** Whether the round is to ask for retirements, if that is still open. */
  function Shrinks(s: State): bool {
    var p := s.pool;
    match s.manager
    case Sampling => p.busyNum * 2 < p.liveNum && p.liveNum > p.minNum
    case SamplingBusy(_, live) => p.busyNum * 2 < live && live > p.minNum
    case GrowTest(_, live, busy) => busy * 2 < live && live > p.minNum
    case GrowLock(live, busy) => busy * 2 < live && live > p.minNum
    case Growing(live, busy, _, _) => busy * 2 < live && live > p.minNum
    case ShrinkTest(live, busy) => busy * 2 < live && live > p.minNum
    case Shrinking => true
    case _ => false
  }

  /** The signals the round still sends. */
  function SignalsLeft(s: State): int {
    if s.manager.Rousing? then NUM - s.manager.n else if Shrinks(s) then NUM else 0
  }

  ghost function SleepersAtEnd(s: State): int {
    Max(0, |Sleepers(s.workers)| - SignalsLeft(s))
  }

  ghost predicate CountersOk(s: State) {
    && (s.manager.Growing? ==> s.manager.cnt <= NUM)
    && (s.manager.Rousing? ==> s.manager.n <= NUM)
    && |s.pool.threadIDs| == s.pool.maxNum && s.pool.liveNum <= s.pool.maxNum
  }

  /** A step of the round leads to the same end. */
  ghost predicate SameEnd(s: State, n: State) {
    && LiveAtEnd(n) == LiveAtEnd(s)
    && (if Shrinks(n) then NUM else n.pool.exitNum) == (if Shrinks(s) then NUM else s.pool.exitNum)
    && SleepersAtEnd(n) == SleepersAtEnd(s)
    && n.pool == s.pool.(liveNum := n.pool.liveNum, exitNum := n.pool.exitNum, threadIDs := n.pool.threadIDs)
    && |n.workers| - n.pool.liveNum == |s.workers| - s.pool.liveNum
    && n.producers == s.producers && n.destroyer == s.destroyer
  }

  lemma RoundStep(s: State, e: Event)
    requires CountersOk(s) && ManagersOwn(e) && Enabled(s, e) && !s.manager.Idle?
    ensures CountersOk(Next(s, e)) && SameEnd(s, Next(s, e))
  {
    match e
    case Signal(_, woken) => RousingStep(s, woken);
    case ManagerStep(newTid) =>
      if s.manager.Growing? { GrowingStep(s, newTid); } else { DecidingStep(s, newTid); }
  }

  lemma DecidingStep(s: State, newTid: Tid)
    requires CountersOk(s) && Enabled(s, ManagerStep(newTid)) && !s.manager.Growing? && !s.manager.Idle?
    ensures var n := ManagerNext(s, newTid); CountersOk(n) && SameEnd(s, n)
  {
    hide FreeFrom, Sleepers;
  }

  lemma GrowingStep(s: State, newTid: Tid)
    requires CountersOk(s) && Enabled(s, ManagerStep(newTid)) && s.manager.Growing?
    ensures var n := ManagerNext(s, newTid); CountersOk(n) && SameEnd(s, n)
  {
    GrowingGrows(s, newTid);
    GrowingKeepsSleepers(s, newTid);
    hide Sleepers, FreeFrom, Grown, KeepsGrowing, Creates;
  }

  lemma GrowingGrows(s: State, newTid: Tid)
    requires CountersOk(s) && Enabled(s, ManagerStep(newTid)) && s.manager.Growing?
    ensures var n := ManagerNext(s, newTid); LiveAtEnd(n) == LiveAtEnd(s) && CountersOk(n)
  {
    var n := ManagerNext(s, newTid);
    var i := s.manager.i;
    if KeepsGrowing(s.pool, i, s.manager.cnt) { FreeUnchanged(s.pool.threadIDs, n.pool.threadIDs, i + 1); }
  }

  lemma StartedSleepers(ws: map<Tid, WorkerPhase>, t: Tid)
    requires t !in ws
    ensures Sleepers(ws[t := Start]) == Sleepers(ws) && |ws[t := Start]| == |ws| + 1
  {
    assert ws[t := Start].Keys == ws.Keys + {t};
  }

  lemma GrowingKeepsSleepers(s: State, newTid: Tid)
    requires Enabled(s, ManagerStep(newTid)) && s.manager.Growing?
    ensures var n := ManagerNext(s, newTid);
            && Sleepers(n.workers) == Sleepers(s.workers)
            && |n.workers| - n.pool.liveNum == |s.workers| - s.pool.liveNum
  {
    var n := ManagerNext(s, newTid);
    if n.workers != s.workers { StartedSleepers(s.workers, newTid); }
  }

  lemma RousingStep(s: State, woken: Agent)
    requires CountersOk(s) && Enabled(s, Signal(Manager, woken))
    ensures var n := Next(s, Signal(Manager, woken)); CountersOk(n) && SameEnd(s, n)
  {
    var n := Next(s, Signal(Manager, woken));
    if woken.Worker? {
      MovedSleeper(s.workers, woken.t, Waking);
      SomeSleeper(s.workers);
      assert n.workers.Keys == s.workers.Keys;
    } else {
      SomeSleeper(s.workers);
    }
    hide Sleepers;
  }

  lemma {:induction false} RoundEnds(s: State, es: seq<Event>)
    requires CountersOk(s) && RoundFrom(s, es)
    ensures Possible(s, es) && CountersOk(Run(s, es)) && SameEnd(s, Run(s, es)) && Run(s, es).manager.Idle?
    decreases |es|
  {
    hide CountersOk, SameEnd, Enabled, Next, ManagersOwn;
    if es == [] {
      SameEndRefl(s);
    } else {
      RoundStep(s, es[0]);
      RoundEnds(Next(s, es[0]), es[1..]);
      SameEndTrans(s, Next(s, es[0]), Run(s, es));
    }
  }

  lemma SameEndRefl(s: State)
    ensures SameEnd(s, s)
  {
  }

  lemma SameEndTrans(s: State, n: State, t: State)
    requires SameEnd(s, n) && SameEnd(n, t)
    ensures SameEnd(s, t)
  {
    hide LiveAtEnd, Shrinks, SleepersAtEnd;
  }

  lemma {:induction false} FreeSlots(ids: seq<Tid>, i: nat)
    requires i <= |ids|
    ensures FreeFrom(ids, i) + |set k: nat | i <= k < |ids| && ids[k] != 0| == |ids| - i
    decreases |ids| - i
  {
    var used := set k: nat | i <= k < |ids| && ids[k] != 0;
    if i < |ids| {
      FreeSlots(ids, i + 1);
      assert used - {i} == set k: nat | i + 1 <= k < |ids| && ids[k] != 0;
      OneElement(used, i);
    } else {
      assert used == {};
    }
  }

  /** A round that nobody disturbs creates threads exactly when there are more tasks than threads and
      fewer threads than maxNum: two, or as many as maxNum and the free slots allow. It asks for two
      retirements exactly when fewer than half of the threads are busy and there are more than
      minNum, and then wakes two sleeping workers, or all if there are fewer. */
  lemma UndisturbedRound(s: State, es: seq<Event>)
    requires Reachable(s) && !s.pool.shutdown && Round(s, es)
    ensures Possible(s, es)
    ensures var p, n := s.pool, Run(s, es);
            var created := if p.queueSize > p.liveNum && p.liveNum < p.maxNum
                           then Min(2, Min(p.maxNum - p.liveNum, p.maxNum - |Occupied(p.threadIDs)|)) else 0;
            var shrinks := 2 * p.busyNum < p.liveNum && p.liveNum > p.minNum;
            && n.manager.Idle?
            && n.pool.liveNum == p.liveNum + created && |n.workers| == |s.workers| + created
            && n.pool.exitNum == (if shrinks then 2 else p.exitNum)
            && |Sleepers(n.workers)| == Max(0, |Sleepers(s.workers)| - if shrinks then 2 else 0)
            && n.pool == p.(liveNum := n.pool.liveNum, exitNum := n.pool.exitNum, threadIDs := n.pool.threadIDs)
            && n.producers == s.producers
  {
    var q := Next(s, es[0]);
    FreeSlots(s.pool.threadIDs, 0);
    assert Occupied(s.pool.threadIDs)
        == set k: nat | 0 <= k < |s.pool.threadIDs| && s.pool.threadIDs[k] != 0;
    StartsCounting(s);
    hide Reachable, FreeFrom, Sleepers, Occupied;
    assert q == s.(manager := Sampling);
    RoundEnds(q, es[1..]);
  }

  lemma StartsCounting(s: State)
    requires Reachable(s)
    ensures |s.pool.threadIDs| == s.pool.maxNum && s.pool.liveNum <= s.pool.maxNum
  {
    ReachableInv(s);
  }

  /** There is such a round from every reachable state in which the manager is at the head of its
      loop and the lock is free. */
  lemma RoundFromIdle(s: State) returns (es: seq<Event>)
    requires Reachable(s) && !s.pool.shutdown && s.manager.Idle? && s.holder == Nobody
    ensures Round(s, es)
  {
    ReachableInv(s);
    var e := ManagerStep(1);
    StepKeepsInv(s, e);
    hide Inv;
    var rest := RoundOn(Next(s, e));
    es := [e] + rest;
    assert es[1..] == rest;
  }

  lemma {:induction false} RoundOn(s: State) returns (es: seq<Event>)
    requires Inv(s) && (s.holder == Nobody || s.holder == Manager) && !s.manager.Over?
    ensures RoundFrom(s, es)
    decreases ManagerCost(s.manager, Left(0, s.pool.maxNum))
  {
    es := [];
    if !s.manager.Idle? {
      var e := ManagerMove(s);
      StepKeepsInv(s, e);
      hide Inv, Enabled, Next, ManagersOwn, ManagerCost;
      var rest := RoundOn(Next(s, e));
      es := [e] + rest;
      assert es[1..] == rest;
    }
  }

  lemma ManagerMove(s: State) returns (e: Event)
    requires Inv(s) && (s.holder == Nobody || s.holder == Manager) && !s.manager.Over? && !s.manager.Idle?
    ensures ManagersOwn(e) && Enabled(s, e)
    ensures var n := Next(s, e);
            && (n.holder == Nobody || n.holder == Manager) && !n.manager.Over?
            && n.pool.maxNum == s.pool.maxNum
            && ManagerCost(n.manager, Left(0, n.pool.maxNum)) < ManagerCost(s.manager, Left(0, s.pool.maxNum))
  {
    hide QueueInv, TestInv, CountInv, TicketInv, CoverInv, DestroyInv;
    if Rings(s, Manager) {
      e := SignalMoves(s, Manager);
    } else if s.holder == Manager {
      e := HolderMoves(s);
    } else {
      e := ManagerStep(1);
    }
  }
}
