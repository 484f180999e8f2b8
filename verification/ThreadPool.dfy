/** The shared fields of the elastic pool as the memory its threads change: each method is one
    critical section, proved to do to the fields what the protocol's step says. */
module ThreadPools {
  import opened TaskRing

  class ThreadPool {
    const minNum: nat
    const maxNum: nat
    const queueCapacity: nat
    const taskQ: array<Task>
    const threadIDs: array<Tid>
    var queueSize: int
    var queueFront: nat
    var queueRear: nat
    var busyNum: int
    var liveNum: int
    var exitNum: int
    var shutdown: bool

    ghost function Value(): Pool
      reads this, taskQ, threadIDs
    {
      Pool(minNum, maxNum, queueCapacity, taskQ[..], queueSize, queueFront, queueRear,
           busyNum, liveNum, exitNum, shutdown, threadIDs[..])
    }

    constructor (min: nat, max: nat, capacity: nat)
      requires min <= max
      ensures Value() == InitPool(min, max, taskQ[..])
      ensures fresh(taskQ) && fresh(threadIDs) && queueCapacity == capacity
    {
      minNum, maxNum, queueCapacity := min, max, capacity;
      taskQ := new Task[capacity];
      var slots := new Tid[max](_ => 0);
      threadIDs := slots;
      queueSize, queueFront, queueRear := 0, 0, 0;
      busyNum, liveNum, exitNum, shutdown := 0, min, 0, false;
      new;
      for i := 0 to min
        modifies threadIDs
        invariant forall k :: 0 <= k < max ==> threadIDs[k] == if k < i then k + 1 else 0
      {
        threadIDs[i] := i + 1;
      }
      assert threadIDs[..] == InitPool(min, max, taskQ[..]).threadIDs && |taskQ[..]| == capacity;
    }

    /** threadPoolAdd, once the queue has room and shutdown was found unset. */
    method Add(task: Task)
      requires queueRear < taskQ.Length && queueCapacity > 0
      modifies this, taskQ
      ensures Value() == Put(old(Value()), task)
    {
      taskQ[queueRear] := task;
      queueRear := (queueRear + 1) % queueCapacity;
      queueSize := queueSize + 1;
    }

    /** A worker's critical section, once the queue is not empty and shutdown was found unset. */
    method TakeTask() returns (task: Task)
      requires queueFront < taskQ.Length && queueCapacity > 0
      modifies this
      ensures Value() == Take(old(Value())) && task == taskQ[old(queueFront)]
    {
      task := taskQ[queueFront];
      queueFront := (queueFront + 1) % queueCapacity;
      queueSize := queueSize - 1;
    }

    /** A worker's check after waiting; tells whether it has to exit. */
    method CheckRetire() returns (exits: bool)
      modifies this
      ensures Value() == RetireCheck(old(Value())) && exits == Retires(old(Value()))
    {
      exits := false;
      if exitNum > 0 {
        exitNum := exitNum - 1;
        if liveNum > minNum {
          liveNum := liveNum - 1;
          exits := true;
        }
      }
    }

    /** threadExit's search for the caller's own slot. */
    method ThreadExit(tid: Tid)
      requires threadIDs.Length == maxNum && tid > 0
      modifies threadIDs
      ensures Value() == Vacate(old(Value()), tid)
    {
      ghost var ids := threadIDs[..];
      var i := 0;
      while i < maxNum
        invariant i <= maxNum && threadIDs[..] == ids && tid !in ids[..i]
      {
        if threadIDs[i] == tid {
          FirstSlotIs(ids, tid, i);
          threadIDs[i] := 0;
          return;
        }
        i := i + 1;
      }
      NoSlot(ids, tid);
    }

    /** The manager's growing loop with mutexPool held, when no slot is cleared meanwhile. */
    method GrowThreads(first: Tid) returns (cnt: nat)
      requires threadIDs.Length == maxNum && liveNum <= maxNum && first > 0
      modifies this, threadIDs
      ensures Value() == Grow(old(Value()), 0, 0, first)
      ensures cnt == Min(NUM, Min(maxNum - old(liveNum), FreeFrom(old(threadIDs[..]), 0)))
      ensures liveNum == old(liveNum) + cnt
    {
      ghost var p := Value();
      GrowCreates(p, 0, 0, first);
      cnt := 0;
      var i := 0;
      while i < maxNum && cnt < NUM && liveNum < maxNum
        invariant i <= maxNum && cnt <= NUM && liveNum == p.liveNum + cnt
        invariant Grow(Value(), i, cnt, first) == Grow(p, 0, 0, first)
      {
        ghost var q := Value();
        if threadIDs[i] == 0 {
          threadIDs[i] := first + cnt;
          liveNum := liveNum + 1;
          cnt := cnt + 1;
        }
        assert Value() == GrowAt(q, i, first + (cnt - (if q.threadIDs[i] == 0 then 1 else 0)));
        i := i + 1;
      }
    }
  }

  lemma FirstSlotIs(ids: seq<Tid>, tid: Tid, i: nat)
    requires i < |ids| && ids[i] == tid && tid !in ids[..i]
    ensures FirstSlot(ids, tid) == i
  {
  }

  lemma NoSlot(ids: seq<Tid>, tid: Tid)
    requires tid !in ids[..|ids|]
    ensures FirstSlot(ids, tid) == |ids|
  {
  }
}
