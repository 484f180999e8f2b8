/** The fields of the elastic pool that its threads share, and what each critical section does
    to them; in particular the ring that holds the queued tasks. */
module TaskRing {

  datatype Task = Task(func: nat, arg: nat)

  /** A thread id; 0 marks a free slot. */
  type Tid = nat

  const NUM := 2

  datatype Pool = Pool(
    minNum: int, maxNum: int, queueCapacity: nat,
    taskQ: seq<Task>, queueSize: int, queueFront: nat, queueRear: nat,
    busyNum: int, liveNum: int, exitNum: int, shutdown: bool,
    threadIDs: seq<Tid>)

  /** What threadPoolCreate writes; ring is whatever the new memory holds, and the workers it
      starts have the ids 1 to min. */
  function InitPool(min: nat, max: nat, ring: seq<Task>): Pool {
    Pool(min, max, |ring|, ring, 0, 0, 0, 0, min, 0, false, seq(max, i => if i < min then i + 1 else 0))
  }

  // ------------------------------------------------------------- the ring

  function Put(p: Pool, task: Task): Pool
    requires p.queueRear < |p.taskQ| && p.queueCapacity > 0
  {
    p.(taskQ := p.taskQ[p.queueRear := task],
       queueRear := (p.queueRear + 1) % p.queueCapacity,
       queueSize := p.queueSize + 1)
  }

  function Take(p: Pool): Pool
    requires p.queueCapacity > 0
  {
    p.(queueFront := (p.queueFront + 1) % p.queueCapacity,
       queueSize := p.queueSize - 1)
  }

  ghost predicate RingOk(p: Pool) {
    && |p.taskQ| == p.queueCapacity
    && 0 <= p.queueSize <= p.queueCapacity
    && (p.queueCapacity > 0 ==>
          p.queueFront < p.queueCapacity && p.queueRear == (p.queueFront + p.queueSize) % p.queueCapacity)
  }

  /** The queued tasks, oldest first. */
  function Contents(p: Pool): (s: seq<Task>)
    requires RingOk(p)
    ensures |s| == p.queueSize
  {
    var n, f := p.queueCapacity, p.queueFront;
    if p.queueSize == 0 then []
    else if f + p.queueSize <= n then p.taskQ[f..f + p.queueSize]
    else p.taskQ[f..] + p.taskQ[..f + p.queueSize - n]
  }

  lemma Wraps(x: nat, n: nat)
    requires 0 < n && x < 2 * n
    ensures x % n == if x < n then x else x - n
  {
    if x >= n { assert x == n * 1 + (x - n); }
  }

  /** The ring refines a bounded first-in first-out queue. */
  lemma PutAppends(p: Pool, task: Task)
    requires RingOk(p) && p.queueSize != p.queueCapacity
    ensures p.queueRear < |p.taskQ| && p.queueCapacity > 0
    ensures RingOk(Put(p, task)) && Contents(Put(p, task)) == Contents(p) + [task]
  {
    RearMoves(p, task);
    var n, f, k := p.queueCapacity, p.queueFront, p.queueSize;
    var q := Put(p, task);
    if f + k < n {
      assert q.taskQ[f..f + k + 1] == p.taskQ[f..f + k] + [task];
    } else {
      var m := f + k - n;
      assert q.taskQ[f..] == p.taskQ[f..] && q.taskQ[..m + 1] == p.taskQ[..m] + [task];
    }
  }

  lemma RearMoves(p: Pool, task: Task)
    requires RingOk(p) && p.queueSize != p.queueCapacity
    ensures var n, f, k := p.queueCapacity, p.queueFront, p.queueSize;
            n > 0 && p.queueRear == (if f + k < n then f + k else f + k - n) < n && RingOk(Put(p, task))
  {
    Wraps(p.queueFront + p.queueSize, p.queueCapacity);
    Wraps(p.queueRear + 1, p.queueCapacity);
    Wraps(p.queueFront + p.queueSize + 1, p.queueCapacity);
  }

  lemma TakeRemovesOldest(p: Pool)
    requires RingOk(p) && p.queueSize > 0
    ensures p.queueFront < |p.taskQ| && p.queueCapacity > 0
    ensures RingOk(Take(p)) && Contents(p) == [p.taskQ[p.queueFront]] + Contents(Take(p))
  {
    FrontMoves(p);
    var n, f, k := p.queueCapacity, p.queueFront, p.queueSize;
    if f + k <= n {
      SplitHead(p.taskQ, f, f + k);
    } else {
      SplitHead(p.taskQ, f, n);
    }
  }

  lemma SplitHead(q: seq<Task>, a: nat, b: nat)
    requires a < b <= |q|
    ensures q[a..b] == [q[a]] + q[a + 1..b]
  {
  }

  lemma FrontMoves(p: Pool)
    requires RingOk(p) && p.queueSize > 0
    ensures var n, f := p.queueCapacity, p.queueFront;
            f < n && Take(p).queueFront == (if f + 1 < n then f + 1 else 0) && RingOk(Take(p))
  {
    Wraps(p.queueFront + 1, p.queueCapacity);
    Wraps(p.queueFront + p.queueSize, p.queueCapacity);
    Wraps(Take(p).queueFront + Take(p).queueSize, p.queueCapacity);
  }

  /** Nothing but put and take touches the queue. */
  lemma SameRing(p: Pool, q: Pool)
    requires RingOk(p)
    requires q.queueCapacity == p.queueCapacity && q.taskQ == p.taskQ && q.queueSize == p.queueSize
    requires q.queueFront == p.queueFront && q.queueRear == p.queueRear
    ensures RingOk(q) && Contents(q) == Contents(p)
  {
  }

  // ------------------------------------------------- workers coming and going

  /** The check a worker makes each time it returns from waiting. */
  function RetireCheck(p: Pool): Pool {
    if p.exitNum > 0 then
      p.(exitNum := p.exitNum - 1, liveNum := if p.liveNum > p.minNum then p.liveNum - 1 else p.liveNum)
    else p
  }

  predicate Retires(p: Pool) {
    p.exitNum > 0 && p.liveNum > p.minNum
  }

  function RetireChecks(p: Pool, k: nat): Pool
    decreases k
  {
    if k == 0 then p else RetireChecks(RetireCheck(p), k - 1)
  }

  /** Of the requests to retire each check uses up one, also when nobody may retire any more; the
      first of them are met, down to minNum. The checks touch nothing else. */
  lemma {:induction false} RetireChecksCount(p: Pool, k: nat)
    requires p.liveNum >= p.minNum && p.exitNum >= 0
    ensures var q := RetireChecks(p, k);
            && q.exitNum == Max(0, p.exitNum - k)
            && q.liveNum == Max(p.minNum, p.liveNum - Min(k, p.exitNum))
            && q == p.(exitNum := q.exitNum, liveNum := q.liveNum)
    decreases k
  {
    if k > 0 { RetireChecksCount(RetireCheck(p), k - 1); }
  }

  /** The worker that checks has to exit exactly when its check lowers liveNum. */
  lemma RetiresIffLowered(p: Pool)
    ensures Retires(p) <==> RetireCheck(p).liveNum == p.liveNum - 1
    ensures !Retires(p) <==> RetireCheck(p).liveNum == p.liveNum
  {
  }

  function FirstSlot(ids: seq<Tid>, tid: Tid): (i: nat)
    ensures i <= |ids| && (i < |ids| ==> ids[i] == tid) && tid !in ids[..i]
  {
    if ids == [] || ids[0] == tid then 0 else
      var i := 1 + FirstSlot(ids[1..], tid);
      assert ids[..i] == [ids[0]] + ids[1..][..i - 1];
      i
  }

  /** threadExit. */
  function Vacate(p: Pool, tid: Tid): Pool {
    var i := FirstSlot(p.threadIDs, tid);
    if i < |p.threadIDs| then p.(threadIDs := p.threadIDs[i := 0]) else p
  }

  /** One pass of the manager's loop over the slots. */
  function GrowAt(p: Pool, i: nat, newTid: Tid): Pool
    requires i < |p.threadIDs|
  {
    if p.threadIDs[i] == 0
    then p.(threadIDs := p.threadIDs[i := newTid], liveNum := p.liveNum + 1)
    else p
  }

  /** The whole loop from slot i on, when nothing interferes; the k-th thread created gets id first + k. */
  function Grow(p: Pool, i: nat, cnt: nat, first: Tid): Pool
    decreases |p.threadIDs| - i
  {
    if i < p.maxNum && i < |p.threadIDs| && cnt < NUM && p.liveNum < p.maxNum
    then Grow(GrowAt(p, i, first + cnt), i + 1, if p.threadIDs[i] == 0 then cnt + 1 else cnt, first)
    else p
  }

  function FreeFrom(ids: seq<Tid>, i: nat): nat
    decreases |ids| - i
  {
    if i >= |ids| then 0 else (if ids[i] == 0 then 1 else 0) + FreeFrom(ids, i + 1)
  }

  function Min(a: int, b: int): int { if a < b then a else b }

  function Max(a: int, b: int): int { if a < b then b else a }

  /** Growing creates as many threads as NUM, the maximum and the free slots allow, no fewer. */
  lemma {:induction false} GrowCreates(p: Pool, i: nat, cnt: nat, first: Tid)
    requires p.liveNum <= p.maxNum == |p.threadIDs| && cnt <= NUM && first > 0
    ensures Grow(p, i, cnt, first).liveNum
         == p.liveNum + Min(NUM - cnt, Min(p.maxNum - p.liveNum, FreeFrom(p.threadIDs, i)))
    decreases |p.threadIDs| - i
  {
    if i < p.maxNum && cnt < NUM && p.liveNum < p.maxNum {
      var q := GrowAt(p, i, first + cnt);
      GrowCreates(q, i + 1, if p.threadIDs[i] == 0 then cnt + 1 else cnt, first);
      FreeUnchanged(p.threadIDs, q.threadIDs, i + 1);
    }
  }

  lemma {:induction false} FreeUnchanged(a: seq<Tid>, b: seq<Tid>, i: nat)
    requires |a| == |b| && forall k :: i <= k < |a| ==> a[k] == b[k]
    ensures FreeFrom(a, i) == FreeFrom(b, i)
    decreases |a| - i
  {
    if i < |a| { FreeUnchanged(a, b, i + 1); }
  }

  // --------------------------------------------------------------- the slots

  ghost function Occupied(ids: seq<Tid>): set<nat> {
    set i: nat | i < |ids| && ids[i] != 0
  }

  /** The slots hold the ids of the threads present, each once, and are otherwise free. */
  ghost predicate SlotsOk(ids: seq<Tid>, present: set<Tid>) {
    && 0 !in present
    && (forall i: nat :: i < |ids| && ids[i] != 0 ==> ids[i] in present)
    && (forall i: nat, j: nat :: i < j < |ids| && ids[i] != 0 ==> ids[i] != ids[j])
    && (forall t :: t in present ==> t in ids)
    && |Occupied(ids)| == |present|
  }

  lemma VacateSlot(ids: seq<Tid>, present: set<Tid>, t: Tid)
    requires SlotsOk(ids, present) && t in present
    ensures FirstSlot(ids, t) < |ids| && SlotsOk(ids[FirstSlot(ids, t) := 0], present - {t})
  {
    var i := FirstSlot(ids, t);
    assert ids[..|ids|] == ids;
    assert Occupied(ids[i := 0]) == Occupied(ids) - {i};
    forall v | v in present - {t} ensures v in ids[i := 0] {
      var k :| 0 <= k < |ids| && ids[k] == v;
      assert ids[i := 0][k] == v;
    }
  }

  lemma FillSlot(ids: seq<Tid>, present: set<Tid>, i: nat, t: Tid)
    requires SlotsOk(ids, present) && i < |ids| && ids[i] == 0 && t > 0 && t !in present
    ensures SlotsOk(ids[i := t], present + {t})
  {
    var now := ids[i := t];
    FilledSlotListed(ids, present, i, t);
    forall k: nat | k < |ids| && k != i && ids[k] != 0 ensures now[k] in present && now[k] != t {
    }
    assert i !in Occupied(ids) && Occupied(now) == Occupied(ids) + {i};
    assert |present + {t}| == |present| + 1;
  }

  /** The n ids from first on. */
  function Ids(first: Tid, n: nat): set<Tid>
    decreases n
  {
    if n == 0 then {} else {first} + Ids(first + 1, n - 1)
  }

  /** The manager's loop, undisturbed, keeps the slots in order: it puts distinct new ids, first and
      on, into free slots only. */
  lemma {:induction false} GrowFills(p: Pool, present: set<Tid>, i: nat, cnt: nat, first: Tid)
    requires SlotsOk(p.threadIDs, present) && p.maxNum == |p.threadIDs| && cnt <= NUM && first > 0
    requires forall t :: t in present ==> t < first + cnt
    ensures var q := Grow(p, i, cnt, first); var created := q.liveNum - p.liveNum;
            && created >= 0 && |q.threadIDs| == |p.threadIDs|
            && SlotsOk(q.threadIDs, present + Ids(first + cnt, created))
            && (forall k :: 0 <= k < |p.threadIDs| && p.threadIDs[k] != 0 ==> q.threadIDs[k] == p.threadIDs[k])
            && q == p.(liveNum := q.liveNum, threadIDs := q.threadIDs)
    decreases |p.threadIDs| - i
  {
    hide SlotsOk;
    if i < p.maxNum && cnt < NUM && p.liveNum < p.maxNum {
      var q := GrowAt(p, i, first + cnt);
      if p.threadIDs[i] == 0 {
        FillSlot(p.threadIDs, present, i, first + cnt);
        GrowFills(q, present + {first + cnt}, i + 1, cnt + 1, first);
        var r := Grow(q, i + 1, cnt + 1, first);
        var created := r.liveNum - p.liveNum;
        assert present + {first + cnt} + Ids(first + cnt + 1, created - 1) == present + Ids(first + cnt, created);
      } else {
        GrowFills(q, present, i + 1, cnt, first);
      }
    } else {
      assert present + Ids(first + cnt, 0) == present;
    }
  }

  lemma FilledSlotListed(ids: seq<Tid>, present: set<Tid>, i: nat, t: Tid)
    requires i < |ids| && ids[i] == 0 && 0 !in present && forall v :: v in present ==> v in ids
    ensures forall v :: v in present + {t} ==> v in ids[i := t]
  {
    forall v | v in present + {t} ensures v in ids[i := t] {
      if v == t {
        assert ids[i := t][i] == v;
      } else {
        var k :| 0 <= k < |ids| && ids[k] == v;
        assert ids[i := t][k] == v;
      }
    }
  }
}
