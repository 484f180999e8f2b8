/** The timer itself: a vector of nodes kept as a heap and a hash map from id to position,
    both changed in place. */
module HeapTimers {
  import opened TimerHeap

  /** Every held node is found under its id, and nothing else is. */
  ghost predicate Indexed(h: seq<Node>, r: map<int, nat>) {
    && (forall id :: id in r ==> r[id] < |h| && h[r[id]].id == id)
    && (forall k :: 0 <= k < |h| ==> h[k].id in r && r[h[k].id] == k)
  }

  lemma IndexedIsDistinct(h: seq<Node>, r: map<int, nat>)
    requires Indexed(h, r)
    ensures Distinct(h)
    ensures forall id :: id in r <==> Holds(h, id)
    ensures forall id :: id in r ==> r[id] == Slot(h, id)
  {
  }

  lemma IndexedDropLast(h: seq<Node>, r: map<int, nat>)
    requires Indexed(h, r) && h != []
    ensures Indexed(h[..|h| - 1], r - {h[|h| - 1].id})
  {
  }

  class HeapTimer {
    var heap: seq<Node>
    var refs: map<int, nat>

    ghost predicate Valid()
      reads this
    {
      Indexed(heap, refs)
    }

    constructor ()
      ensures Valid() && heap == []
    {
      heap, refs := [], map[];
    }

    method SwapNode(i: nat, j: nat)
      requires i < |heap| && j < |heap| && Valid()
      modifies this
      ensures Valid() && heap == Swapped(old(heap), i, j)
    {
      heap := heap[i := heap[j]][j := heap[i]];
      refs := refs[heap[i].id := i];
      refs := refs[heap[j].id := j];
    }

    /** An unsigned (i - 1) / 2, as `size_t` computes it; 64 bits wide. */
    static function Above(i: nat): (j: nat)
      ensures i > 0 ==> j == Parent(i)
    {
      if i == 0 then 0xFFFF_FFFF_FFFF_FFFF / 2 else (i - 1) / 2
    }

    method SiftUp(start: nat)
      requires start < |heap| && Valid()
      modifies this
      ensures Valid() && heap == Raised(AsWritten, old(heap), start)
    {
      hide Indexed;
      var i: nat := start;
      var j: nat := Above(i);
      while i > 0 && Before(heap[j], heap[i])
        invariant i < |heap| && Valid() && j == Above(i)
        invariant Raised(AsWritten, heap, i) == Raised(AsWritten, old(heap), start)
        decreases i
      {
        SwapNode(i, j);
        i := j;
        j := Above(i);
      }
    }

    method SiftDown(index: nat, n: nat) returns (moved: bool)
      requires index < |heap| && n <= |heap| && Valid()
      modifies this
      ensures Valid() && heap == Sunk(old(heap), index, n)
      ensures moved <==> Landing(old(heap), index, n) > index
      ensures heap[Landing(old(heap), index, n)] == old(heap)[index]
    {
      hide Indexed, Sunk, Landing, Sinks;
      ghost var h := heap;
      SunkLands(heap, index, n);
      var i: nat := index;
      var j: nat := i * 2 + 1;
      while j < n
        invariant index <= i < |heap| && j == i * 2 + 1 && n <= |heap| == |h| && Valid()
        invariant Sunk(heap, i, n) == Sunk(h, index, n) && Landing(heap, i, n) == Landing(h, index, n)
        decreases n - i
      {
        if j + 1 < n && Before(heap[j + 1], heap[j]) {
          j := j + 1;
        }
        SinkStep(heap, i, n);
        if Before(heap[i], heap[j]) {
          break;
        }
        SwapNode(i, j);
        i := j;
        j := i * 2 + 1;
      }
      StopsHere(heap, i, n);
      moved := i > index;
    }

    method Delete(index: nat)
      requires index < |heap| && Valid()
      modifies this
      ensures Valid() && heap == Removed(AsWritten, old(heap), index)
    {
      hide Indexed, Sunk, Raised, Landing;
      var i, n := index, |heap| - 1;
      if i < n {
        SwapNode(i, n);
        SunkLands(heap, i, n);
        StopsHere(heap, i, n);
        var moved := SiftDown(i, n);
        if !moved {
          SiftUp(i);
        }
      }
      IndexedDropLast(heap, refs);
      refs := refs - {heap[|heap| - 1].id};
      heap := heap[..|heap| - 1];
    }

    method Add(id: int, now: int, timeout: int, cb: Callback)
      requires id >= 0 && Valid()
      modifies this
      ensures Valid() && heap == Added(old(heap), Node(id, Deadline(now, timeout), cb))
    {
      IndexedIsDistinct(heap, refs);
      if id !in refs {
        var i := |heap|;
        refs := refs[id := i];
        heap := heap + [Node(id, now + timeout * NS_PER_MS, cb)];
        SiftUp(i);
      } else {
        Reschedule(id, now, timeout);
        IndexedIsDistinct(heap, refs);
        heap := heap[refs[id] := heap[refs[id]].(cb := cb)];
      }
    }

    /** adjust */
    method Reschedule(id: int, now: int, timeout: int)
      requires id in refs && Valid()
      modifies this
      ensures Valid() && id in refs
      ensures Holds(old(heap), id)
      ensures heap == Rescheduled(old(heap), Slot(old(heap), id), Deadline(now, timeout))
    {
      hide Sunk, Landing, Sinks, Before;
      IndexedIsDistinct(heap, refs);
      var before := heap;
      heap := heap[refs[id] := heap[refs[id]].(expires := now + timeout * NS_PER_MS)];
      var w := heap;
      var _ := SiftDown(refs[id], |heap|);
      SameIds(before, w, Slot(before, id));
      IndexedIsDistinct(heap, refs);
    }

    /** Fires and removes the timer, if there is one; returns the callbacks run. */
    method DoWork(id: int) returns (ran: seq<Callback>)
      requires Valid()
      modifies this
      ensures Valid() && heap == After(old(heap), Call.DoWork(id))
      ensures ran == if Holds(old(heap), id) then [old(heap)[Slot(old(heap), id)].cb] else []
    {
      IndexedIsDistinct(heap, refs);
      if |heap| == 0 || id !in refs {
        return [];
      }
      var i := refs[id];
      ran := [heap[i].cb];
      Delete(i);
    }

    /** clock(k) is the k-th reading of the clock; returns the nodes whose callbacks ran, in order. */
    method Tick(clock: nat -> int) returns (fired: seq<Node>)
      requires Valid()
      modifies this
      ensures Valid() && heap == PoppedTimes(old(heap), DueCount(old(heap), clock, 0))
      ensures fired == PopOrder(old(heap))[..DueCount(old(heap), clock, 0)]
    {
      hide Indexed, Popped, Due, PoppedTimes, PopOrder, DueCount;
      fired := [];
      ghost var h := heap;
      while heap != []
        invariant Valid()
        invariant |fired| + DueCount(heap, clock, |fired|) == DueCount(h, clock, 0)
        invariant PoppedTimes(heap, DueCount(heap, clock, |fired|)) == PoppedTimes(h, DueCount(h, clock, 0))
        invariant fired + PopOrder(heap) == PopOrder(h)
        decreases |heap|
      {
        var node := heap[0];
        TickStep(heap, clock, |fired|);
        if WholeMs(node.expires - clock(|fired|)) > 0 {
          break;
        }
        fired := fired + [node];
        Pop();
      }
      TickEnd(heap, clock, |fired|);
    }

    method Pop()
      requires heap != [] && Valid()
      modifies this
      ensures Valid() && heap == Popped(old(heap))
    {
      Delete(0);
    }

    method Clear()
      modifies this
      ensures Valid() && heap == []
    {
      refs := map[];
      heap := [];
    }
  }

  /** tick, from the caller's side: h is the heap before, fired and rest what tick left. */
  lemma TickPromise(h: seq<Node>, r: map<int, nat>, clock: nat -> int, fired: seq<Node>, rest: seq<Node>)
    requires Indexed(h, r)
    requires rest == PoppedTimes(h, DueCount(h, clock, 0))
    requires fired == PopOrder(h)[..DueCount(h, clock, 0)]
    ensures forall k :: 0 <= k < |fired| ==> fired[k].expires < clock(k) + 1_000_000
    ensures Distinct(fired) && Entries(fired).Keys !! Entries(rest).Keys
    ensures Entries(h) == Entries(fired) + Entries(rest)
    ensures IsHeap(h) ==>
      && IsHeap(rest)
      && Sorted(fired)
      && forall k :: 0 <= k < |rest| ==> rest[k].expires >= clock(|fired|) + 1_000_000
  {
    IndexedIsDistinct(h, r);
    hide HeapTo, Distinct, Entries, PopOrder, PoppedTimes, DueCount, Indexed, Sorted, Due;
    forall k: nat | k < |fired| ensures fired[k].expires < clock(k) + NS_PER_MS {
      TakenAreDue(h, clock, 0, k);
      DueIsUnderOneMs(fired[k], clock(k));
    }
    TickSplitsTimers(h, clock);
    if IsHeap(h) {
      TickOnHeap(h, clock);
      forall k: nat | k < |rest| ensures rest[k].expires >= clock(|fired|) + NS_PER_MS {
        DueIsUnderOneMs(rest[k], clock(|fired|));
      }
    }
  }

  lemma SinkStep(h: seq<Node>, i: nat, n: nat)
    requires 2 * i + 1 < n <= |h|
    ensures var j := if 2 * i + 2 < n && Before(h[2 * i + 2], h[2 * i + 1]) then 2 * i + 2 else 2 * i + 1;
            && (Sinks(h, i, n) <==> !Before(h[i], h[j]))
            && (Sinks(h, i, n) ==>
                  && Sunk(h, i, n) == Sunk(Swapped(h, i, j), j, n)
                  && Landing(h, i, n) == Landing(Swapped(h, i, j), j, n))
  {
  }

  lemma StopsHere(h: seq<Node>, i: nat, n: nat)
    requires i < |h| && n <= |h|
    ensures !Sinks(h, i, n) ==> Sunk(h, i, n) == h && Landing(h, i, n) == i
    ensures 2 * i + 1 >= n ==> !Sinks(h, i, n)
  {
  }

  lemma TickStep(h: seq<Node>, clock: nat -> int, k: nat)
    requires h != []
    ensures var m := DueCount(h, clock, k);
            if WholeMs(h[0].expires - clock(k)) > 0 then m == 0
            else && m == 1 + DueCount(Popped(h), clock, k + 1)
                 && PoppedTimes(h, m) == PoppedTimes(Popped(h), m - 1)
    ensures PopOrder(h) == [h[0]] + PopOrder(Popped(h))
  {
  }

  lemma TickEnd(h: seq<Node>, clock: nat -> int, k: nat)
    ensures h == [] ==> DueCount(h, clock, k) == 0
    ensures PoppedTimes(h, 0) == h
  {
  }

  lemma SameIds(h: seq<Node>, w: seq<Node>, i: nat)
    requires i < |h| == |w| && Distinct(h)
    requires forall k :: 0 <= k < |h| ==> w[k].id == h[k].id
    ensures Distinct(w)
  {
  }
}
