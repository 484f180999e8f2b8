/** The array algorithms of the heap timer on plain sequences: sifting, insertion,
    removal, popping, ticking, and what each does to the heap order and to the timers held.

    Times are nanoseconds; a callback is represented by its identity. */
module TimerHeap {

  type Callback = nat

  datatype Node = Node(id: int, expires: int, cb: Callback)

  const NS_PER_MS := 1_000_000

  /** `operator<` of the source's nodes. */
  predicate Before(a: Node, b: Node) {
    a.expires < b.expires
  }

  /** `duration_cast<milliseconds>`: division that truncates toward zero. */
  function WholeMs(ns: int): int {
    if ns >= 0 then ns / NS_PER_MS else -((-ns) / NS_PER_MS)
  }

  predicate Due(x: Node, now: int) {
    WholeMs(x.expires - now) <= 0
  }

  /** A timer is due when less than one whole millisecond is left. */
  lemma DueIsUnderOneMs(x: Node, now: int)
    ensures Due(x, now) <==> x.expires - now < 1_000_000
  {
  }

  function Parent(i: nat): (p: nat)
    requires i > 0
    ensures p < i && Edge(p, i)
  {
    (i - 1) / 2
  }

  predicate Edge(p: nat, c: nat) {
    c == 2 * p + 1 || c == 2 * p + 2
  }

  /** Min-heap order on the first n nodes. */
  ghost predicate HeapTo(h: seq<Node>, n: nat)
    requires n <= |h|
  {
    forall p: nat, c: nat {:trigger Edge(p, c)} :: p < c < n && Edge(p, c) ==> h[p].expires <= h[c].expires
  }

  ghost predicate IsHeap(h: seq<Node>) {
    HeapTo(h, |h|)
  }

  ghost predicate Distinct(h: seq<Node>) {
    forall i, j :: 0 <= i < j < |h| ==> h[i].id != h[j].id
  }

  /** The timers held, as a plain finite map. */
  datatype Entry = Entry(expires: int, cb: Callback)

  ghost predicate Holds(h: seq<Node>, id: int) {
    exists k :: 0 <= k < |h| && h[k].id == id
  }

  ghost function Slot(h: seq<Node>, id: int): (k: nat)
    requires Holds(h, id)
    ensures k < |h| && h[k].id == id
  {
    var k :| 0 <= k < |h| && h[k].id == id; k
  }

  ghost function Entries(h: seq<Node>): map<int, Entry> {
    map id | id in (set k | 0 <= k < |h| :: h[k].id) :: Entry(h[Slot(h, id)].expires, h[Slot(h, id)].cb)
  }

  lemma EntriesKeys(h: seq<Node>)
    ensures forall id :: id in Entries(h) <==> Holds(h, id)
    ensures Distinct(h) ==> forall k :: 0 <= k < |h| ==>
      h[k].id in Entries(h) && Entries(h)[h[k].id] == Entry(h[k].expires, h[k].cb)
  {
    forall k | Distinct(h) && 0 <= k < |h|
      ensures h[k].id in Entries(h) && Entries(h)[h[k].id] == Entry(h[k].expires, h[k].cb)
    {
      assert Holds(h, h[k].id);
    }
  }

  /** Entries is the map whose pairs are exactly the nodes. */
  lemma EntriesAre(h: seq<Node>, m: map<int, Entry>)
    requires Distinct(h)
    requires forall k :: 0 <= k < |h| ==> h[k].id in m && m[h[k].id] == Entry(h[k].expires, h[k].cb)
    requires forall id :: id in m ==> Holds(h, id)
    ensures Entries(h) == m
  {
    EntriesKeys(h);
    forall k | 0 <= k < |h| ensures Holds(h, h[k].id) {
    }
    forall id | id in m ensures Entries(h)[id] == m[id] {
      assert h[Slot(h, id)].id == id;
    }
    assert Entries(h).Keys == m.Keys;
  }

  // ---------------------------------------------------------------- sifting

  function Swapped(h: seq<Node>, i: nat, j: nat): (r: seq<Node>)
    requires i < |h| && j < |h|
    ensures |r| == |h| && r[i] == h[j] && r[j] == h[i]
    ensures forall k :: 0 <= k < |h| && k != i && k != j ==> r[k] == h[k]
  {
    h[i := h[j]][j := h[i]]
  }

  /** Two readings of siftup_: the comparison in its code and the one in its comment. */
  datatype Rule = AsWritten | AsDocumented

  predicate Rises(rule: Rule, parent: Node, child: Node) {
    match rule
    case AsWritten => Before(parent, child)
    case AsDocumented => Before(child, parent)
  }

  function Raised(rule: Rule, h: seq<Node>, i: nat): (r: seq<Node>)
    requires i < |h|
    ensures |r| == |h|
    decreases i
  {
    if i > 0 && Rises(rule, h[Parent(i)], h[i])
    then Raised(rule, Swapped(h, i, Parent(i)), Parent(i))
    else h
  }

  function SmallerChild(h: seq<Node>, i: nat, n: nat): (j: nat)
    requires 2 * i + 1 < n <= |h|
    ensures i < j < n && Edge(i, j)
    ensures forall c: nat :: c < n && Edge(i, c) ==> h[j].expires <= h[c].expires
  {
    var j := 2 * i + 1;
    if j + 1 < n && Before(h[j + 1], h[j]) then j + 1 else j
  }

  /** siftdown_ moves the node at i: it is not strictly smaller than its smaller child. */
  predicate Sinks(h: seq<Node>, i: nat, n: nat)
    requires n <= |h|
  {
    2 * i + 1 < n && !Before(h[i], h[SmallerChild(h, i, n)])
  }

  function Sunk(h: seq<Node>, i: nat, n: nat): (r: seq<Node>)
    requires i < |h| && n <= |h|
    ensures |r| == |h|
    decreases n - i
  {
    if Sinks(h, i, n)
    then var j := SmallerChild(h, i, n); Sunk(Swapped(h, i, j), j, n)
    else h
  }

  /** The position where siftdown_ leaves the node that started at i. */
  function Landing(h: seq<Node>, i: nat, n: nat): (k: nat)
    requires i < |h| && n <= |h|
    ensures i <= k < |h|
    decreases n - i
  {
    if Sinks(h, i, n)
    then var j := SmallerChild(h, i, n); Landing(Swapped(h, i, j), j, n)
    else i
  }

  /** siftdown_'s result tells whether the node moved, and where it now is. */
  lemma {:induction false} SunkLands(h: seq<Node>, i: nat, n: nat)
    requires i < |h| && n <= |h|
    ensures Sunk(h, i, n)[Landing(h, i, n)] == h[i]
    ensures Landing(h, i, n) > i <==> Sinks(h, i, n)
    ensures forall k :: 0 <= k < |h| && (k < i || k >= n) && k != i ==> Sunk(h, i, n)[k] == h[k]
    decreases n - i
  {
    if Sinks(h, i, n) {
      var j := SmallerChild(h, i, n);
      SunkLands(Swapped(h, i, j), j, n);
    }
  }

  // ------------------------------------------------- sifting keeps the timers

  lemma SwapKeepsEntries(h: seq<Node>, i: nat, j: nat)
    requires i < |h| && j < |h| && Distinct(h)
    ensures Distinct(Swapped(h, i, j)) && Entries(Swapped(h, i, j)) == Entries(h)
  {
    hide Entries;
    EntriesKeys(h);
    var r := Swapped(h, i, j);
    forall id | id in Entries(h) ensures Holds(r, id) {
      var k := Slot(h, id);
      assert r[if k == i then j else if k == j then i else k].id == id;
    }
    EntriesAre(r, Entries(h));
  }

  lemma {:induction false} SunkKeepsEntries(h: seq<Node>, i: nat, n: nat)
    requires i < |h| && n <= |h| && Distinct(h)
    ensures Distinct(Sunk(h, i, n)) && Entries(Sunk(h, i, n)) == Entries(h)
    decreases n - i
  {
    if Sinks(h, i, n) {
      var j := SmallerChild(h, i, n);
      SwapKeepsEntries(h, i, j);
      SunkKeepsEntries(Swapped(h, i, j), j, n);
    }
  }

  lemma {:induction false} RaisedKeepsEntries(rule: Rule, h: seq<Node>, i: nat)
    requires i < |h| && Distinct(h)
    ensures Distinct(Raised(rule, h, i)) && Entries(Raised(rule, h, i)) == Entries(h)
    ensures forall k :: i < k < |h| ==> Raised(rule, h, i)[k] == h[k]
    decreases i
  {
    if i > 0 && Rises(rule, h[Parent(i)], h[i]) {
      SwapKeepsEntries(h, i, Parent(i));
      RaisedKeepsEntries(rule, Swapped(h, i, Parent(i)), Parent(i));
    }
  }

  // ------------------------------------------------ sifting repairs the order

  /** Heap order except below i, with nothing lost between i's parent and i's children. */
  ghost predicate HeapButBelow(h: seq<Node>, n: nat, i: nat)
    requires n <= |h|
  {
    && (forall p: nat, c: nat {:trigger Edge(p, c)} ::
          p < c < n && Edge(p, c) && p != i ==> h[p].expires <= h[c].expires)
    && (forall p: nat, c: nat {:trigger Edge(p, i), Edge(i, c)} ::
          p < i < c < n && Edge(p, i) && Edge(i, c) ==> h[p].expires <= h[c].expires)
  }

  /** siftdown_ repairs a heap that is broken only below index. */
  lemma {:induction false} SunkRepairs(h: seq<Node>, i: nat, n: nat)
    requires i < |h| && n <= |h| && HeapButBelow(h, n, i)
    ensures HeapTo(Sunk(h, i, n), n)
    decreases n - i
  {
    if Sinks(h, i, n) {
      var j := SmallerChild(h, i, n);
      SunkRepairs(Swapped(h, i, j), j, n);
    }
  }

  /** Heap order except just above i, with nothing lost between i's parent and i's children. */
  ghost predicate HeapButAbove(h: seq<Node>, n: nat, i: nat)
    requires n <= |h|
  {
    && (forall p: nat, c: nat {:trigger Edge(p, c)} ::
          p < c < n && Edge(p, c) && c != i ==> h[p].expires <= h[c].expires)
    && (forall p: nat, c: nat {:trigger Edge(p, i), Edge(i, c)} ::
          p < i < c < n && Edge(p, i) && Edge(i, c) ==> h[p].expires <= h[c].expires)
  }

  /** siftup_ with the documented comparison repairs a heap that is broken only above i. */
  lemma {:induction false} RaisedRepairs(h: seq<Node>, n: nat, i: nat)
    requires i < n <= |h| && HeapButAbove(h, n, i)
    ensures HeapTo(Raised(AsDocumented, h, i), n)
    decreases i
  {
    if i > 0 && Rises(AsDocumented, h[Parent(i)], h[i]) {
      RaisedRepairs(Swapped(h, i, Parent(i)), n, Parent(i));
    }
  }

  /** A violated edge below the rising node survives siftup_ as written. */
  lemma {:induction false} BrokenEdgeStays(h: seq<Node>, n: nat, i: nat, c: nat)
    requires i < c < n <= |h| && Edge(i, c) && h[c].expires < h[i].expires
    ensures !HeapTo(Raised(AsWritten, h, i), n)
    decreases i
  {
    if i > 0 && Rises(AsWritten, h[Parent(i)], h[i]) {
      BrokenEdgeStays(Swapped(h, i, Parent(i)), n, Parent(i), i);
    }
  }

  /** Whenever siftup_ as written moves a node, the result is not a min-heap. */
  lemma RisingBreaksHeap(h: seq<Node>, n: nat, i: nat)
    requires 0 < i < n <= |h| && Rises(AsWritten, h[Parent(i)], h[i])
    ensures !HeapTo(Raised(AsWritten, h, i), n)
  {
    BrokenEdgeStays(Swapped(h, i, Parent(i)), n, Parent(i), i);
  }

  // ------------------------------------------------------------- operations

  /** add of a new id. */
  function Inserted(rule: Rule, h: seq<Node>, x: Node): (r: seq<Node>)
    ensures |r| == |h| + 1
  {
    Raised(rule, h + [x], |h|)
  }

  /** What siftdown_ and then siftup_ leave after del_ has put a new node into slot i; the
      last node is the one to go. */
  function Resifted(rule: Rule, w: seq<Node>, i: nat): (r: seq<Node>)
    requires i < |w| - 1
    ensures |r| == |w|
  {
    if Sinks(w, i, |w| - 1) then Sunk(w, i, |w| - 1) else Raised(rule, w, i)
  }

  /** del_. */
  function Removed(rule: Rule, h: seq<Node>, i: nat): (r: seq<Node>)
    requires i < |h|
    ensures |r| == |h| - 1
  {
    var n := |h| - 1;
    (if i < n then Resifted(rule, Swapped(h, i, n), i) else h)[..n]
  }

  function Popped(h: seq<Node>): (r: seq<Node>)
    requires h != []
    ensures |r| == |h| - 1
  {
    Removed(AsWritten, h, 0)
  }

  function Rescheduled(h: seq<Node>, i: nat, expires: int): (r: seq<Node>)
    requires i < |h|
    ensures |r| == |h|
  {
    Sunk(h[i := h[i].(expires := expires)], i, |h|)
  }

  lemma InsertedEntries(rule: Rule, h: seq<Node>, x: Node)
    requires Distinct(h) && !Holds(h, x.id)
    ensures Distinct(Inserted(rule, h, x))
    ensures Entries(Inserted(rule, h, x)) == Entries(h)[x.id := Entry(x.expires, x.cb)]
  {
    EntriesKeys(h);
    var w := h + [x];
    forall id | id in Entries(h)[x.id := Entry(x.expires, x.cb)] ensures Holds(w, id) {
      if id == x.id { assert w[|h|].id == id; } else { assert w[Slot(h, id)].id == id; }
    }
    EntriesAre(w, Entries(h)[x.id := Entry(x.expires, x.cb)]);
    RaisedKeepsEntries(rule, w, |h|);
  }

  lemma DropLastEntries(h: seq<Node>)
    requires Distinct(h) && h != []
    ensures Distinct(h[..|h| - 1]) && Entries(h[..|h| - 1]) == Entries(h) - {h[|h| - 1].id}
  {
    hide Entries;
    EntriesKeys(h);
    var n := |h| - 1;
    forall id | id in Entries(h) - {h[n].id} ensures Holds(h[..n], id) {
      assert h[..n][Slot(h, id)].id == id;
    }
    EntriesAre(h[..n], Entries(h) - {h[n].id});
  }

  /** del_ removes exactly the node at i, whichever comparison siftup_ uses. */
  lemma RemovedEntries(rule: Rule, h: seq<Node>, i: nat)
    requires i < |h| && Distinct(h)
    ensures Distinct(Removed(rule, h, i))
    ensures Entries(Removed(rule, h, i)) == Entries(h) - {h[i].id}
  {
    hide Entries, Distinct, Resifted;
    if i < |h| - 1 {
      SwapKeepsEntries(h, i, |h| - 1);
      ResiftedKeepsEntries(rule, Swapped(h, i, |h| - 1), i);
      DropLastEntries(Resifted(rule, Swapped(h, i, |h| - 1), i));
    } else {
      DropLastEntries(h);
    }
  }

  lemma ResiftedKeepsEntries(rule: Rule, w: seq<Node>, i: nat)
    requires i < |w| - 1 && Distinct(w)
    ensures Distinct(Resifted(rule, w, i)) && Entries(Resifted(rule, w, i)) == Entries(w)
    ensures Resifted(rule, w, i)[|w| - 1] == w[|w| - 1]
  {
    hide Entries, Distinct, Sunk, Raised;
    SunkKeepsEntries(w, i, |w| - 1);
    SunkLands(w, i, |w| - 1);
    RaisedKeepsEntries(rule, w, i);
  }

  lemma UpdatedEntries(h: seq<Node>, i: nat, x: Node)
    requires i < |h| && Distinct(h) && x.id == h[i].id
    ensures Distinct(h[i := x])
    ensures Entries(h[i := x]) == Entries(h)[x.id := Entry(x.expires, x.cb)]
  {
    EntriesKeys(h);
    var w := h[i := x];
    forall id | id in Entries(h)[x.id := Entry(x.expires, x.cb)] ensures Holds(w, id) {
      assert w[if id == x.id then i else Slot(h, id)].id == id;
    }
    EntriesAre(w, Entries(h)[x.id := Entry(x.expires, x.cb)]);
  }

  lemma RescheduledEntries(h: seq<Node>, i: nat, expires: int)
    requires i < |h| && Distinct(h)
    ensures Distinct(Rescheduled(h, i, expires))
    ensures Entries(Rescheduled(h, i, expires)) == Entries(h)[h[i].id := Entry(expires, h[i].cb)]
  {
    var w := h[i := h[i].(expires := expires)];
    UpdatedEntries(h, i, w[i]);
    SunkKeepsEntries(w, i, |h|);
  }

  // ---------------------------------------- which operations keep the min-heap

  /** With the documented comparison, insertion keeps the min-heap. */
  lemma InsertedAsDocumentedIsHeap(h: seq<Node>, x: Node)
    requires IsHeap(h)
    ensures IsHeap(Inserted(AsDocumented, h, x))
  {
    RaisedRepairs(h + [x], |h| + 1, |h|);
  }

  /** As written, insertion keeps the min-heap exactly when the heap was empty or the new
      deadline equals the one in the parent slot. */
  lemma InsertedAsWrittenIsHeapIff(h: seq<Node>, x: Node)
    requires IsHeap(h)
    ensures IsHeap(Inserted(AsWritten, h, x)) <==> h == [] || h[Parent(|h|)].expires == x.expires
  {
    var w := h + [x];
    if h != [] {
      if Rises(AsWritten, w[Parent(|h|)], w[|h|]) {
        RisingBreaksHeap(w, |w|, |h|);
      } else {
        assert Inserted(AsWritten, h, x) == w;
        assert Edge(Parent(|h|), |h|);
        if h[Parent(|h|)].expires == x.expires {
          forall p: nat, c: nat | p < c < |w| && Edge(p, c) ensures w[p].expires <= w[c].expires {
            assert c == |h| ==> p == Parent(|h|);
          }
        }
      }
    }
  }

  /** The state siftdown_ and siftup_ see in del_: last node moved to slot i, the end cut off. */
  lemma MovedLast(h: seq<Node>, i: nat)
    requires IsHeap(h) && i < |h| - 1
    ensures var n := |h| - 1; var w := Swapped(h, i, n);
            && (Sinks(w, i, n) ==> HeapButBelow(w, n, i))
            && (i == 0 ==> HeapButBelow(w, n, i))
            && (!Sinks(w, i, n) ==> HeapButAbove(w, n, i))
  {
    var n := |h| - 1;
    var w := Swapped(h, i, n);
    forall p: nat, c: nat | p < i < c < n && Edge(p, i) && Edge(i, c) ensures w[p].expires <= w[c].expires {
      assert h[p].expires <= h[i].expires <= h[c].expires;
    }
    if Sinks(w, i, n) {
      var j := SmallerChild(w, i, n);
      forall p: nat | p < i && Edge(p, i) ensures w[p].expires <= w[i].expires {
        assert w[p].expires <= w[j].expires;
      }
    }
  }

  /** With the documented comparison, removal at any position keeps the min-heap. */
  lemma RemovedAsDocumentedIsHeap(h: seq<Node>, i: nat)
    requires IsHeap(h) && i < |h|
    ensures IsHeap(Removed(AsDocumented, h, i))
  {
    var n := |h| - 1;
    if i < n {
      var w := Swapped(h, i, n);
      MovedLast(h, i);
      if Sinks(w, i, n) { SunkRepairs(w, i, n); } else { RaisedRepairs(w, n, i); }
    }
  }

  /** As written, removal keeps the min-heap exactly when the removed node is the last or the
      root, or a child of slot i is not after the last node (so siftdown_ moves it), or the
      last node ties with the node above slot i. */
  ghost predicate RemovalIsSafe(h: seq<Node>, i: nat)
    requires i < |h|
  {
    var n := |h| - 1;
    || i == n
    || i == 0
    || (exists c: nat :: i < c < n && Edge(i, c) && h[c].expires <= h[n].expires)
    || h[Parent(i)].expires == h[n].expires
  }

  lemma RemovedAsWrittenIsHeapIff(h: seq<Node>, i: nat)
    requires IsHeap(h) && i < |h|
    ensures IsHeap(Removed(AsWritten, h, i)) <==> RemovalIsSafe(h, i)
  {
    hide HeapTo, HeapButBelow, HeapButAbove;
    if i < |h| - 1 {
      var n := |h| - 1;
      MovedLast(h, i);
      SinksIff(h, i);
      TakeKeepsHeapTo(Resifted(AsWritten, Swapped(h, i, n), i), n);
      if Sinks(Swapped(h, i, n), i, n) || i == 0 {
        SunkRepairs(Swapped(h, i, n), i, n);
        assert Resifted(AsWritten, Swapped(h, i, n), i) == Sunk(Swapped(h, i, n), i, n);
      } else {
        UnsunkRemovalIff(h, i);
      }
    } else {
      TakeKeepsHeap(h, i);
    }
  }

  lemma TakeKeepsHeap(h: seq<Node>, n: nat)
    requires n <= |h| && IsHeap(h)
    ensures IsHeap(h[..n])
  {
  }

  lemma TakeKeepsHeapTo(h: seq<Node>, n: nat)
    requires n <= |h|
    ensures IsHeap(h[..n]) <==> HeapTo(h, n)
  {
    forall p: nat, c: nat | IsHeap(h[..n]) && p < c < n && Edge(p, c) ensures h[p].expires <= h[c].expires {
      assert h[..n][p].expires <= h[..n][c].expires;
    }
  }

  lemma SinksIff(h: seq<Node>, i: nat)
    requires i < |h| - 1
    ensures var n := |h| - 1;
            Sinks(Swapped(h, i, n), i, n)
            <==> exists c: nat :: i < c < n && Edge(i, c) && h[c].expires <= h[n].expires
  {
    var n := |h| - 1;
    var w := Swapped(h, i, n);
    if Sinks(w, i, n) {
      var c := SmallerChild(w, i, n);
      assert i < c < n && Edge(i, c) && h[c].expires <= h[n].expires;
    }
  }

  lemma UnsunkRemovalIff(h: seq<Node>, i: nat)
    requires IsHeap(h) && 0 < i < |h| - 1
    requires HeapButAbove(Swapped(h, i, |h| - 1), |h| - 1, i)
    ensures HeapTo(Raised(AsWritten, Swapped(h, i, |h| - 1), i), |h| - 1)
       <==> h[Parent(i)].expires == h[|h| - 1].expires
  {
    var n := |h| - 1;
    var w := Swapped(h, i, n);
    if Rises(AsWritten, w[Parent(i)], w[i]) {
      RisingBreaksHeap(w, n, i);
    } else {
      assert Edge(Parent(i), i);
      forall p: nat | p < i && Edge(p, i) ensures p == Parent(i) {
      }
    }
  }

  /** pop needs no comparison in siftup_, so it keeps the min-heap as written. */
  lemma PoppedIsHeap(h: seq<Node>)
    requires IsHeap(h) && h != []
    ensures IsHeap(Popped(h))
    ensures forall k :: 0 <= k < |h| ==> h[0].expires <= h[k].expires
  {
    RemovedAsWrittenIsHeapIff(h, 0);
    forall k: nat | k < |h| ensures h[0].expires <= h[k].expires { RootIsLeast(h, k); }
  }

  lemma {:induction false} RootIsLeast(h: seq<Node>, k: nat)
    requires IsHeap(h) && k < |h|
    ensures h[0].expires <= h[k].expires
  {
    if k > 0 {
      RootIsLeast(h, Parent(k));
      assert Edge(Parent(k), k);
    }
  }

  /** adjust only sifts down; it keeps the min-heap exactly when the new deadline is not before
      the parent's, in particular whenever it is not before the old one. */
  lemma RescheduledIsHeapIff(h: seq<Node>, i: nat, expires: int)
    requires IsHeap(h) && i < |h|
    ensures IsHeap(Rescheduled(h, i, expires)) <==> i == 0 || h[Parent(i)].expires <= expires
    ensures expires >= h[i].expires ==> IsHeap(Rescheduled(h, i, expires))
  {
    var w := h[i := h[i].(expires := expires)];
    forall p: nat, c: nat | p < i < c < |w| && Edge(p, i) && Edge(i, c) ensures w[p].expires <= w[c].expires {
      assert h[p].expires <= h[i].expires <= h[c].expires;
    }
    if i > 0 { assert Edge(Parent(i), i); }
    if i == 0 || h[Parent(i)].expires <= expires {
      forall p: nat | p < i && Edge(p, i) ensures w[p].expires <= w[i].expires {
        assert p == Parent(i);
      }
      SunkRepairs(w, i, |w|);
    } else {
      assert !Sinks(w, i, |w|);
      assert w[Parent(i)].expires > w[i].expires;
    }
  }

  // ------------------------------------------------- popping, ticking and time

  /** The nodes in the order in which repeated pop takes them off. */
  function PopOrder(h: seq<Node>): (r: seq<Node>)
    ensures |r| == |h|
    decreases |h|
  {
    if h == [] then [] else [h[0]] + PopOrder(Popped(h))
  }

  function PoppedTimes(h: seq<Node>, m: nat): (r: seq<Node>)
    requires m <= |h|
    ensures |r| == |h| - m
    decreases m
  {
    if m == 0 then h else PoppedTimes(Popped(h), m - 1)
  }

  /** How many nodes tick takes off when its k-th look at the clock reads clock(k). */
  function DueCount(h: seq<Node>, clock: nat -> int, k: nat): (m: nat)
    ensures m <= |h|
    decreases |h|
  {
    if h == [] || !Due(h[0], clock(k)) then 0 else 1 + DueCount(Popped(h), clock, k + 1)
  }

  ghost predicate Sorted(s: seq<Node>) {
    forall i, j :: 0 <= i < j < |s| ==> s[i].expires <= s[j].expires
  }

  /** Popping a min-heap to the end yields the nodes by deadline. */
  lemma {:induction false} PopOrderSorts(h: seq<Node>)
    requires IsHeap(h) && Distinct(h)
    ensures Sorted(PopOrder(h))
    ensures Distinct(PopOrder(h)) && Entries(PopOrder(h)) == Entries(h)
    decreases |h|
  {
    PopOrderKeepsEntries(h);
    if h != [] {
      PoppedIsHeap(h);
      RemovedEntries(AsWritten, h, 0);
      PopOrderSorts(Popped(h));
      forall j | 0 < j < |h| ensures h[0].expires <= PopOrder(h)[j].expires {
        EntriesKeys(h);
        EntriesKeys(PopOrder(h));
        var x := PopOrder(h)[j];
        assert h[Slot(h, x.id)].expires == x.expires;
      }
    }
  }

  lemma {:induction false} PopOrderKeepsEntries(h: seq<Node>)
    requires Distinct(h)
    ensures Distinct(PopOrder(h)) && Entries(PopOrder(h)) == Entries(h)
    decreases |h|
  {
    hide Distinct, Entries, Removed;
    if h != [] {
      RemovedEntries(AsWritten, h, 0);
      PopOrderKeepsEntries(Popped(h));
      EntriesKeys(PopOrder(Popped(h)));
      EntriesKeys(h);
      ConsEntries(h[0], PopOrder(Popped(h)));
      var m := Entries(h);
      assert m == (m - {h[0].id})[h[0].id := m[h[0].id]];
    } else {
      assert PopOrder(h) == h;
    }
  }

  lemma ConsEntries(x: Node, s: seq<Node>)
    requires Distinct(s) && !Holds(s, x.id)
    ensures Distinct([x] + s) && Entries([x] + s) == Entries(s)[x.id := Entry(x.expires, x.cb)]
  {
    EntriesKeys(s);
    var w := [x] + s;
    forall id | id in Entries(s)[x.id := Entry(x.expires, x.cb)] ensures Holds(w, id) {
      if id == x.id { assert w[0].id == id; } else { assert w[1 + Slot(s, id)].id == id; }
    }
    EntriesAre(w, Entries(s)[x.id := Entry(x.expires, x.cb)]);
  }

  /** Every node tick takes off was due at its own look at the clock. */
  lemma {:induction false} TakenAreDue(h: seq<Node>, clock: nat -> int, k: nat, i: nat)
    requires i < DueCount(h, clock, k)
    ensures Due(PopOrder(h)[i], clock(k + i))
    decreases |h|
  {
    hide Popped, Due;
    if i > 0 {
      TakenAreDue(Popped(h), clock, k + 1, i - 1);
      assert clock(k + i) == clock(k + 1 + (i - 1));
    }
  }

  /** The node tick stops at is the next in pop order and is not due. */
  lemma {:induction false} TickStopsAt(h: seq<Node>, clock: nat -> int, k: nat)
    requires DueCount(h, clock, k) < |h|
    ensures var m := DueCount(h, clock, k);
            PoppedTimes(h, m)[0] == PopOrder(h)[m] && !Due(PopOrder(h)[m], clock(k + m))
    decreases |h|
  {
    hide Popped, Due;
    if Due(h[0], clock(k)) {
      TickStopsAt(Popped(h), clock, k + 1);
      assert clock(k + DueCount(h, clock, k)) == clock(k + 1 + DueCount(Popped(h), clock, k + 1));
    }
  }

  lemma {:induction false} PoppedTimesSplits(h: seq<Node>, m: nat)
    requires m <= |h|
    ensures PopOrder(h) == PopOrder(h)[..m] + PopOrder(PoppedTimes(h, m))
    decreases m
  {
    hide Popped;
    if m > 0 {
      PoppedTimesSplits(Popped(h), m - 1);
      assert PopOrder(h)[..m] == [h[0]] + PopOrder(Popped(h))[..m - 1];
    }
  }

  lemma {:induction false} PoppedTimesKeeps(h: seq<Node>, m: nat)
    requires m <= |h|
    ensures IsHeap(h) ==> IsHeap(PoppedTimes(h, m))
    ensures Distinct(h) ==> Distinct(PoppedTimes(h, m))
    decreases m
  {
    hide HeapTo, Distinct, Removed;
    if m > 0 {
      if IsHeap(h) { PoppedIsHeap(h); }
      if Distinct(h) { RemovedEntries(AsWritten, h, 0); }
      PoppedTimesKeeps(Popped(h), m - 1);
    }
  }

  /** tick on a min-heap: the nodes taken off come in deadline order, and every node left has at
      least one whole millisecond at the last look at the clock. No assumption on the clock. */
  lemma TickOnHeap(h: seq<Node>, clock: nat -> int)
    requires IsHeap(h) && Distinct(h)
    ensures var m := DueCount(h, clock, 0); var rest := PoppedTimes(h, m);
            && IsHeap(rest) && Sorted(PopOrder(h)[..m])
            && (forall k :: 0 <= k < |rest| ==> !Due(rest[k], clock(m)))
            && (forall i, k :: 0 <= i < m && 0 <= k < |rest| ==> PopOrder(h)[i].expires <= rest[k].expires)
  {
    var m := DueCount(h, clock, 0);
    var rest := PoppedTimes(h, m);
    hide HeapTo, Distinct, Entries, PopOrder, PoppedTimes, DueCount, Due;
    PopOrderSorts(h);
    PoppedTimesKeeps(h, m);
    if m < |h| {
      TickStopsAt(h, clock, 0);
      forall k: nat | k < |rest|
        ensures PopOrder(h)[m].expires <= rest[k].expires && !Due(rest[k], clock(m))
      {
        RootIsLeast(rest, k);
        LaterIsNotDue(PopOrder(h)[m], rest[k], clock(m));
      }
    }
  }

  lemma LaterIsNotDue(x: Node, y: Node, now: int)
    requires x.expires <= y.expires && !Due(x, now)
    ensures !Due(y, now)
  {
  }

  /** tick splits the timers held into those taken off, each once, and those left. */
  lemma TickSplitsTimers(h: seq<Node>, clock: nat -> int)
    requires Distinct(h)
    ensures var m := DueCount(h, clock, 0); var taken := PopOrder(h)[..m]; var rest := PoppedTimes(h, m);
            && Distinct(taken) && Distinct(rest)
            && Entries(taken).Keys !! Entries(rest).Keys
            && Entries(h) == Entries(taken) + Entries(rest)
  {
    var m := DueCount(h, clock, 0);
    PopOrderKeepsEntries(h);
    PoppedTimesSplits(h, m);
    PoppedTimesKeeps(h, m);
    PopOrderKeepsEntries(PoppedTimes(h, m));
    ConcatEntries(PopOrder(h)[..m], PopOrder(PoppedTimes(h, m)));
  }

  lemma ConcatEntries(a: seq<Node>, b: seq<Node>)
    requires Distinct(a + b)
    ensures Distinct(a) && Distinct(b) && Entries(a).Keys !! Entries(b).Keys
    ensures Entries(a + b) == Entries(a) + Entries(b)
  {
    forall i, j | 0 <= i < j < |a| ensures a[i].id != a[j].id {
      assert (a + b)[i].id != (a + b)[j].id;
    }
    forall i, j | 0 <= i < j < |b| ensures b[i].id != b[j].id {
      assert (a + b)[|a| + i].id != (a + b)[|a| + j].id;
    }
    EntriesKeys(a);
    EntriesKeys(b);
    forall p: nat, q: nat | p < |a| && q < |b| ensures a[p].id != b[q].id {
      assert (a + b)[p].id != (a + b)[|a| + q].id;
    }
    var m := Entries(a) + Entries(b);
    forall k: nat | k < |a + b|
      ensures (a + b)[k].id in m && m[(a + b)[k].id] == Entry((a + b)[k].expires, (a + b)[k].cb)
    {
      assert (a + b)[k] == if k < |a| then a[k] else b[k - |a|];
    }
    forall id | id in m ensures Holds(a + b, id) {
      if Holds(a, id) { assert (a + b)[Slot(a, id)].id == id; }
      else { assert (a + b)[|a| + Slot(b, id)].id == id; }
    }
    EntriesAre(a + b, m);
  }

  /** tick leaves nothing overdue, at whatever moment it runs, exactly when popping would take
      the nodes off in deadline order. */
  lemma TickCompleteIff(h: seq<Node>)
    ensures (forall now: int :: TickComplete(h, now)) <==> Sorted(PopOrder(h))
  {
    if forall now: int :: TickComplete(h, now) {
      forall i, j | 0 <= i < j < |h| ensures PopOrder(h)[i].expires <= PopOrder(h)[j].expires {
        // One millisecond before node i's deadline tick stops at node i or earlier.
        var early := PopOrder(h)[i].expires - NS_PER_MS;
        assert TickComplete(h, early);
        var m := DueCount(h, (k: nat) => early, 0);
        if i < m { TakenAreDue(h, (k: nat) => early, 0, i); }
        assert !Due(PopOrder(h)[j], early);
      }
    }
    if Sorted(PopOrder(h)) {
      forall now: int ensures TickComplete(h, now) {
        if DueCount(h, (k: nat) => now, 0) < |h| { TickStopsAt(h, (k: nat) => now, 0); }
      }
    }
  }

  /** With the clock standing at now, tick takes off every node due at now. */
  ghost predicate TickComplete(h: seq<Node>, now: int) {
    forall j :: DueCount(h, (k: nat) => now, 0) <= j < |h| ==> !Due(PopOrder(h)[j], now)
  }

  // ------------------------------------------------------------ runs of calls

  /** The calls of the timer's interface; now is the clock reading of the call, timeout in ms. */
  datatype Call =
    | Add(id: int, now: int, timeout: int, cb: Callback)
    | Adjust(id: int, now: int, timeout: int)
    | DoWork(id: int)
    | Tick(clock: nat -> int)
    | Pop
    | Clear

  function Deadline(now: int, timeout: int): int {
    now + timeout * NS_PER_MS
  }

  ghost predicate Legal(h: seq<Node>, call: Call) {
    match call
    case Add(id, _, _, _) => id >= 0
    case Adjust(id, _, _) => Holds(h, id)
    case Pop => h != []
    case _ => true
  }

  /** add: a new id goes in at the end, a known id is rescheduled and gets the new callback. */
  ghost function Added(h: seq<Node>, x: Node): seq<Node> {
    if Holds(h, x.id) then
      var r := Rescheduled(h, Slot(h, x.id), x.expires);
      if Holds(r, x.id) then r[Slot(r, x.id) := r[Slot(r, x.id)].(cb := x.cb)] else r
    else Inserted(AsWritten, h, x)
  }

  ghost function After(h: seq<Node>, call: Call): seq<Node>
    requires Legal(h, call)
  {
    match call
    case Add(id, now, timeout, cb) => Added(h, Node(id, Deadline(now, timeout), cb))
    case Adjust(id, now, timeout) => Rescheduled(h, Slot(h, id), Deadline(now, timeout))
    case DoWork(id) => if Holds(h, id) then Removed(AsWritten, h, Slot(h, id)) else h
    case Tick(clock) => PoppedTimes(h, DueCount(h, clock, 0))
    case Pop => Popped(h)
    case Clear => []
  }

  /** What the same call does to a plain map; gone are the ids the call took off. */
  ghost function MapAfter(m: map<int, Entry>, call: Call, gone: set<int>): map<int, Entry> {
    match call
    case Add(id, now, timeout, cb) => m[id := Entry(Deadline(now, timeout), cb)]
    case Adjust(id, now, timeout) =>
      if id in m then m[id := Entry(Deadline(now, timeout), m[id].cb)] else m
    case Clear => map[]
    case _ => m - gone
  }

  /** The ids a call fires or pops, as a caller of the timer sees them. */
  ghost function Gone(h: seq<Node>, call: Call): set<int>
    requires Legal(h, call)
  {
    match call
    case DoWork(id) => {id}
    case Tick(clock) => Entries(PopOrder(h)[..DueCount(h, clock, 0)]).Keys
    case Pop => {h[0].id}
    case _ => {}
  }

  /** One call changes the timers held as a plain map update, whatever the sifts do. */
  lemma CallRefinesMap(h: seq<Node>, call: Call)
    requires Distinct(h) && Legal(h, call)
    ensures Distinct(After(h, call))
    ensures Entries(After(h, call)) == MapAfter(Entries(h), call, Gone(h, call))
  {
    hide Distinct, Entries, Removed, Rescheduled, Inserted, PoppedTimes, PopOrder, DueCount;
    EntriesKeys(h);
    match call
    case Add(id, now, timeout, cb) => AddedEntries(h, Node(id, Deadline(now, timeout), cb));
    case Adjust(id, now, timeout) =>
      RescheduledEntries(h, Slot(h, id), Deadline(now, timeout));
    case DoWork(id) =>
      if Holds(h, id) { RemovedEntries(AsWritten, h, Slot(h, id)); }
    case Tick(clock) => TickSplitsTimers(h, clock);
    case Pop => RemovedEntries(AsWritten, h, 0);
    case Clear => EmptyEntries();
  }

  lemma EmptyEntries()
    ensures Distinct([]) && Entries([]) == map[]
  {
    EntriesAre([], map[]);
  }

  lemma AddedEntries(h: seq<Node>, x: Node)
    requires Distinct(h)
    ensures Distinct(Added(h, x)) && Entries(Added(h, x)) == Entries(h)[x.id := Entry(x.expires, x.cb)]
  {
    hide Distinct, Entries, Rescheduled, Inserted;
    if Holds(h, x.id) {
      var r := Rescheduled(h, Slot(h, x.id), x.expires);
      RescheduledEntries(h, Slot(h, x.id), x.expires);
      EntriesKeys(r);
      assert x.id in Entries(r);
      UpdatedEntries(r, Slot(r, x.id), r[Slot(r, x.id)].(cb := x.cb));
    } else {
      InsertedEntries(AsWritten, h, x);
    }
  }

  // ------------------------------------------------ when a timer set by a call is due

  /** A call that sets a timer makes it due, at any later reading of the clock, as soon as more than
      timeout - 1 milliseconds of a million nanoseconds have passed since its own reading. */
  lemma DueAfterTimeout(h: seq<Node>, call: Call, t: int)
    requires Distinct(h) && Legal(h, call) && (call.Add? || call.Adjust?)
    ensures var r := After(h, call);
            Holds(r, call.id) && (Due(r[Slot(r, call.id)], t) <==> t - call.now > (call.timeout - 1) * 1_000_000)
  {
    var r := After(h, call);
    CallRefinesMap(h, call);
    EntriesKeys(h);
    EntriesKeys(r);
    assert call.id in Entries(r) && Entries(r)[call.id].expires == Deadline(call.now, call.timeout);
    hide Entries, After, Gone;
    DueIsUnderOneMs(r[Slot(r, call.id)], t);
  }

  /** So tick fires a single timer, new or set again, at exactly those readings. */
  lemma TickAfterTimeout(h: seq<Node>, call: Call, clock: nat -> int)
    requires Legal(h, call) && (call.Add? || call.Adjust?)
    requires h == [] || (|h| == 1 && h[0].id == call.id)
    ensures DueCount(After(h, call), clock, 0) == 1 <==> clock(0) - call.now > (call.timeout - 1) * 1_000_000
  {
    var r := After(h, call);
    DueAfterTimeout(h, call, clock(0));
    CallKeepsSingle(h, call);
    hide After, Due;
    assert Slot(r, call.id) == 0;
  }

  lemma CallKeepsSingle(h: seq<Node>, call: Call)
    requires Legal(h, call) && (call.Add? || call.Adjust?)
    requires h == [] || (|h| == 1 && h[0].id == call.id)
    ensures |After(h, call)| == 1
  {
    if h != [] { assert Holds(h, call.id); }
  }

  ghost predicate LegalRun(h: seq<Node>, calls: seq<Call>)
    decreases |calls|
  {
    calls == [] || (Legal(h, calls[0]) && LegalRun(After(h, calls[0]), calls[1..]))
  }

  ghost function Final(h: seq<Node>, calls: seq<Call>): seq<Node>
    requires LegalRun(h, calls)
    decreases |calls|
  {
    if calls == [] then h else Final(After(h, calls[0]), calls[1..])
  }

  ghost function GoneInRun(h: seq<Node>, calls: seq<Call>): (g: seq<set<int>>)
    requires LegalRun(h, calls)
    ensures |g| == |calls|
    decreases |calls|
  {
    if calls == [] then [] else [Gone(h, calls[0])] + GoneInRun(After(h, calls[0]), calls[1..])
  }

  ghost function FinalMap(m: map<int, Entry>, calls: seq<Call>, gone: seq<set<int>>): map<int, Entry>
    requires |gone| == |calls|
    decreases |calls|
  {
    if calls == [] then m else FinalMap(MapAfter(m, calls[0], gone[0]), calls[1..], gone[1..])
  }

  /** Over any run of calls the timer is a plain finite map from id to deadline and callback. */
  lemma {:induction false} RunRefinesMap(h: seq<Node>, calls: seq<Call>)
    requires Distinct(h) && LegalRun(h, calls)
    ensures Distinct(Final(h, calls))
    ensures Entries(Final(h, calls)) == FinalMap(Entries(h), calls, GoneInRun(h, calls))
    decreases |calls|
  {
    hide Distinct, Entries, Gone, After, MapAfter, Legal;
    if calls != [] {
      CallRefinesMap(h, calls[0]);
      RunRefinesMap(After(h, calls[0]), calls[1..]);
      assert GoneInRun(h, calls)[1..] == GoneInRun(After(h, calls[0]), calls[1..]);
    }
  }

  /** Which calls keep the min-heap: all of tick, pop and clear, and the others under the
      conditions of the lemmas above. */
  ghost predicate Safe(h: seq<Node>, call: Call)
    requires Legal(h, call)
  {
    match call
    case Add(id, now, timeout, _) =>
      if Holds(h, id) then RescheduleIsSafe(h, Slot(h, id), Deadline(now, timeout))
      else h == [] || h[Parent(|h|)].expires == Deadline(now, timeout)
    case Adjust(id, now, timeout) => RescheduleIsSafe(h, Slot(h, id), Deadline(now, timeout))
    case DoWork(id) => Holds(h, id) ==> RemovalIsSafe(h, Slot(h, id))
    case _ => true
  }

  ghost predicate RescheduleIsSafe(h: seq<Node>, i: nat, expires: int)
    requires i < |h|
  {
    i == 0 || h[Parent(i)].expires <= expires
  }

  /** From a min-heap, a call ends in a min-heap if and only if it is safe. */
  lemma CallKeepsHeapIff(h: seq<Node>, call: Call)
    requires IsHeap(h) && Distinct(h) && Legal(h, call)
    ensures IsHeap(After(h, call)) <==> Safe(h, call)
  {
    hide HeapTo, Distinct, Removed, Rescheduled, Inserted, PoppedTimes, PopOrder, DueCount, RemovalIsSafe;
    match call
    case Add(id, now, timeout, cb) =>
      var x := Node(id, Deadline(now, timeout), cb);
      if Holds(h, id) {
        RescheduledIsHeapIff(h, Slot(h, id), x.expires);
        NewCallbackKeepsOrder(Rescheduled(h, Slot(h, id), x.expires), x);
      } else {
        InsertedAsWrittenIsHeapIff(h, x);
      }
    case Adjust(id, now, timeout) => RescheduledIsHeapIff(h, Slot(h, id), Deadline(now, timeout));
    case DoWork(id) => if Holds(h, id) { RemovedAsWrittenIsHeapIff(h, Slot(h, id)); }
    case Tick(clock) => TickOnHeap(h, clock);
    case Pop => PoppedIsHeap(h);
    case Clear => EmptyIsHeap();
  }

  lemma EmptyIsHeap()
    ensures IsHeap([])
  {
  }

  lemma NewCallbackKeepsOrder(r: seq<Node>, x: Node)
    ensures var w := if Holds(r, x.id) then r[Slot(r, x.id) := r[Slot(r, x.id)].(cb := x.cb)] else r;
            IsHeap(w) <==> IsHeap(r)
  {
    if Holds(r, x.id) {
      var w := r[Slot(r, x.id) := r[Slot(r, x.id)].(cb := x.cb)];
      assert forall k :: 0 <= k < |r| ==> w[k].expires == r[k].expires;
    }
  }

  // ------------------------------------------- what the comparison as written does

  ghost predicate IsMaxHeap(h: seq<Node>) {
    forall p: nat, c: nat {:trigger Edge(p, c)} :: p < c < |h| && Edge(p, c) ==> h[p].expires >= h[c].expires
  }

  function MirroredNode(x: Node): Node { x.(expires := -x.expires) }

  /** The same nodes with the order of deadlines turned round. */
  function Mirrored(h: seq<Node>): (r: seq<Node>)
    ensures |r| == |h| && forall k :: 0 <= k < |h| ==> r[k] == MirroredNode(h[k])
  {
    seq(|h|, k requires 0 <= k < |h| => MirroredNode(h[k]))
  }

  lemma MaxHeapIsMirrored(h: seq<Node>)
    ensures IsMaxHeap(h) <==> IsHeap(Mirrored(h))
  {
  }

  /** siftup_ as written is siftup_ as commented in the opposite order. */
  lemma {:induction false} RaisedMirrors(h: seq<Node>, i: nat)
    requires i < |h|
    ensures Raised(AsDocumented, Mirrored(h), i) == Mirrored(Raised(AsWritten, h, i))
    decreases i
  {
    if i > 0 && Rises(AsWritten, h[Parent(i)], h[i]) {
      assert Swapped(Mirrored(h), i, Parent(i)) == Mirrored(Swapped(h, i, Parent(i)));
      RaisedMirrors(Swapped(h, i, Parent(i)), Parent(i));
    }
  }

  /** So adding new ids keeps a max-heap. */
  lemma InsertedKeepsMaxHeap(h: seq<Node>, x: Node)
    requires IsMaxHeap(h)
    ensures IsMaxHeap(Inserted(AsWritten, h, x))
  {
    hide Raised, HeapTo;
    MaxHeapIsMirrored(h);
    InsertedAsDocumentedIsHeap(Mirrored(h), MirroredNode(x));
    RaisedMirrors(h + [x], |h|);
    assert Mirrored(h + [x]) == Mirrored(h) + [MirroredNode(x)];
    MaxHeapIsMirrored(Inserted(AsWritten, h, x));
  }

  lemma RootIsLatest(h: seq<Node>, k: nat)
    requires IsMaxHeap(h) && k < |h|
    ensures h[k].expires <= h[0].expires
  {
    hide HeapTo;
    MaxHeapIsMirrored(h);
    RootIsLeast(Mirrored(h), k);
  }

  /** Calls that add timers with ids not held and not used twice. */
  ghost predicate NewTimers(h: seq<Node>, calls: seq<Call>) {
    && (forall i :: 0 <= i < |calls| ==> calls[i].Add? && calls[i].id >= 0 && !Holds(h, calls[i].id))
    && (forall i, j :: 0 <= i < j < |calls| && calls[i].Add? && calls[j].Add? ==> calls[i].id != calls[j].id)
  }

  lemma FirstNewTimer(h: seq<Node>, calls: seq<Call>)
    requires Distinct(h) && NewTimers(h, calls) && calls != []
    ensures var a := calls[0]; var r := Inserted(AsWritten, h, Node(a.id, Deadline(a.now, a.timeout), a.cb));
            Legal(h, a) && After(h, a) == r && Distinct(r) && NewTimers(r, calls[1..])
  {
    var a := calls[0];
    var r := Inserted(AsWritten, h, Node(a.id, Deadline(a.now, a.timeout), a.cb));
    InsertedEntries(AsWritten, h, Node(a.id, Deadline(a.now, a.timeout), a.cb));
    EntriesKeys(h);
    EntriesKeys(r);
    hide Inserted, Entries, Holds, Distinct;
    forall i | 0 <= i < |calls[1..]| ensures !Holds(r, calls[1..][i].id) {
      assert calls[1..][i] == calls[i + 1];
    }
  }

  lemma {:induction false} AddsKeepMaxHeap(h: seq<Node>, calls: seq<Call>)
    requires Distinct(h) && IsMaxHeap(h) && NewTimers(h, calls)
    ensures LegalRun(h, calls) && IsMaxHeap(Final(h, calls))
    decreases |calls|
  {
    hide IsMaxHeap, Distinct, Inserted, Legal, After;
    if calls != [] {
      FirstNewTimer(h, calls);
      var a := calls[0];
      hide NewTimers;
      InsertedKeepsMaxHeap(h, Node(a.id, Deadline(a.now, a.timeout), a.cb));
      AddsKeepMaxHeap(After(h, a), calls[1..]);
    }
  }

  /** The timer at work as written: after any timers have been added, tick fires nothing until the
      latest of all deadlines is due, however overdue the others are. */
  lemma TickWaitsForLatest(calls: seq<Call>, clock: nat -> int)
    requires NewTimers([], calls)
    ensures LegalRun([], calls)
    ensures var h := Final([], calls);
            DueCount(h, clock, 0) == 0 <==> h == [] || exists k :: 0 <= k < |h| && !Due(h[k], clock(0))
  {
    AddsKeepMaxHeap([], calls);
    var h := Final([], calls);
    hide IsMaxHeap, Final;
    if h != [] {
      forall k: nat | k < |h| && Due(h[0], clock(0)) ensures Due(h[k], clock(0)) {
        RootIsLatest(h, k);
      }
    }
  }

  /** An instance: two adds, the second with the later deadline, put the later timer at the root;
      tick then fires nothing although the first timer is overdue. */
  lemma LaterTimerHidesEarlier()
    ensures var a := Add(1, 0, 10, 7); var b := Add(2, 0, 1000, 8); var now := Deadline(0, 500);
            && LegalRun([], [a, b])
            && var h := Final([], [a, b]);
            && !IsHeap(h)
            && DueCount(h, (k: nat) => now, 0) == 0
            && exists k :: 0 <= k < |h| && Due(h[k], now)
  {
    var a, b, now := Add(1, 0, 10, 7), Add(2, 0, 1000, 8), Deadline(0, 500);
    var x, y := Node(1, Deadline(0, 10), 7), Node(2, Deadline(0, 1000), 8);
    assert Final([], [a, b]) == [y, x] && LegalRun([], [a, b]) by {
      assert After([], a) == [x];
      assert !Holds([x], 2);
      assert [x] + [y] == [x, y];
      assert Parent(1) == 0;
      assert After([x], b) == [y, x];
      assert [a, b][1..] == [b] && [b][1..] == [];
      assert LegalRun([x], [b]);
      assert Final([x], [b]) == Final([y, x], []);
    }
    assert Edge(0, 1);
    assert Due([y, x][1], now);
  }
}
