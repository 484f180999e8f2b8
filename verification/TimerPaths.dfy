/** Where the sifts put every node, for any contents of the array, heap or not: the nodes on one
    path move up or down by one place and nothing else moves. Children of slot p are 2p + 1 and 2p + 2. */
module TimerPaths {
  import opened TimerHeap

  /** r is h with the first node of the path moved to its end and the others one place back. */
  ghost predicate ShiftedAlong(h: seq<Node>, r: seq<Node>, path: seq<nat>) {
    && |r| == |h| && path != [] && (forall k :: 0 <= k < |path| ==> path[k] < |h|)
    && (forall k :: 0 <= k < |path| - 1 ==> r[path[k]] == h[path[k + 1]])
    && r[path[|path| - 1]] == h[path[0]]
    && (forall x: nat :: x < |h| && x !in path ==> r[x] == h[x])
  }

  /** From slot p the node x goes down to c: c's node is not later than x and is the earlier of the
      two children, on a tie the left one. */
  ghost predicate GoesDown(h: seq<Node>, x: Node, n: nat, p: nat, c: nat)
    requires n <= |h|
  {
    && c < n && (c == 2 * p + 1 || c == 2 * p + 2) && h[c].expires <= x.expires
    && (c == 2 * p + 1 && c + 1 < n ==> h[c].expires <= h[c + 1].expires)
    && (c == 2 * p + 2 ==> h[c].expires < h[c - 1].expires)
  }

  ghost predicate StaysAbove(h: seq<Node>, x: Node, n: nat, p: nat)
    requires n <= |h|
  {
    && (2 * p + 1 < n ==> x.expires < h[2 * p + 1].expires)
    && (2 * p + 2 < n ==> x.expires < h[2 * p + 2].expires)
  }

  ghost predicate SinkPath(h: seq<Node>, path: seq<nat>, i: nat, n: nat)
    requires i < |h| && n <= |h|
  {
    && path != [] && path[0] == i
    && (forall k :: 0 <= k < |path| - 1 ==> GoesDown(h, h[i], n, path[k], path[k + 1]))
    && StaysAbove(h, h[i], n, path[|path| - 1])
  }

  /** siftdown_, exactly. */
  lemma {:induction false} SunkAlongPath(h: seq<Node>, i: nat, n: nat) returns (path: seq<nat>)
    requires i < |h| && n <= |h|
    ensures SinkPath(h, path, i, n) && ShiftedAlong(h, Sunk(h, i, n), path)
    ensures forall k :: 0 < k < |path| ==> path[k] > i
    decreases n - i
  {
    if Sinks(h, i, n) {
      var j := SmallerChild(h, i, n);
      var g := Swapped(h, i, j);
      var rest := SunkAlongPath(g, j, n);
      path := [i] + rest;
      PathContinues(h, g, i, j, n, rest);
      ShiftContinues(h, g, Sunk(g, j, n), i, j, rest);
    } else {
      path := [i];
    }
  }

  lemma PathContinues(h: seq<Node>, g: seq<Node>, i: nat, j: nat, n: nat, rest: seq<nat>)
    requires i < |h| && n <= |h| && Sinks(h, i, n) && j == SmallerChild(h, i, n) && g == Swapped(h, i, j)
    requires SinkPath(g, rest, j, n) && forall k :: 0 < k < |rest| ==> rest[k] > j
    ensures SinkPath(h, [i] + rest, i, n)
  {
    var path := [i] + rest;
    assert GoesDown(h, h[i], n, i, j);
    forall k | 0 <= k < |path| - 1 ensures GoesDown(h, h[i], n, path[k], path[k + 1]) {
      if k > 0 {
        assert GoesDown(g, g[j], n, rest[k - 1], rest[k]);
      }
    }
  }

  lemma ShiftContinues(h: seq<Node>, g: seq<Node>, r: seq<Node>, i: nat, j: nat, rest: seq<nat>)
    requires i < |h| && j < |h| && i != j && g == Swapped(h, i, j)
    requires ShiftedAlong(g, r, rest) && rest[0] == j && i !in rest
    requires forall k :: 0 < k < |rest| ==> rest[k] != j
    ensures ShiftedAlong(h, r, [i] + rest)
  {
    var path := [i] + rest;
    forall k | 0 <= k < |path| - 1 ensures r[path[k]] == h[path[k + 1]] {
      if k > 0 {
        assert r[rest[k - 1]] == g[rest[k]] && rest[k] in rest;
      }
    }
    forall x: nat | x < |h| && x !in path ensures r[x] == h[x] {
      assert x != i && x !in rest by { assert path[0] == i; assert path[1..] == rest; }
      assert j in rest;
    }
  }

  /** From slot c the node x goes up to p, whose node is earlier: the comparison as written. */
  ghost predicate GoesUp(h: seq<Node>, x: Node, c: nat, p: nat) {
    (c == 2 * p + 1 || c == 2 * p + 2) && p < |h| && h[p].expires < x.expires
  }

  ghost predicate StaysBelow(h: seq<Node>, x: Node, c: nat) {
    forall p: nat :: p < |h| && (c == 2 * p + 1 || c == 2 * p + 2) ==> x.expires <= h[p].expires
  }

  ghost predicate RisePath(h: seq<Node>, path: seq<nat>, i: nat)
    requires i < |h|
  {
    && path != [] && path[0] == i
    && (forall k :: 0 <= k < |path| - 1 ==> GoesUp(h, h[i], path[k], path[k + 1]))
    && StaysBelow(h, h[i], path[|path| - 1])
  }

  /** siftup_ as written, exactly. */
  lemma {:induction false} RaisedAlongPath(h: seq<Node>, i: nat) returns (path: seq<nat>)
    requires i < |h|
    ensures RisePath(h, path, i) && ShiftedAlong(h, Raised(AsWritten, h, i), path)
    ensures forall k :: 0 < k < |path| ==> path[k] < i
    decreases i
  {
    if i > 0 && Rises(AsWritten, h[Parent(i)], h[i]) {
      var j := Parent(i);
      var g := Swapped(h, i, j);
      var rest := RaisedAlongPath(g, j);
      path := [i] + rest;
      forall k | 0 <= k < |path| - 1 ensures GoesUp(h, h[i], path[k], path[k + 1]) {
        if k > 0 { assert GoesUp(g, g[j], rest[k - 1], rest[k]); }
      }
      var top := rest[|rest| - 1];
      forall p: nat | p < |h| && (top == 2 * p + 1 || top == 2 * p + 2) ensures h[i].expires <= h[p].expires {
        assert g[j].expires <= g[p].expires;
      }
      ShiftContinues(h, g, Raised(AsWritten, g, j), i, j, rest);
    } else {
      path := [i];
    }
  }

  // ------------------------------------------------------------ the operations

  /** add of a new id. */
  lemma InsertedAlongPath(h: seq<Node>, x: Node) returns (path: seq<nat>)
    ensures var w := h + [x];
            RisePath(w, path, |h|) && ShiftedAlong(w, Inserted(AsWritten, h, x), path)
  {
    path := RaisedAlongPath(h + [x], |h|);
  }

  /** adjust, and add of a known id but for the callback. */
  lemma RescheduledAlongPath(h: seq<Node>, i: nat, expires: int) returns (path: seq<nat>)
    requires i < |h|
    ensures var w := h[i := h[i].(expires := expires)];
            SinkPath(w, path, i, |h|) && ShiftedAlong(w, Rescheduled(h, i, expires), path)
  {
    path := SunkAlongPath(h[i := h[i].(expires := expires)], i, |h|);
  }

  /** The last node, put into the slot of the removed one, has a child there that is not later. */
  ghost predicate HasToSink(w: seq<Node>, i: nat)
    requires i < |w|
  {
    || (2 * i + 1 < |w| && w[2 * i + 1].expires <= w[i].expires)
    || (2 * i + 2 < |w| && w[2 * i + 2].expires <= w[i].expires)
  }

  /** del_: the last node takes the slot and sinks if it has to; otherwise it rises as written. */
  lemma RemovedAlongPath(h: seq<Node>, i: nat) returns (path: seq<nat>)
    requires i < |h|
    ensures i == |h| - 1 ==> Removed(AsWritten, h, i) == h[..i]
    ensures i < |h| - 1 ==>
      var w := h[..|h| - 1][i := h[|h| - 1]];
      && ShiftedAlong(w, Removed(AsWritten, h, i), path)
      && if HasToSink(w, i) then SinkPath(w, path, i, |w|) else RisePath(w, path, i)
  {
    path := [];
    var n := |h| - 1;
    if i < n {
      var long := Swapped(h, i, n);
      var w := h[..n][i := h[n]];
      assert long[..n] == w;
      assert Sinks(long, i, n) <==> HasToSink(w, i);
      hide ShiftedAlong, SinkPath, RisePath;
      if HasToSink(w, i) { path := SunkShort(long, i, n); } else { path := RaisedShort(long, i, n); }
    }
  }

  lemma SunkShort(h: seq<Node>, i: nat, n: nat) returns (path: seq<nat>)
    requires i < n <= |h|
    ensures SinkPath(h[..n], path, i, n) && ShiftedAlong(h[..n], Sunk(h, i, n)[..n], path)
  {
    path := SunkAlongPath(h, i, n);
    SinkPathShort(h, path, i, n);
    ShiftedShort(h, Sunk(h, i, n), path, n);
  }

  lemma RaisedShort(h: seq<Node>, i: nat, n: nat) returns (path: seq<nat>)
    requires i < n <= |h|
    ensures RisePath(h[..n], path, i) && ShiftedAlong(h[..n], Raised(AsWritten, h, i)[..n], path)
  {
    path := RaisedAlongPath(h, i);
    forall k | 0 <= k < |path| - 1 ensures GoesUp(h[..n], h[i], path[k], path[k + 1]) {
      assert GoesUp(h, h[i], path[k], path[k + 1]);
    }
    ShiftedShort(h, Raised(AsWritten, h, i), path, n);
  }

  lemma SinkPathShort(h: seq<Node>, path: seq<nat>, i: nat, n: nat)
    requires i < n <= |h| && SinkPath(h, path, i, n)
    ensures SinkPath(h[..n], path, i, n)
    ensures forall k :: 0 <= k < |path| ==> path[k] < n
  {
    forall k | 0 <= k < |path| - 1 ensures GoesDown(h[..n], h[i], n, path[k], path[k + 1]) {
      assert GoesDown(h, h[i], n, path[k], path[k + 1]);
    }
    forall k | 0 <= k < |path| ensures path[k] < n {
      if k > 0 { assert GoesDown(h, h[i], n, path[k - 1], path[k]); }
    }
  }

  lemma ShiftedShort(h: seq<Node>, r: seq<Node>, path: seq<nat>, n: nat)
    requires n <= |h| && ShiftedAlong(h, r, path) && forall k :: 0 <= k < |path| ==> path[k] < n
    ensures ShiftedAlong(h[..n], r[..n], path)
  {
  }
}
