/**
  * Choosing the next item to send, as lib/nghttp2_stream.c does: down the tree from queue to queue.
  */
module SchedSelect {
  import opened DepForest
  import opened VirtualTime
  import opened SchedState
  import SiblingRuns
  import Pq
  import DepTree

  /** In the window, and in heap order, the front of a queue is its earliest child. */
  lemma FrontFirst(q: Siblings)
    requires Fits(q) && q.heap != []
    ensures SiblingRuns.Earliest(Word, q, q.heap[0]) && SiblingRuns.ServedFirst(q, q.heap[0])
  {
    var u :| SiblingRuns.Inv(u) && SiblingRuns.WrapAll(u) == q;
    SiblingRuns.TopIsEarliest(u, q.heap[0]);
    SiblingRuns.EarliestWraps(u, q.heap[0]);
  }

  /** Activity below a stream shows in its queue. */
  lemma {:induction false} ActiveBelow(st: State, rank: map<Sid, nat>, root: Sid, x: Sid)
    requires TreeOk(st, rank) && Queues(st, {}) && x in st && Under(Tree(st), rank, root, x) && SubtreeActive(st[x])
    ensures root in st && SubtreeActive(st[root])
    decreases rank[x]
  {
    if x != root {
      ParentOf(st, rank, x);
      assert QueuedRight(st, x) && IsHeld(st, x);
      ActiveBelow(st, rank, root, st[x].parent.id);
    }
  }

  /** No stream below `s` is active. */
  ghost predicate IdleBelow(st: State, rank: map<Sid, nat>, s: Sid)
    requires TreeOk(st, rank)
  {
    forall x {:trigger st[x]} :: x in st && x != s && Under(Tree(st), rank, s, x) ==> !Active(st[x])
  }

  /** And the queue of a stream shows activity below it. */
  lemma {:induction false} SomeActive(st: State, rank: map<Sid, nat>, s: Sid, bound: nat) returns (x: Sid)
    requires TreeOk(st, rank) && Queues(st, {}) && s in st && st[s].obq != []
    requires forall y {:trigger rank[y]} :: y in rank ==> rank[y] <= bound
    ensures x in st && x != s && Under(Tree(st), rank, s, x) && Active(st[x])
    decreases bound + 1 - if s in rank then rank[s] else bound + 1
  {
    var k := st[s].obq[0];
    assert k in st[s].obq;
    assert HoldsKids(st, s) && QueuedRight(st, k);
    ParentOf(st, rank, k);
    x := k;
    if !Active(st[k]) {
      x := SomeActive(st, rank, k, bound);
    }
    assert Under(Tree(st), rank, s, k);
    DepTree.UnderTrans(Tree(st), rank, s, k, x);
  }

  lemma IdleQueue(st: State, rank: map<Sid, nat>, s: Sid)
    requires TreeOk(st, rank) && Queues(st, {}) && s in st && IdleBelow(st, rank, s)
    ensures st[s].obq == []
  {
    if st[s].obq != [] {
      var bound := RankBound(rank);
      var x := SomeActive(st, rank, s, bound);
    }
  }

  /** Stream `i` on the way is the child in front of the heap of the stream before it. */
  ghost predicate StepDown(st: State, path: seq<Sid>, i: nat)
    requires 0 < i < |path| && path[i] in st && path[i - 1] in st
  {
    st[path[i]].parent == At(path[i - 1]) && st[path[i - 1]].obq != [] && path[i] == st[path[i - 1]].obq[0]
  }

  /** A way down the tree along the fronts of the heaps. */
  ghost predicate Descent(st: State, path: seq<Sid>) {
    && path != [] && (forall i {:trigger path[i]} :: 0 <= i < |path| ==> path[i] in st)
    && (forall i {:trigger StepDown(st, path, i)} :: 0 < i < |path| ==> StepDown(st, path, i))
  }

  lemma {:induction false} DescentRanks(st: State, rank: map<Sid, nat>, path: seq<Sid>, i: nat, j: nat)
    requires TreeOk(st, rank) && Descent(st, path) && i < j < |path|
    ensures path[i] in rank && path[j] in rank && rank[path[i]] < rank[path[j]]
    decreases j
  {
    assert StepDown(st, path, j);
    ParentOf(st, rank, path[j]);
    if i < j - 1 {
      DescentRanks(st, rank, path, i, j - 1);
    }
  }

  /** The ancestors of the end of a way from a root are the streams on it. */
  lemma {:induction false} DescentAncestors(st: State, rank: map<Sid, nat>, path: seq<Sid>, i: nat, a: Sid)
    requires TreeOk(st, rank) && Descent(st, path) && st[path[0]].parent.Null? && i < |path|
    ensures Under(Tree(st), rank, a, path[i]) <==> a in path[..i + 1]
    decreases i
  {
    assert ParentAgrees(Tree(st), path[i]);
    assert path[..i + 1] == path[..i] + [path[i]];
    if i > 0 {
      assert StepDown(st, path, i);
      DescentAncestors(st, rank, path, i - 1, a);
    }
  }

  lemma RankBound(rank: map<Sid, nat>) returns (b: nat)
    ensures forall x {:trigger rank[x]} :: x in rank ==> rank[x] <= b
    decreases rank.Keys
  {
    if rank == map[] {
      return 0;
    }
    var x :| x in rank;
    var c := RankBound(rank - {x});
    b := if c < rank[x] then rank[x] else c;
    forall y {:trigger rank[y]} | y in rank
      ensures rank[y] <= b
    {
      assert y != x ==> y in rank - {x} && (rank - {x})[y] == rank[y];
    }
  }

  lemma DescentMore(st: State, path: seq<Sid>)
    requires Descent(st, path)
    requires var p := path[|path| - 1]; st[p].obq != [] && st[p].obq[0] in st && st[st[p].obq[0]].parent == At(p)
    ensures Descent(st, path + [st[path[|path| - 1]].obq[0]])
  {
    var path' := path + [st[path[|path| - 1]].obq[0]];
    assert forall i {:trigger path'[i]} :: 0 <= i < |path| ==> path'[i] == path[i];
    assert forall i {:trigger path'[i]} :: 0 <= i < |path'| ==> path'[i] in st;
    forall i {:trigger StepDown(st, path', i)} | 0 < i < |path'|
      ensures StepDown(st, path', i)
    {
      assert i < |path| ==> StepDown(st, path, i);
    }
  }

  /** The loop of `nghttp2_stream_next_outbound_item` that goes down the tree. */
  method FindItem(st: State, root: Sid, ghost rank: map<Sid, nat>) returns (found: bool, s: Sid, ghost path: seq<Sid>)
    requires TreeOk(st, rank) && Queues(st, {}) && root in st
    ensures Descent(st, path) && path[0] == root && path[|path| - 1] == s
    ensures forall i {:trigger path[i]} :: 0 <= i < |path| - 1 ==> !Active(st[path[i]])
    ensures found ==> Active(st[s])
    ensures !found ==> s == root && !SubtreeActive(st[root])
  {
    s, path := root, [root];
    ghost var bound := RankBound(rank);
    while !Active(st[s])
      invariant Descent(st, path) && path[0] == root && path[|path| - 1] == s && s in st
      invariant forall i {:trigger path[i]} :: 0 <= i < |path| - 1 ==> !Active(st[path[i]])
      invariant s != root ==> SubtreeActive(st[s])
      decreases if s in rank then bound - rank[s] else bound + 1
    {
      if st[s].obq == [] {
        return false, s, path;
      }
      var k := st[s].obq[0];
      assert HoldsKids(st, s) && k in st[s].obq;
      ParentOf(st, rank, k);
      assert QueuedRight(st, k);
      DescentMore(st, path);
      s, path := k, path + [k];
    }
    found := true;
  }

  /** The stream before position `i` has noted the cycle of stream `i`. */
  ghost predicate Noted(st0: State, st: State, path: seq<Sid>, i: nat)
    requires 0 < i < |path| && path[i] in st0 && path[i - 1] in st
  {
    st[path[i - 1]].last == st0[path[i]].e.cycle
  }

  /** The streams on the way from index `n` on have noted the cycle of their child on the way. */
  ghost predicate LastsSet(st0: State, st: State, path: seq<Sid>, n: nat)
    requires Descent(st0, path) && n < |path|
  {
    && st.Keys == st0.Keys
    && (forall x {:trigger st[x]} :: x in st0 ==>
          st[x] == st0[x].(last := st[x].last) && (x !in path[n..|path| - 1] ==> st[x].last == st0[x].last))
    && (forall i {:trigger Noted(st0, st, path, i)} :: n < i < |path| ==> Noted(st0, st, path, i))
  }

  /** The loop of `nghttp2_stream_next_outbound_item` that updates the ancestors. */
  method NoteCycles(st0: State, s0: Sid, ghost path: seq<Sid>, ghost rank: map<Sid, nat>) returns (st: State)
    requires TreeOk(st0, rank) && Descent(st0, path) && st0[path[0]].parent.Null? && path[|path| - 1] == s0
    ensures LastsSet(st0, st, path, 0)
  {
    st := st0;
    var s := s0;
    ghost var n := |path| - 1;
    while st[s].parent.At?
      invariant 0 <= n < |path| && s == path[n] && s in st && st.Keys == st0.Keys && LastsSet(st0, st, path, n)
      decreases n
    {
      assert st[s] == st0[s].(last := st[s].last);
      var p := st[s].parent.id;
      LastsStep(st0, st, path, n, rank);
      st := st[p := st[p].(last := st[s].e.cycle)];
      s := p;
      n := n - 1;
    }
    assert st[s] == st0[s].(last := st[s].last);
    assert n > 0 ==> StepDown(st0, path, n);
  }

  /** A cycle noted further down is not touched by the next one. */
  lemma NotedStill(st0: State, st: State, path: seq<Sid>, n: nat, i: nat, rank: map<Sid, nat>)
    requires TreeOk(st0, rank) && Descent(st0, path) && 0 < n < i < |path| && LastsSet(st0, st, path, n)
    requires path[n - 1] in st
    ensures Noted(st0, st[path[n - 1] := st[path[n - 1]].(last := st0[path[n]].e.cycle)], path, i)
  {
    DescentRanks(st0, rank, path, n - 1, i - 1);
    assert Noted(st0, st, path, i);
  }

  lemma LastsStep(st0: State, st: State, path: seq<Sid>, n: nat, rank: map<Sid, nat>)
    requires TreeOk(st0, rank) && Descent(st0, path) && n < |path| && LastsSet(st0, st, path, n)
    requires st0[path[n]].parent.At? && st0[path[0]].parent.Null?
    ensures n > 0 && st0[path[n]].parent.id == path[n - 1] && path[n - 1] in st
    ensures LastsSet(st0, st[path[n - 1] := st[path[n - 1]].(last := st0[path[n]].e.cycle)], path, n - 1)
  {
    assert StepDown(st0, path, n);
    var p := path[n - 1];
    var st' := st[p := st[p].(last := st0[path[n]].e.cycle)];
    PathPart(path, n);
    forall i {:trigger Noted(st0, st', path, i)} | n - 1 < i < |path|
      ensures Noted(st0, st', path, i)
    {
      if i > n {
        NotedStill(st0, st, path, n, i, rank);
      }
    }
    forall x {:trigger st'[x]} | x in st0
      ensures st'[x] == st0[x].(last := st'[x].last)
      ensures x !in path[n - 1..|path| - 1] ==> st'[x].last == st0[x].last
    {
      assert st[x] == st0[x].(last := st[x].last);
    }
  }

  lemma PathPart(path: seq<Sid>, n: nat)
    requires 0 < n < |path|
    ensures path[n - 1..|path| - 1] == [path[n - 1]] + path[n..|path| - 1]
  {
  }

  /** Noting cycles leaves shape and queues alone. */
  lemma LastsQueues(st0: State, st: State, path: seq<Sid>)
    requires Descent(st0, path) && LastsSet(st0, st, path, 0) && Queues(st0, {}) && Entries(st0)
    ensures SameShape(st0, st) && Queues(st, {}) && Entries(st)
  {
    forall x {:trigger st[x]} | x in st
      ensures st[x] == st0[x].(last := st[x].last)
    {
    }
    forall x {:trigger HoldsKids(st, x)} | x in st
      ensures HoldsKids(st, x)
    {
      assert HoldsKids(st0, x) && st[x] == st0[x].(last := st[x].last);
    }
    forall x {:trigger IsHeld(st, x)} | x in st
      ensures IsHeld(st, x)
    {
      assert IsHeld(st0, x) && st[x] == st0[x].(last := st[x].last);
    }
    forall x {:trigger QueuedRight(st, x)} | x in st
      ensures QueuedRight(st, x)
    {
      assert QueuedRight(st0, x) && st[x] == st0[x].(last := st[x].last);
    }
  }

  /** In the queue of a stream on the way, its child on the way is selected. */
  lemma LastsSelect(st0: State, st: State, path: seq<Sid>, i: nat)
    requires Descent(st0, path) && LastsSet(st0, st, path, 0) && Queues(st0, {}) && 0 < i < |path|
    requires SiblingRuns.WfQueue(QueueOf(st0, path[i - 1]))
    ensures path[i] in QueueOf(st0, path[i - 1]).entries
    ensures QueueOf(st, path[i - 1]) == SiblingRuns.Apply(Word, QueueOf(st0, path[i - 1]), SiblingRuns.Select(path[i]))
  {
    var p := path[i - 1];
    assert StepDown(st0, path, i) && Noted(st0, st, path, i) && path[i] in st0[p].obq;
    assert HoldsKids(st0, p) && st[p] == st0[p].(last := st[p].last);
    forall k | k in st0[p].obq && k in st0
      ensures st[k].e == st0[k].e
    {
      assert st[k] == st0[k].(last := st[k].last);
    }
    assert QueueOf(st, p).entries == QueueOf(st0, p).entries;
  }

  lemma LastsElsewhere(st0: State, st: State, path: seq<Sid>, x: Sid)
    requires Descent(st0, path) && LastsSet(st0, st, path, 0) && x in st0 && x !in path[..|path| - 1]
    ensures QueueOf(st, x) == QueueOf(st0, x)
  {
    assert path[0..|path| - 1] == path[..|path| - 1];
    assert st[x] == st0[x].(last := st[x].last);
    forall k | k in st0[x].obq && k in st0
      ensures st[k].e == st0[k].e
    {
      assert st[k] == st0[k].(last := st[k].last);
    }
    QueueSame(st0, st, x);
  }

  lemma FitsSelect(q: Siblings, q': Siblings)
    requires Fits(q) && q.heap != [] && SiblingRuns.WfQueue(q) && q.heap[0] in q.entries
    requires q' == SiblingRuns.Apply(Word, q, SiblingRuns.Select(q.heap[0]))
    ensures Fits(q')
  {
    FitsStep(q, SiblingRuns.Select(q.heap[0]));
  }

  lemma LastsWindowAt(st0: State, st: State, path: seq<Sid>, i: nat)
    requires Descent(st0, path) && LastsSet(st0, st, path, 0) && Queues(st0, {})
    requires i < |path| - 1 && Fits(QueueOf(st0, path[i]))
    ensures path[i] in st && Fits(QueueOf(st, path[i]))
  {
    assert StepDown(st0, path, i + 1) && HoldsKids(st0, path[i]);
    FitsWf(QueueOf(st0, path[i]));
    LastsSelect(st0, st, path, i + 1);
    FitsSelect(QueueOf(st0, path[i]), QueueOf(st, path[i]));
  }

  lemma LastsWindow(st0: State, st: State, path: seq<Sid>, x: Sid)
    requires Descent(st0, path) && LastsSet(st0, st, path, 0) && Queues(st0, {}) && x in st0 && Fits(QueueOf(st0, x))
    ensures Fits(QueueOf(st, x))
  {
    if x in path[..|path| - 1] {
      var i :| 0 <= i < |path| - 1 && path[i] == x;
      LastsWindowAt(st0, st, path, i);
    } else {
      LastsElsewhere(st0, st, path, x);
    }
  }

  lemma LastsWindows(st0: State, st: State, path: seq<Sid>)
    requires Descent(st0, path) && LastsSet(st0, st, path, 0) && Queues(st0, {})
    ensures KeepsWindows(st0, st)
  {
    forall x {:trigger QueueOf(st, x)} | x in st0 && Fits(QueueOf(st0, x))
      ensures Fits(QueueOf(st, x))
    {
      LastsWindow(st0, st, path, x);
    }
  }

  /** `y`, in front of the heap of its parent, has been selected; it is the earliest child if the queue is in order. */
  ghost predicate SelectedIn(st0: State, st: State, y: Sid)
    requires y in st0
  {
    st0[y].parent.At? ==>
      var p := st0[y].parent.id;
      && p in st0 && p in st && SiblingRuns.WfQueue(QueueOf(st0, p)) && y in QueueOf(st0, p).entries
      && QueueOf(st0, p).heap != [] && y == QueueOf(st0, p).heap[0]
      && QueueOf(st, p) == SiblingRuns.Apply(Word, QueueOf(st0, p), SiblingRuns.Select(y))
      && (Fits(QueueOf(st0, p)) ==>
            SiblingRuns.Earliest(Word, QueueOf(st0, p), y) && SiblingRuns.ServedFirst(QueueOf(st0, p), y))
  }

  /** `s` and its ancestors have been selected in the queues they are in, and no other queue has changed. */
  ghost predicate Selected(st0: State, st: State, rank: map<Sid, nat>, s: Sid)
    requires TreeOk(st0, rank) && s in st0 && st.Keys == st0.Keys
  {
    && (forall y {:trigger SelectedIn(st0, st, y)} ::
          y in st0 && Under(Tree(st0), rank, y, s) ==> SelectedIn(st0, st, y))
    && (forall x {:trigger QueueOf(st, x)} ::
          x in st0 && (x == s || !Under(Tree(st0), rank, x, s)) ==> QueueOf(st, x) == QueueOf(st0, x))
  }

  /** What `nghttp2_stream_next_outbound_item` promises about the stream it finds. */
  ghost predicate RightItem(st: State, rank: map<Sid, nat>, root: Sid, r: Pq.Option<Sid>)
    requires TreeOk(st, rank)
  {
    match r
    case None => forall x :: x in st && Under(Tree(st), rank, root, x) ==> !st[x].item || st[x].deferred != {}
    case Some(s) =>
      && s in st && st[s].item && st[s].deferred == {} && Under(Tree(st), rank, root, s)
      && forall a :: a in st && a != s && Under(Tree(st), rank, a, s) ==> !st[a].item || st[a].deferred != {}
  }

  lemma NoItem(st: State, rank: map<Sid, nat>, root: Sid)
    requires TreeOk(st, rank) && Queues(st, {}) && root in st && !SubtreeActive(st[root])
    ensures RightItem(st, rank, root, Pq.None)
  {
    forall x | x in st && Under(Tree(st), rank, root, x)
      ensures !Active(st[x])
    {
      if Active(st[x]) {
        ActiveBelow(st, rank, root, x);
      }
    }
  }

  lemma FoundItem(st: State, rank: map<Sid, nat>, root: Sid, path: seq<Sid>)
    requires TreeOk(st, rank) && Descent(st, path) && path[0] == root && st[root].parent.Null?
    requires forall i {:trigger path[i]} :: 0 <= i < |path| - 1 ==> !Active(st[path[i]])
    requires Active(st[path[|path| - 1]])
    ensures RightItem(st, rank, root, Pq.Some(path[|path| - 1]))
  {
    var n := |path| - 1;
    assert path[..n + 1] == path;
    DescentAncestors(st, rank, path, n, root);
    assert root in path by { assert path[0] in path; }
    forall a | a in st && a != path[n] && Under(Tree(st), rank, a, path[n])
      ensures !Active(st[a])
    {
      DescentAncestors(st, rank, path, n, a);
      var i :| 0 <= i < |path| && path[i] == a;
    }
  }

  /** On the way to the item every queue has selected its front. */
  lemma AllSelected(st0: State, st: State, rank: map<Sid, nat>, path: seq<Sid>)
    requires TreeOk(st0, rank) && Queues(st0, {}) && Entries(st0) && Descent(st0, path) && st0[path[0]].parent.Null?
    requires LastsSet(st0, st, path, 0)
    ensures Selected(st0, st, rank, path[|path| - 1])
  {
    var n := |path| - 1;
    assert path[..n + 1] == path;
    forall y {:trigger SelectedIn(st0, st, y)} | y in st0 && Under(Tree(st0), rank, y, path[n])
      ensures SelectedIn(st0, st, y)
    {
      DescentAncestors(st0, rank, path, n, y);
      var i :| 0 <= i < |path| && path[i] == y;
      if i > 0 {
        SelectedAt(st0, st, path, i);
      }
    }
    forall x {:trigger QueueOf(st, x)} | x in st0 && (x == path[n] || !Under(Tree(st0), rank, x, path[n]))
      ensures QueueOf(st, x) == QueueOf(st0, x)
    {
      OffTheWay(st0, rank, path, x);
      LastsElsewhere(st0, st, path, x);
    }
  }

  lemma SelectedAt(st0: State, st: State, path: seq<Sid>, i: nat)
    requires Queues(st0, {}) && Entries(st0) && Descent(st0, path) && LastsSet(st0, st, path, 0)
    requires 0 < i < |path|
    ensures SelectedIn(st0, st, path[i])
  {
    assert StepDown(st0, path, i) && HoldsKids(st0, path[i - 1]);
    EntriesWf(st0, path[i - 1]);
    LastsSelect(st0, st, path, i);
    if Fits(QueueOf(st0, path[i - 1])) {
      FrontFirst(QueueOf(st0, path[i - 1]));
    }
  }

  lemma OffTheWay(st: State, rank: map<Sid, nat>, path: seq<Sid>, x: Sid)
    requires TreeOk(st, rank) && Descent(st, path) && st[path[0]].parent.Null? && x in st
    requires x == path[|path| - 1] || !Under(Tree(st), rank, x, path[|path| - 1])
    ensures x !in path[..|path| - 1]
  {
    var n := |path| - 1;
    if x in path[..n] {
      var i :| 0 <= i < n && path[i] == x;
      assert path[..n + 1] == path;
      DescentAncestors(st, rank, path, n, x);
      DescentRanks(st, rank, path, i, n);
    }
  }

  lemma SameItem(st: State, st': State, rank: map<Sid, nat>, root: Sid, s: Sid)
    requires TreeOk(st, rank) && SameShape(st, st') && Tree(st') == Tree(st) && RightItem(st, rank, root, Pq.Some(s))
    ensures RightItem(st', rank, root, Pq.Some(s))
  {
    assert st'[s].item == st[s].item;
    forall a | a in st' && a != s && Under(Tree(st'), rank, a, s)
      ensures !Active(st'[a])
    {
      assert st'[a].item == st[a].item;
    }
  }
}
