/**
  * The priority scheduler of lib/nghttp2_stream.c: streams in a dependency tree, every one of them
  * with a queue of its queued children.
  */
module Scheduler {
  import opened DepForest
  import opened VirtualTime
  import opened SchedState
  import SiblingRuns
  import opened SchedSelect
  import opened SchedRequeue
  import opened SchedTree
  import opened SchedFair
  import DepTree
  import Pq

  // ------------------------------------------------------------------------ items

  lemma ItemChange(st: State, rank: map<Sid, nat>, s: Sid, item: bool, deferred: set<Deferral>)
    requires TreeOk(st, rank) && Entries(st) && Queues(st, {}) && s in st
    ensures var st' := st[s := st[s].(item := item, deferred := deferred)];
            && TreeOk(st', rank) && Tree(st') == Tree(st) && Entries(st') && Queues(st', {s})
            && KeepsWindows(st, st') && SameFields(st, st')
  {
    var st' := st[s := st[s].(item := item, deferred := deferred)];
    assert Tree(st') == Tree(st);
    forall x {:trigger HoldsKids(st', x)} | x in st'
      ensures HoldsKids(st', x)
    {
      assert HoldsKids(st, x);
    }
    forall x {:trigger IsHeld(st', x)} | x in st'
      ensures IsHeld(st', x)
    {
      assert IsHeld(st, x);
    }
    forall x {:trigger QueuedRight(st', x)} | x in st' && x !in {s}
      ensures QueuedRight(st', x)
    {
      assert QueuedRight(st, x);
    }
    forall x {:trigger QueueOf(st', x)} | x in st && Fits(QueueOf(st, x))
      ensures Fits(QueueOf(st', x))
    {
      QueueSame(st, st', x);
    }
  }

  /** `stream_update_dep_on_attach_item`. */
  method AttachUpdate(st0: State, s: Sid, ghost rank: map<Sid, nat>) returns (st: State)
    requires TreeOk(st0, rank) && Entries(st0) && Queues(st0, {s}) && s in st0 && Active(st0[s])
    ensures SameShape(st0, st) && Entries(st) && Queues(st, {}) && KeepsWindows(st0, st) && Requeued(st0, st)
  {
    assert {s} == {} + {s};
    TreeClimbs(st0, rank);
    QueuesUp(st0, {s});
    st := PushWalk(st0, s, {}, {}, rank);
  }

  /** `stream_update_dep_on_detach_item`. */
  method DetachUpdate(st0: State, s: Sid, ghost rank: map<Sid, nat>) returns (st: State)
    requires TreeOk(st0, rank) && Entries(st0) && Queues(st0, {s}) && s in st0 && !Active(st0[s])
    requires st0[s].obq != [] ==> QueuedRight(st0, s)
    ensures SameShape(st0, st) && Entries(st) && Queues(st, {}) && KeepsWindows(st0, st) && Requeued(st0, st)
  {
    st := st0;
    FieldsRequeued(st0, st);
    TreeClimbs(st0, rank);
    if st[s].obq == [] {
      st := RemoveWalk(st0, s, rank);
    }
    assert {s} == {} + {s};
    QueuesBut(st, {}, s);
  }

  // ---------------------------------------------------------------------- new streams

  lemma FitsEmpty()
    ensures Fits(Siblings(0, 0, map[], []))
  {
    SiblingRuns.EmptyWraps();
    assert SiblingRuns.EMPTY == Siblings(0, 0, map[], []);
  }

  /** `nghttp2_stream_init`. */
  function Fresh(weight: nat): Stream {
    Stream(Null, [], false, {}, false, Entry(weight, 0, 0, 0, 0), 0, 0, [])
  }

  lemma FreshQueues(st: State, s: Sid, weight: nat)
    requires Entries(st) && Queues(st, {}) && s !in st && 1 <= weight <= MAX_WEIGHT
    ensures var st' := st[s := Fresh(weight)]; Entries(st') && Queues(st', {})
  {
    var st' := st[s := Fresh(weight)];
    forall x {:trigger HoldsKids(st', x)} | x in st'
      ensures HoldsKids(st', x)
    {
      assert x != s ==> HoldsKids(st, x);
    }
    forall x {:trigger IsHeld(st', x)} | x in st'
      ensures IsHeld(st', x)
    {
      assert x != s ==> IsHeld(st, x);
    }
    forall x {:trigger QueuedRight(st', x)} | x in st'
      ensures QueuedRight(st', x)
    {
      assert x != s ==> QueuedRight(st, x);
    }
  }

  lemma FreshQueue(st: State, s: Sid, weight: nat, x: Sid)
    requires Queues(st, {}) && s !in st && x in st
    ensures QueueOf(st[s := Fresh(weight)], x) == QueueOf(st, x)
  {
    assert HoldsKids(st, x);
    assert QueueOf(st[s := Fresh(weight)], x).entries == QueueOf(st, x).entries;
  }

  lemma FreshOwn(st: State, s: Sid, weight: nat)
    ensures Fits(QueueOf(st[s := Fresh(weight)], s))
  {
    FitsEmpty();
    assert QueueOf(st[s := Fresh(weight)], s).entries == map[];
  }

  lemma FreshOk(st: State, rank: map<Sid, nat>, s: Sid, weight: nat)
    requires TreeOk(st, rank) && Entries(st) && Queues(st, {}) && s !in st && 1 <= weight <= MAX_WEIGHT
    ensures var st' := st[s := Fresh(weight)];
            && Tree(st') == Tree(st)[s := Node(Null, [], weight)]
            && Entries(st') && Queues(st', {}) && Fits(QueueOf(st', s))
            && (forall x {:trigger QueueOf(st', x)} :: x in st ==> QueueOf(st', x) == QueueOf(st, x))
  {
    var st' := st[s := Fresh(weight)];
    assert Tree(st') == Tree(st)[s := Node(Null, [], weight)];
    FreshQueues(st, s, weight);
    FreshOwn(st, s, weight);
    forall x {:trigger QueueOf(st', x)} | x in st
      ensures QueueOf(st', x) == QueueOf(st, x)
    {
      FreshQueue(st, s, weight, x);
    }
  }

  lemma FreshWf(f: Forest, rank: map<Sid, nat>, s: Sid, weight: nat)
    requires Wf(f, rank) && s !in f && 1 <= weight <= 256
    ensures Wf(f[s := Node(Null, [], weight)], rank[s := 0])
  {
    var g, r := f[s := Node(Null, [], weight)], rank[s := 0];
    forall x | x in g
      ensures KidsAgree(g, x) && ParentAgrees(g, x)
    {
      assert x != s ==> KidsAgree(f, x) && ParentAgrees(f, x);
    }
    forall x {:trigger g[x]} | x in g
      ensures x in r && (g[x].parent.At? ==> g[x].parent.id in r && r[g[x].parent.id] < r[x])
    {
      assert x != s ==> ParentAgrees(f, x);
    }
  }

  // -------------------------------------------------------------------------- weights

  /** `nghttp2_stream_change_weight`, without the parent's sum. */
  function Weighed(st: State, s: Sid, weight: nat): State
    requires s in st && WfEntry(st[s].e) && 1 <= weight <= MAX_WEIGHT
    requires st[s].queued ==> st[s].parent.At? && st[s].parent.id in st
  {
    if st[s].queued then
      var p := st[s].parent.id;
      Reput(st, p, s, Reweighed(Word, st[s].e, weight, st[p].last))
    else st[s := st[s].(e := st[s].e.(weight := weight))]
  }

  /** A queued stream has a parent other than itself. */
  ghost predicate Parented(st: State, s: Sid)
    requires s in st
  {
    st[s].queued ==> st[s].parent.At? && st[s].parent.id in st && st[s].parent.id != s
  }

  lemma WeighedHolds(st: State, s: Sid, weight: nat, x: Sid)
    requires Entries(st) && Queues(st, {}) && s in st && 1 <= weight <= MAX_WEIGHT && Parented(st, s) && x in st
    requires WfEntry(st[s].e)
    ensures var st' := Weighed(st, s, weight); HoldsKids(st', x) && IsHeld(st', x) && QueuedRight(st', x)
  {
    assert HoldsKids(st, x) && IsHeld(st, x) && QueuedRight(st, x);
    if st[s].queued {
      ReputHolds(st, st[s].parent.id, s, Reweighed(Word, st[s].e, weight, st[st[s].parent.id].last), x);
    }
  }

  lemma WeighedQueues(st: State, s: Sid, weight: nat)
    requires Entries(st) && Queues(st, {}) && s in st && 1 <= weight <= MAX_WEIGHT && Parented(st, s)
    ensures var st' := Weighed(st, s, weight);
            Entries(st') && Queues(st', {}) && Tree(st') == Tree(st)[s := Tree(st)[s].(weight := weight)]
  {
    var st' := Weighed(st, s, weight);
    assert st[s] == st[s];
    forall x {:trigger HoldsKids(st', x)} {:trigger IsHeld(st', x)} {:trigger QueuedRight(st', x)} | x in st'
      ensures HoldsKids(st', x) && IsHeld(st', x) && QueuedRight(st', x)
    {
      WeighedHolds(st, s, weight, x);
    }
    assert Tree(st') == Tree(st)[s := Tree(st)[s].(weight := weight)];
  }

  /** The change is an event in the queue of the parent. */
  lemma WeighedInParent(st: State, p: Sid, s: Sid, weight: nat)
    requires p in st && s in st && p != s && st[s].queued && st[s].parent == At(p) && 1 <= weight <= MAX_WEIGHT
    requires HoldsKids(st, p) && s in st[p].obq && SiblingRuns.WfQueue(QueueOf(st, p)) && WfEntry(st[s].e)
    ensures s in QueueOf(st, p).entries
    ensures QueueOf(Weighed(st, s, weight), p) ==
            SiblingRuns.Apply(Word, QueueOf(st, p), SiblingRuns.ChangeWeight(s, weight))
  {
    var r := Reweighed(Word, st[s].e, weight, st[p].last);
    ReputQueue(st, p, s, r);
    assert QueueOf(st, p).entries[s] == st[s].e;
    SiblingRuns.ChangeWeightIs(QueueOf(st, p), s, weight, r);
    assert Weighed(st, s, weight) == Reput(st, p, s, r);
  }

  /** And no other queue changes. */
  lemma WeighedElsewhere(st: State, s: Sid, weight: nat, x: Sid)
    requires s in st && x in st && Parented(st, s) && 1 <= weight <= MAX_WEIGHT && WfEntry(st[s].e) && HoldsKids(st, x)
    requires !(st[s].queued && st[s].parent == At(x))
    ensures QueueOf(Weighed(st, s, weight), x) == QueueOf(st, x)
  {
    if st[s].queued {
      var p := st[s].parent.id;
      ReputElsewhere(st, p, s, Reweighed(Word, st[s].e, weight, st[p].last), x);
    } else {
      QueueSame(st, Weighed(st, s, weight), x);
    }
  }

  lemma WeighedQueue(st: State, s: Sid, weight: nat, x: Sid)
    requires Entries(st) && Queues(st, {}) && s in st && 1 <= weight <= MAX_WEIGHT && x in st && Parented(st, s)
    requires SiblingRuns.WfQueue(QueueOf(st, x)) && WfEntry(st[s].e)
    ensures st[s].queued && st[s].parent == At(x) ==>
              s in QueueOf(st, x).entries &&
              QueueOf(Weighed(st, s, weight), x) ==
              SiblingRuns.Apply(Word, QueueOf(st, x), SiblingRuns.ChangeWeight(s, weight))
    ensures !(st[s].queued && st[s].parent == At(x)) ==> QueueOf(Weighed(st, s, weight), x) == QueueOf(st, x)
  {
    assert HoldsKids(st, x) && IsHeld(st, s);
    if st[s].queued && st[s].parent == At(x) {
      WeighedInParent(st, x, s, weight);
    } else {
      WeighedElsewhere(st, s, weight, x);
    }
  }

  /** What a change of weight does to the queue of `x`: an event if `s` is in it and the weight is new. */
  ghost predicate WeighedIn(st0: State, st: State, s: Sid, weight: nat, x: Sid) {
    && s in st0 && x in st0 && x in st && 1 <= weight <= MAX_WEIGHT && SiblingRuns.WfQueue(QueueOf(st0, x))
    && if st0[s].queued && st0[s].parent == At(x) && st0[s].e.weight != weight then
         s in QueueOf(st0, x).entries &&
         QueueOf(st, x) == SiblingRuns.Apply(Word, QueueOf(st0, x), SiblingRuns.ChangeWeight(s, weight))
       else
         QueueOf(st, x) == QueueOf(st0, x)
  }

  ghost predicate WeightChanged(st0: State, st: State, s: Sid, weight: nat) {
    forall x {:trigger WeighedIn(st0, st, s, weight, x)} :: x in st0 ==> WeighedIn(st0, st, s, weight, x)
  }

  lemma SameWeight(st: State, s: Sid)
    requires Entries(st) && Queues(st, {}) && s in st
    ensures WeightChanged(st, st, s, st[s].e.weight)
    ensures Tree(st)[s := Tree(st)[s].(weight := st[s].e.weight)] == Tree(st)
  {
    assert st[s] == st[s];
    forall x {:trigger WeighedIn(st, st, s, st[s].e.weight, x)} | x in st
      ensures WeighedIn(st, st, s, st[s].e.weight, x)
    {
      assert HoldsKids(st, x);
      EntriesWf(st, x);
    }
  }

  lemma OtherWeight(st: State, s: Sid, weight: nat)
    requires Entries(st) && Queues(st, {}) && s in st && 1 <= weight <= MAX_WEIGHT && st[s].e.weight != weight
    requires Parented(st, s)
    ensures WfEntry(st[s].e) && WeightChanged(st, Weighed(st, s, weight), s, weight)
  {
    assert st[s] == st[s];
    var st' := Weighed(st, s, weight);
    forall x {:trigger WeighedIn(st, st', s, weight, x)} | x in st
      ensures WeighedIn(st, st', s, weight, x)
    {
      assert HoldsKids(st, x);
      EntriesWf(st, x);
      WeighedQueue(st, s, weight, x);
    }
  }

  lemma WeighedWindows(st: State, s: Sid, weight: nat)
    requires Entries(st) && Queues(st, {}) && s in st && 1 <= weight <= MAX_WEIGHT && Parented(st, s)
    ensures KeepsWindows(st, Weighed(st, s, weight))
  {
    var st' := Weighed(st, s, weight);
    forall x {:trigger QueueOf(st', x)} | x in st && Fits(QueueOf(st, x))
      ensures Fits(QueueOf(st', x))
    {
      assert st[s] == st[s];
      FitsWf(QueueOf(st, x));
      WeighedQueue(st, s, weight, x);
      if st[s].queued && st[s].parent == At(x) {
        FitsStep(QueueOf(st, x), SiblingRuns.ChangeWeight(s, weight));
      }
    }
  }

  // ----------------------------------------------------------- a last cycle set to zero

  /** The window survives a zeroed last cycle exactly when every cycle is safe. */
  lemma ZeroedFits(q: Siblings)
    requires Fits(q)
    ensures Fits(SiblingRuns.Zeroed(q)) <==> SiblingRuns.ZeroSafe(q)
  {
    var u :| SiblingRuns.Inv(u) && SiblingRuns.WrapAll(u) == q;
    if SiblingRuns.ZeroSafe(q) {
      SiblingRuns.ZeroSafeSound(u);
    }
    if Fits(SiblingRuns.Zeroed(q)) {
      var v :| SiblingRuns.Inv(v) && SiblingRuns.WrapAll(v) == SiblingRuns.Zeroed(q);
      SiblingRuns.ZeroSafeNeeded(v);
    }
  }

  // ------------------------------------------------------------------------ new dependencies

  /** `s` hangs below `dep` with its new weight, and the others are where they belong. */
  ghost predicate Moved(f: Forest, g: Forest, s: Sid, dep: Sid, weight: nat, exclusive: bool)
    requires s in g && dep in g && dep in f
  {
    && g[s].parent == At(dep) && g[s].weight == weight && (exclusive ==> g[dep].kids == [s])
    && g[dep].weight == f[dep].weight && DepTree.Elsewhere(f, g, s, dep, exclusive)
  }

  /** The last cycle of `s` is not set to zero, or that does no harm. */
  ghost predicate Spared(st: State, s: Sid, dep: Sid, exclusive: bool)
    requires s in st
  {
    (st[s].parent == At(dep) && !exclusive) || (st[s].queued ==> SiblingRuns.ZeroSafe(QueueOf(st, s)))
  }

  /** A queue that begins at zero and has a child that is not safe is not in its window. */
  lemma UnsafeQueue(q: Siblings, k: Sid)
    requires q.last == 0 && k in q.entries && !SiblingRuns.SafeChild(q.entries[k])
    ensures !Fits(q)
  {
    if Fits(q) {
      var u :| SiblingRuns.Inv(u) && SiblingRuns.WrapAll(u) == q;
      SiblingRuns.ZeroSafeNeeded(u);
    }
  }

  lemma SameItemsTrans(a: State, b: State, c: State)
    requires SameItems(a, b) && SameItems(b, c)
    ensures SameItems(a, c)
  {
    forall x {:trigger c[x]} | x in a
      ensures c[x].item == a[x].item && c[x].deferred == a[x].deferred
    {
      assert b[x] == b[x];
    }
  }

  /** The last cycle of `x` is zero, and a cycle in its queue is not safe from that. */
  ghost predicate Harmed(st: State, x: Sid)
    requires x in st
  {
    QueueOf(st, x).last == 0 && !SiblingRuns.ZeroSafe(QueueOf(st, x))
  }

  lemma HarmedFails(st: State, x: Sid)
    requires x in st && Harmed(st, x)
    ensures !Fits(QueueOf(st, x))
  {
    var k :| k in QueueOf(st, x).entries && !SiblingRuns.SafeChild(QueueOf(st, x).entries[k]);
    UnsafeQueue(QueueOf(st, x), k);
  }

  /** `k` is where it was, in the queue of `x`. */
  ghost predicate StaysBelow(st: State, x: Sid, k: Sid) {
    k in st && st[k].queued && st[k].parent == At(x)
  }

  /** Harm is done to a queue as long as its streams stay in it. */
  lemma HarmedStays(st: State, st': State, x: Sid)
    requires Queues(st, {}) && Queues(st', {}) && Requeued(st, st') && x in st && Harmed(st, x)
    requires forall k {:trigger StaysBelow(st', x, k)} :: k in st[x].obq ==> StaysBelow(st', x, k)
    ensures Harmed(st', x)
  {
    var q := QueueOf(st, x);
    var k :| k in q.entries && !SiblingRuns.SafeChild(q.entries[k]);
    assert StaysBelow(st', x, k) && HoldsKids(st, x) && IsHeld(st', k);
    assert Requeue(st, st', k) && Requeue(st, st', x);
    assert QueueOf(st', x).entries[k] == q.entries[k];
  }

  /** A stream put below `dep` takes its own children along; and those of `dep` stay, unless it is exclusive. */
  lemma AttachHarm(st: State, st': State, s: Sid, dep: Sid, exclusive: bool, x: Sid)
    requires Queues(st, {}) && Queues(st', {}) && Requeued(st, st') && NoLeaves(st, st') && s in st && dep in st
    requires s != dep && st[s].parent.Null? && (x == s || (x == dep && !exclusive)) && Harmed(st, x)
    requires Tree(st') == if exclusive then DepForest.Insert(Tree(st), dep, s) else Add(Tree(st), dep, s)
    ensures Harmed(st', x)
  {
    RootFree(st, s);
    forall k {:trigger StaysBelow(st', x, k)} | k in st[x].obq
      ensures StaysBelow(st', x, k)
    {
      assert HoldsKids(st, x) && st'[k].queued;
      assert Tree(st')[k].parent == st'[k].parent && Tree(st)[k].parent == st[k].parent;
    }
    HarmedStays(st, st', x);
  }

  /** Removing a subtree elsewhere leaves the streams below `dep` queued. */
  lemma CutHarm(st: State, rank: map<Sid, nat>, st': State, s: Sid, dep: Sid)
    requires TreeOk(st, rank) && Queues(st, {}) && TreeOk(st', rank) && Queues(st', {}) && s in st && dep in st
    requires st[s].parent.At? && ParentAgrees(Tree(st), s) && Tree(st') == DepForest.RemoveSubtree(Tree(st), s)
    requires !Under(Tree(st), rank, s, dep) && !Under(Tree(st), rank, dep, s)
    requires SameItems(st, st') && Requeued(st, st') && Harmed(st, dep)
    ensures Harmed(st', dep)
  {
    forall k {:trigger StaysBelow(st', dep, k)} | k in st[dep].obq
      ensures StaysBelow(st', dep, k)
    {
      CutStays(st, rank, st', s, dep, k);
    }
    HarmedStays(st, st', dep);
  }

  lemma CutStays(st: State, rank: map<Sid, nat>, st': State, s: Sid, dep: Sid, k: Sid)
    requires TreeOk(st, rank) && Queues(st, {}) && TreeOk(st', rank) && Queues(st', {}) && s in st && dep in st
    requires st[s].parent.At? && ParentAgrees(Tree(st), s) && Tree(st') == DepForest.RemoveSubtree(Tree(st), s)
    requires !Under(Tree(st), rank, s, dep) && !Under(Tree(st), rank, dep, s)
    requires SameItems(st, st') && k in st[dep].obq
    ensures StaysBelow(st', dep, k)
  {
    var f, g := Tree(st), Tree(st');
    assert HoldsKids(st, dep) && QueuedRight(st, k) && f[k].parent == At(dep) && ParentAgrees(f, k);
    assert Under(f, rank, dep, k);
    var x := k;
    if !Active(st[k]) {
      var bound := RankBound(rank);
      x := SomeActive(st, rank, k, bound);
    }
    DepTree.UnderTrans(f, rank, dep, k, x);
    NotBoth(f, rank, s, dep, x);
    DepTree.UnderAlso(f, rank, g, rank, k, s, x);
    assert Active(st'[x]) by { assert st'[x].item == st[x].item; }
    ActiveBelow(st', rank, k, x);
    assert k != s && g[k].parent == st'[k].parent && g[k].parent == f[k].parent;
    assert QueuedRight(st', k);
  }

  lemma AllTheSame(h: seq<Sid>, s: Sid)
    requires Pq.NoDup(h) && h != [] && forall i :: 0 <= i < |h| ==> h[i] == s
    ensures h == [s]
  {
    assert h[0] == h[|h| - 1];
  }

  /** An exclusive child is alone in its queue, with the cycle of a newcomer. */
  lemma OnlyChild(st: State, rank: map<Sid, nat>, st': State, s: Sid, dep: Sid)
    requires TreeOk(st, rank) && Queues(st, {}) && Queues(st', {}) && Requeued(st, st') && s in st && dep in st
    requires s != dep && st[s].parent.Null? && st[dep].last == 0
    requires Tree(st') == DepForest.Insert(Tree(st), dep, s)
    ensures Fits(QueueOf(st', dep))
  {
    RootFree(st, s);
    var q := QueueOf(st', dep);
    assert Requeue(st, st', dep) && Requeue(st, st', s) && HoldsKids(st', dep);
    forall i {:trigger q.heap[i]} | 0 <= i < |q.heap|
      ensures q.heap[i] == s
    {
      var k := q.heap[i];
      assert k in st'[dep].obq;
      assert Tree(st')[k].parent == st'[k].parent && ParentAgrees(Tree(st), k) && KidsAgree(Tree(st), dep);
    }
    if q.heap == [] {
      EmptyFits(q);
    } else {
      AllTheSame(q.heap, s);
      OneFits(q, s, st[s].e.(weight := st'[s].e.weight));
    }
  }

  lemma OneFits(q: Siblings, s: Sid, e: Entry)
    requires q.last == 0 && q.heap == [s] && q.entries.Keys == {s} && WfEntry(e)
    requires q.entries[s] == NextCycle(Word, e, 0).(turn := q.entries[s].turn) && q.entries[s].turn < q.nextTurn
    ensures Fits(q)
  {
    var x := NextCycle(Exact, e, 0).(turn := q.entries[s].turn);
    SiblingRuns.NewEntry(e, 0, q.entries[s].turn);
    var u := q.(entries := map[s := x]);
    assert SiblingRuns.Inv(u);
    assert SiblingRuns.WrapAll(u) == q;
  }

  /** Every queue has its cycles in the window and its heap in order. */
  ghost predicate AllFit(st: State) {
    forall x {:trigger QueueOf(st, x)} :: x in st ==> Fits(QueueOf(st, x))
  }

  /** A new dependency of `s` on `dep` keeps the windows. */
  ghost predicate MoveSafe(st: State, rank: map<Sid, nat>, s: Sid, dep: Sid, exclusive: bool)
    requires TreeOk(st, rank) && s in st && dep in st
  {
    if NoCycle(st, rank, s, dep) then Spared(st, s, dep, exclusive)
    else RestSafe(st, rank, s, dep) && (exclusive || Unharmed(st, dep))
  }

  /** What a move of `s` below `dep` does to the windows. */
  ghost predicate MoveWindows(st0: State, st: State, rank: map<Sid, nat>, s: Sid, dep: Sid, exclusive: bool)
    requires TreeOk(st0, rank) && s in st0
  {
    && s in st0 && dep in st0 && KeepsWindowsBut(st0, st, s)
    && (Fits(QueueOf(st0, s)) ==> (Fits(QueueOf(st, s)) <==> Unharmed(st0, s)))
    && (exclusive && st0[dep].last == 0 ==> Fits(QueueOf(st, dep)))
    && (!exclusive && !Under(Tree(st0), rank, dep, s) && Harmed(st0, dep) ==> Harmed(st, dep))
  }

  /** A stream outside of all queues changes its weight: no queue changes. */
  lemma CutWindows(st0: State, rank: map<Sid, nat>, st1: State, st: State, s: Sid, dep: Sid, weight: nat)
    requires TreeOk(st0, rank) && Queues(st0, {}) && TreeOk(st1, rank) && Queues(st1, {}) && s in st0 && dep in st0
    requires st0[s].parent.At? && ParentAgrees(Tree(st0), s) && Tree(st1) == DepForest.RemoveSubtree(Tree(st0), s)
    requires SameItems(st0, st1) && Requeued(st0, st1) && KeepsWindowsBut(st0, st1, s)
    requires !Under(Tree(st0), rank, s, dep)
    requires WeightChanged(st1, st, s, weight) && st.Keys == st1.Keys
    ensures KeepsWindowsBut(st0, st, s) && (st0[dep].last == 0 ==> st[dep].last == 0)
    ensures QueueOf(st, s) == QueueOf(st1, s)
    ensures !Under(Tree(st0), rank, dep, s) && Harmed(st0, dep) ==> Harmed(st, dep)
  {
    assert Tree(st1)[s].parent == st1[s].parent;
    RootFree(st1, s);
    forall x {:trigger QueueOf(st, x)} | x in st1
      ensures QueueOf(st, x) == QueueOf(st1, x)
    {
      assert WeighedIn(st1, st, s, weight, x);
    }
    assert KeepsWindows(st1, st);
    WindowsButTrans(st0, st1, st, s);
    assert Requeue(st0, st1, dep) && QueueOf(st, dep).last == QueueOf(st1, dep).last;
    if !Under(Tree(st0), rank, dep, s) && Harmed(st0, dep) {
      CutHarm(st0, rank, st1, s, dep);
    }
  }

  lemma AttachWindows(st: State, rank: map<Sid, nat>, st': State, s: Sid, dep: Sid, exclusive: bool)
    requires TreeOk(st, rank) && Queues(st, {}) && Queues(st', {}) && Requeued(st, st') && NoLeaves(st, st')
    requires s in st && dep in st && s != dep && st[s].parent.Null?
    requires Tree(st') == if exclusive then DepForest.Insert(Tree(st), dep, s) else Add(Tree(st), dep, s)
    ensures Harmed(st, s) ==> Harmed(st', s)
    ensures !exclusive && Harmed(st, dep) ==> Harmed(st', dep)
    ensures exclusive && st[dep].last == 0 ==> Fits(QueueOf(st', dep))
  {
    if Harmed(st, s) {
      AttachHarm(st, st', s, dep, exclusive, s);
    }
    if !exclusive && Harmed(st, dep) {
      AttachHarm(st, st', s, dep, exclusive, dep);
    }
    if exclusive && st[dep].last == 0 {
      OnlyChild(st, rank, st', s, dep);
    }
  }

  /** A move is a cut and an attachment. */
  lemma MovedWindows(st0: State, rank: map<Sid, nat>, st1: State, st: State, s: Sid, dep: Sid, exclusive: bool)
    requires TreeOk(st0, rank) && s in st0 && dep in st0 && KeepsWindowsBut(st0, st1, s) && KeepsWindows(st1, st)
    requires QueueOf(st1, s) == if st0[s].queued then SiblingRuns.Zeroed(QueueOf(st0, s)) else QueueOf(st0, s)
    requires st0[dep].last == 0 ==> st1[dep].last == 0
    requires !Under(Tree(st0), rank, dep, s) && Harmed(st0, dep) ==> Harmed(st1, dep)
    requires Harmed(st1, s) ==> Harmed(st, s)
    requires !exclusive && Harmed(st1, dep) ==> Harmed(st, dep)
    requires exclusive && st1[dep].last == 0 ==> Fits(QueueOf(st, dep))
    ensures MoveWindows(st0, st, rank, s, dep, exclusive)
  {
    WindowsButTrans(st0, st1, st, s);
    if Fits(QueueOf(st0, s)) {
      ZeroedFits(QueueOf(st0, s));
      assert Fits(QueueOf(st1, s)) ==> Fits(QueueOf(st, s));
      if !Unharmed(st0, s) {
        HarmedFails(st, s);
      }
    }
  }

  lemma AllWindows(st0: State, rank: map<Sid, nat>, st: State, s: Sid, dep: Sid, exclusive: bool)
    requires TreeOk(st0, rank) && s in st0 && MoveWindows(st0, st, rank, s, dep, exclusive)
    ensures AllFit(st0) ==> (AllFit(st) <==> Unharmed(st0, s))
  {
    if AllFit(st0) {
      assert Fits(QueueOf(st0, s));
      assert AllFit(st) ==> Fits(QueueOf(st, s));
    }
  }

  /** First `dep` takes a place beside `s`, then `s` moves below it. */
  lemma CycleWindows(st0: State, st1: State, rank: map<Sid, nat>, st: State, s: Sid, dep: Sid, exclusive: bool)
    requires AllFit(st0) && KeepsWindowsBut(st0, st1, dep) && s in st1 && s != dep && TreeOk(st1, rank)
    requires if Unharmed(st0, dep) then AllFit(st1) else Harmed(st1, dep)
    requires MoveWindows(st1, st, rank, s, dep, exclusive) && !Under(Tree(st1), rank, dep, s)
    ensures AllFit(st) <==> Unharmed(st1, s) && (exclusive || Unharmed(st0, dep))
  {
    assert Fits(QueueOf(st0, s)) && Fits(QueueOf(st1, s));
    assert AllFit(st) ==> Fits(QueueOf(st, s)) && Fits(QueueOf(st, dep));
    if Harmed(st, dep) {
      HarmedFails(st, dep);
    }
    if Unharmed(st1, s) && (exclusive || Unharmed(st0, dep)) {
      forall x {:trigger QueueOf(st, x)} | x in st
        ensures Fits(QueueOf(st, x))
      {
        if x != dep {
          assert Fits(QueueOf(st0, x)) && Fits(QueueOf(st1, x));
        }
      }
    }
  }

  ghost predicate NoCycle(st: State, rank: map<Sid, nat>, s: Sid, dep: Sid)
    requires TreeOk(st, rank) && dep in st
  {
    !Under(Tree(st), rank, s, dep)
  }

  /** A last cycle set to zero does no harm to the queue of `x`. */
  ghost predicate Unharmed(st: State, x: Sid)
    requires x in st
  {
    st[x].queued ==> SiblingRuns.ZeroSafe(QueueOf(st, x))
  }

  /** Beside `dep`, `s` does move; and without a queued child there is nothing to harm. */
  lemma BesideSpared(st: State, s: Sid, dep: Sid, exclusive: bool)
    requires Queues(st, {}) && s in st && st[s].parent.At? && st[s].parent != At(dep)
    ensures Spared(st, s, dep, exclusive) <==> SiblingRuns.ZeroSafe(QueueOf(st, s))
  {
    assert QueuedRight(st, s);
    if !st[s].queued {
      assert QueueOf(st, s).entries == map[];
    }
  }

  /** Only `dep` has another parent, and all have their weights. */
  ghost predicate Rehung(st0: State, st: State, dep: Sid) {
    st.Keys == st0.Keys &&
    forall x {:trigger Tree(st)[x]} :: x in st ==>
      Tree(st)[x].weight == Tree(st0)[x].weight && (x != dep ==> Tree(st)[x].parent == Tree(st0)[x].parent)
  }

  /** Some stream below `k`, but not below `dep`, is active. */
  ghost predicate ActiveBeside(st: State, rank: map<Sid, nat>, k: Sid, dep: Sid)
    requires TreeOk(st, rank)
  {
    exists x {:trigger st[x]} ::
      x in st && Active(st[x]) && Under(Tree(st), rank, k, x) && !Under(Tree(st), rank, dep, x)
  }

  /** The children of `s` that stay queued without `dep` are safe from zero. */
  ghost predicate RestSafe(st: State, rank: map<Sid, nat>, s: Sid, dep: Sid)
    requires TreeOk(st, rank) && s in st
  {
    forall k {:trigger k in st[s].obq} :: k in st[s].obq && k in st && ActiveBeside(st, rank, k, dep) ==>
      SiblingRuns.SafeChild(st[k].e)
  }

  /** `dep` hangs elsewhere, neither above nor below `s`. */
  ghost predicate Aside(st: State, st': State, rank': map<Sid, nat>, s: Sid, dep: Sid) {
    && TreeOk(st', rank') && Queues(st', {}) && SameItems(st, st') && Rehung(st, st', dep)
    && s in st' && dep in st' && !Under(Tree(st'), rank', s, dep) && !Under(Tree(st'), rank', dep, s)
  }

  lemma KidAside(st: State, st': State, rank': map<Sid, nat>, s: Sid, dep: Sid, k: Sid)
    requires Aside(st, st', rank', s, dep) && k in st' && k != dep && st'[k].parent == At(s)
    ensures !Under(Tree(st'), rank', k, dep) && !Under(Tree(st'), rank', dep, k)
  {
    var g := Tree(st');
    assert g[k].parent == At(s) && ParentAgrees(g, k);
    if Under(g, rank', k, dep) {
      assert Under(g, rank', s, k);
      DepTree.UnderTrans(g, rank', s, k, dep);
    }
  }

  /** A child that is queued without `dep` was queued before, and not because of what is below `dep`. */
  lemma QueuedWithout(st: State, rank: map<Sid, nat>, st': State, rank': map<Sid, nat>, s: Sid, dep: Sid, k: Sid)
    requires TreeOk(st, rank) && Queues(st, {}) && Aside(st, st', rank', s, dep)
    requires k != dep && k in st'[s].obq
    ensures k in st && k in st[s].obq && ActiveBeside(st, rank, k, dep)
  {
    var f, g := Tree(st), Tree(st');
    assert HoldsKids(st', s) && QueuedRight(st', k);
    KidAside(st, st', rank', s, dep, k);
    var x := k;
    if !Active(st'[k]) {
      var bound := RankBound(rank');
      x := SomeActive(st', rank', k, bound);
    }
    DepTree.UnderKept(f, rank, g, rank', k, dep, x);
    assert Active(st[x]) by { assert st'[x].item == st[x].item; }
    if Under(f, rank, dep, x) {
      DepTree.BelowStays(f, rank, g, rank', dep, x);
      NotBoth(g, rank', dep, k, x);
    }
    ActiveBelow(st, rank, k, x);
    assert g[k].parent == f[k].parent && f[k].parent == st[k].parent && QueuedRight(st, k) && IsHeld(st, k);
  }

  /** Two streams above the same stream are in line. */
  lemma NotBoth(f: Forest, rank: map<Sid, nat>, a: Sid, b: Sid, x: Sid)
    requires Wf(f, rank) && x in f && a in f && b in f && !Under(f, rank, a, b) && !Under(f, rank, b, a)
    ensures !(Under(f, rank, a, x) && Under(f, rank, b, x))
  {
    if Under(f, rank, a, x) && Under(f, rank, b, x) {
      UnderRank(f, rank, a, x);
      UnderRank(f, rank, b, x);
      if rank[a] <= rank[b] {
        InLine(f, rank, a, b, x);
      } else {
        InLine(f, rank, b, a, x);
      }
    }
  }

  /** And the other way round. */
  lemma QueuedStill(st: State, rank: map<Sid, nat>, st': State, rank': map<Sid, nat>, s: Sid, dep: Sid, k: Sid)
    requires TreeOk(st, rank) && Queues(st, {}) && Aside(st, st', rank', s, dep)
    requires k != dep && k in st && k in st[s].obq && ActiveBeside(st, rank, k, dep)
    ensures k in st' && k in st'[s].obq
  {
    var f, g := Tree(st), Tree(st');
    var x :| x in st && Active(st[x]) && Under(f, rank, k, x) && !Under(f, rank, dep, x);
    DepTree.UnderAlso(f, rank, g, rank', k, dep, x);
    assert Active(st'[x]) by { assert st'[x].item == st[x].item; }
    ActiveBelow(st', rank', k, x);
    assert HoldsKids(st, s) && g[k].parent == f[k].parent && f[k].parent == st[k].parent;
    assert QueuedRight(st', k) && IsHeld(st', k);
  }

  lemma CutIsAside(st: State, st': State, rank: map<Sid, nat>, s: Sid, dep: Sid)
    requires TreeOk(st, rank) && s in st && dep in st && s != dep && Under(Tree(st), rank, s, dep)
    requires Tree(st)[dep].parent.At? && ParentAgrees(Tree(st), dep)
    requires Tree(st') == DepForest.RemoveSubtree(Tree(st), dep) && SameItems(st, st')
    requires TreeOk(st', rank) && Queues(st', {})
    ensures Aside(st, st', rank, s, dep)
  {
    var f, g := Tree(st), Tree(st');
    assert st'.Keys == g.Keys && st.Keys == f.Keys && g[dep].parent.Null?;
    if Under(g, rank, dep, s) {
      DepTree.UnderCut(f, rank, dep, dep, s);
      UnderRank(f, rank, dep, s);
      UnderRank(f, rank, s, dep);
    }
  }

  lemma BesideIsAside(st: State, st': State, rank': map<Sid, nat>, s: Sid, dep: Sid, p: Sid)
    requires TreeOk(st', rank') && Queues(st', {}) && SameItems(st, st') && Rehung(st, st', dep)
    requires s in st' && dep in st' && s != dep && st'[s].parent == At(p) && st'[dep].parent == At(p)
    ensures Aside(st, st', rank', s, dep)
  {
    var g := Tree(st');
    assert g[s].parent == At(p) && g[dep].parent == At(p) && ParentAgrees(g, s);
    DepTree.NotAboveParent(g, rank', s, p);
    DepTree.NotAboveParent(g, rank', dep, p);
  }

  /** A child that stays queued keeps its entry. */
  lemma SameEntry(st0: State, rank0: map<Sid, nat>, st1: State, rank1: map<Sid, nat>, st: State, rank: map<Sid, nat>,
                  s: Sid, dep: Sid, k: Sid)
    requires TreeOk(st0, rank0) && Queues(st0, {}) && Aside(st0, st1, rank1, s, dep) && Aside(st0, st, rank, s, dep)
    requires Requeued(st0, st1) && Requeued(st1, st)
    requires k != dep && k in st0 && k in st0[s].obq && ActiveBeside(st0, rank0, k, dep)
    ensures k in st && k in st[s].obq && st[k].e == st0[k].e
  {
    QueuedStill(st0, rank0, st1, rank1, s, dep, k);
    QueuedStill(st0, rank0, st, rank, s, dep, k);
    assert HoldsKids(st0, s) && HoldsKids(st1, s) && HoldsKids(st, s);
    assert Requeue(st0, st1, k) && Requeue(st1, st, k);
  }

  lemma QueueAside(st0: State, rank0: map<Sid, nat>, st1: State, rank1: map<Sid, nat>, st: State, rank: map<Sid, nat>,
                   s: Sid, dep: Sid)
    requires TreeOk(st0, rank0) && Queues(st0, {}) && Aside(st0, st1, rank1, s, dep) && Aside(st0, st, rank, s, dep)
    requires Requeued(st0, st1) && Requeued(st1, st) && s in st0 && st[dep].parent != At(s)
    ensures SiblingRuns.ZeroSafe(QueueOf(st, s)) <==> RestSafe(st0, rank0, s, dep)
  {
    var q := QueueOf(st, s);
    assert HoldsKids(st, s);
    if RestSafe(st0, rank0, s, dep) {
      forall k {:trigger q.entries[k]} | k in q.entries
        ensures SiblingRuns.SafeChild(q.entries[k])
      {
        QueuedWithout(st0, rank0, st, rank, s, dep, k);
        SameEntry(st0, rank0, st1, rank1, st, rank, s, dep, k);
      }
    }
    if SiblingRuns.ZeroSafe(q) {
      forall k {:trigger k in st0[s].obq} | k in st0[s].obq && k in st0 && ActiveBeside(st0, rank0, k, dep)
        ensures SiblingRuns.SafeChild(st0[k].e)
      {
        SameEntry(st0, rank0, st1, rank1, st, rank, s, dep, k);
        assert q.entries[k] == st[k].e;
      }
    }
  }

  lemma RehungTwice(st0: State, st1: State, st: State, dep: Sid, p: Sid)
    requires dep in st0 && st0[dep].parent.At? && ParentAgrees(Tree(st0), dep) && p in st0 && p != dep
    requires Tree(st1) == DepForest.RemoveSubtree(Tree(st0), dep) && Tree(st) == Add(Tree(st1), p, dep)
    ensures Rehung(st0, st, dep) && dep in st && st[dep].parent == At(p)
  {
    assert st.Keys == Tree(st).Keys && st0.Keys == Tree(st0).Keys;
  }

  /** A guard that a caller knows: nothing is active below `s`. */
  lemma IdleIsSafe(st: State, rank: map<Sid, nat>, s: Sid, dep: Sid, exclusive: bool)
    requires TreeOk(st, rank) && Queues(st, {}) && s in st && dep in st && s != dep && IdleBelow(st, rank, s)
    ensures Spared(st, s, dep, exclusive) && RestSafe(st, rank, s, dep)
    ensures Under(Tree(st), rank, s, dep) ==> Unharmed(st, dep)
  {
    IdleQueue(st, rank, s);
    assert QueueOf(st, s).entries == map[];
    if Under(Tree(st), rank, s, dep) {
      forall x {:trigger st[x]} | x in st && x != dep && Under(Tree(st), rank, dep, x)
        ensures !Active(st[x])
      {
        DepTree.UnderTrans(Tree(st), rank, s, dep, x);
      }
      IdleQueue(st, rank, dep);
      assert QueueOf(st, dep).entries == map[];
    }
  }

  lemma MovedAfter(st0: State, st1: State, st: State, s: Sid, dep: Sid, weight: nat, exclusive: bool)
    requires s in st && dep in st && SameItems(st0, st1) && SameItems(st1, st) && Rehung(st0, st1, dep)
    requires Moved(Tree(st1), Tree(st), s, dep, weight, exclusive)
    ensures SameItems(st0, st) && Moved(Tree(st0), Tree(st), s, dep, weight, exclusive)
  {
    assert Tree(st1)[dep] == Tree(st1)[dep];
    DepTree.ElsewhereAfter(Tree(st0), Tree(st1), Tree(st), s, dep, exclusive);
  }

  /** An active stream is queued, and joined its queue if it was in none. */
  lemma JoinsLater(st0: State, st: State, tops: set<Sid>, s: Sid)
    requires Requeued(st0, st) && Settled(st0, tops) && s in st && Queues(st, {}) && Active(st[s])
    ensures st[s].parent.At? && !st0[s].queued && s !in tops ==> JoinedAtLast(st0, st, s)
  {
    assert QueuedRight(st, s);
    if st[s].parent.At? && !st0[s].queued && s !in tops {
      FreshJoins(st0, st, tops, s);
    }
  }

  lemma LastsSettled(st0: State, st: State, path: seq<Sid>, tops: set<Sid>)
    requires Descent(st0, path) && LastsSet(st0, st, path, 0) && Settled(st0, tops)
    ensures Settled(st, tops)
  {
    forall x {:trigger st[x]} | x in st && x !in tops && !st[x].queued
      ensures Clear(st[x].e)
    {
      assert st0[x] == st0[x];
    }
  }

  /** `r` is the root of the tree of `s`. */
  ghost predicate IsRoot(st: State, rank: map<Sid, nat>, r: Sid, s: Sid) {
    TreeOk(st, rank) && r in st && s in st && st[r].parent.Null? && Under(Tree(st), rank, r, s)
  }

  /** A tree has one root. */
  lemma OneRoot(st: State, rank: map<Sid, nat>, top: Sid, s: Sid)
    requires TreeOk(st, rank) && top in st && s in st && st[top].parent.Null? && Under(Tree(st), rank, top, s)
    ensures forall r: Sid {:trigger IsRoot(st, rank, r, s)} :: IsRoot(st, rank, r, s) ==> r == top
  {
    forall r: Sid {:trigger IsRoot(st, rank, r, s)} | IsRoot(st, rank, r, s)
      ensures r == top
    {
      var f := Tree(st);
      assert f[r].parent == st[r].parent && f[top].parent == st[top].parent;
      if !Under(f, rank, r, top) && !Under(f, rank, top, r) {
        NotBoth(f, rank, r, top, s);
      }
    }
  }

  class Scheduler {
    var st: State
    ghost var rank: map<Sid, nat>
    ghost var tops: set<Sid>

    /**
      * A well-formed tree in which exactly the right streams are queued, and those that are not owe
      * nothing.  In `tops` are the roots of trees in which a stream has been rescheduled.
      */
    ghost predicate Valid()
      reads this
    {
      TreeOk(st, rank) && Entries(st) && Queues(st, {}) && Settled(st, tops)
    }

    /** Every queue has its cycles in the window and its heap in order. */
    ghost predicate Windows()
      reads this
    {
      AllFit(st)
    }

    /** `nghttp2_stream_attach_item`. */
    method AttachItem(s: Sid)
      requires Valid() && s in st && !st[s].item && st[s].deferred == {}
      modifies this`st, this`rank
      ensures Valid() && SameShape(old(st)[s := old(st)[s].(item := true)], st) && rank == old(rank)
      ensures Requeued(old(st), st) && Tree(st) == Tree(old(st))
      ensures st[s].parent.At? && !old(st)[s].queued && s !in tops ==> JoinedAtLast(old(st), st, s)
      ensures old(Windows()) ==> Windows()
    {
      ItemChange(st, rank, s, true, {});
      st := st[s := st[s].(item := true)];
      ghost var st1 := st;
      st := AttachUpdate(st, s, rank);
      SameTree(st1, st);
      WindowsTrans(old(st), st1, st);
      FieldsBefore(old(st), st1, st);
      SettledRequeued(old(st), st, tops);
      JoinsLater(old(st), st, tops, s);
    }

    /** `nghttp2_stream_detach_item`. */
    method DetachItem(s: Sid)
      requires Valid() && s in st
      modifies this`st, this`rank
      ensures Valid() && SameShape(old(st)[s := old(st)[s].(item := false, deferred := {})], st) && rank == old(rank)
      ensures Requeued(old(st), st) && Tree(st) == Tree(old(st))
      ensures old(Windows()) ==> Windows()
    {
      assert QueuedRight(st, s);
      ItemChange(st, rank, s, false, {});
      st := st[s := st[s].(item := false, deferred := {})];
      ghost var st1 := st;
      st := DetachUpdate(st, s, rank);
      SameTree(st1, st);
      WindowsTrans(old(st), st1, st);
      FieldsBefore(old(st), st1, st);
      SettledRequeued(old(st), st, tops);
    }

    /** `nghttp2_stream_defer_item`, with at least one reason. */
    method DeferItem(s: Sid, flags: set<Deferral>)
      requires Valid() && s in st && st[s].item && flags != {}
      modifies this`st, this`rank
      ensures Valid() && SameShape(old(st)[s := old(st)[s].(deferred := old(st)[s].deferred + flags)], st) &&
              rank == old(rank)
      ensures Requeued(old(st), st) && Tree(st) == Tree(old(st))
      ensures old(Windows()) ==> Windows()
    {
      assert QueuedRight(st, s);
      ItemChange(st, rank, s, true, st[s].deferred + flags);
      st := st[s := st[s].(deferred := st[s].deferred + flags)];
      ghost var st1 := st;
      st := DetachUpdate(st, s, rank);
      SameTree(st1, st);
      WindowsTrans(old(st), st1, st);
      FieldsBefore(old(st), st1, st);
      SettledRequeued(old(st), st, tops);
    }

    /** `nghttp2_stream_resume_deferred_item`. */
    method ResumeDeferredItem(s: Sid, flags: set<Deferral>)
      requires Valid() && s in st && st[s].item
      modifies this`st, this`rank
      ensures Valid() && SameShape(old(st)[s := old(st)[s].(deferred := old(st)[s].deferred - flags)], st) &&
              rank == old(rank)
      ensures Requeued(old(st), st) && Tree(st) == Tree(old(st))
      ensures st[s].deferred == {} && st[s].parent.At? && !old(st)[s].queued && s !in tops ==>
                JoinedAtLast(old(st), st, s)
      ensures old(Windows()) ==> Windows()
    {
      assert QueuedRight(st, s);
      ItemChange(st, rank, s, true, st[s].deferred - flags);
      st := st[s := st[s].(deferred := st[s].deferred - flags)];
      ghost var st1 := st;
      if st[s].deferred != {} {
        assert {s} == {} + {s};
        QueuesBut(st, {}, s);
        FieldsRequeued(old(st), st);
        SettledRequeued(old(st), st, tops);
        return;
      }
      st := AttachUpdate(st, s, rank);
      SameTree(st1, st);
      WindowsTrans(old(st), st1, st);
      FieldsBefore(old(st), st1, st);
      SettledRequeued(old(st), st, tops);
      JoinsLater(old(st), st, tops, s);
    }

    /**
      * `nghttp2_stream_next_outbound_item` from the root of a tree: the item of an active stream none
      * of whose proper ancestors is active, and none exactly when no stream in the tree is active.
      * The stream and all its ancestors are then selected in the queues they are in, each as the
      * first of its queue, and no other queue changes.
      */
    method NextOutboundItem(root: Sid) returns (r: Pq.Option<Sid>)
      requires Valid() && root in st && st[root].parent.Null?
      modifies this`st
      ensures Valid() && SameShape(old(st), st) && RightItem(st, rank, root, r)
      ensures r.None? ==> st == old(st)
      ensures TreeOk(old(st), rank) && (r.Some? ==> r.value in old(st) && Selected(old(st), st, rank, r.value))
      ensures old(Windows()) ==> Windows()
    {
      var found, s;
      ghost var path;
      found, s, path := FindItem(st, root, rank);
      if !found {
        NoItem(st, rank, root);
        return Pq.None;
      }
      FoundItem(st, rank, root, path);
      ghost var st0 := st;
      st := NoteCycles(st, s, path, rank);
      LastsQueues(st0, st, path);
      LastsSettled(st0, st, path, tops);
      SameTree(st0, st);
      LastsWindows(st0, st, path);
      AllSelected(st0, st, rank, path);
      SameItem(st0, st, rank, root, s);
      r := Pq.Some(s);
    }

    /** A session with its root stream. */
    constructor (root: Sid)
      ensures Valid() && Windows() && st == map[root := Fresh(16)] && tops == {}
    {
      st := map[root := Fresh(16)];
      rank := map[root := 0];
      tops := {};
      new;
      assert Tree(map[]) == map[];
      assert Queues(map[], {});
      FreshOk(map[], map[], root, 16);
      FreshWf(map[], map[], root, 16);
      assert map[][root := Fresh(16)] == st;
    }

    /** `nghttp2_stream_init`. */
    method Init(s: Sid, weight: nat)
      requires Valid() && s !in st && 1 <= weight <= MAX_WEIGHT
      modifies this`st, this`rank
      ensures Valid() && st == old(st)[s := Fresh(weight)]
      ensures Tree(st) == Tree(old(st))[s := Node(Null, [], weight)]
      ensures old(Windows()) ==> Windows()
    {
      FreshOk(st, rank, s, weight);
      FreshWf(Tree(st), rank, s, weight);
      st := st[s := Fresh(weight)];
      rank := rank[s := 0];
    }

    /** `nghttp2_stream_dep_add` and `nghttp2_stream_dep_add_subtree`. */
    method AddSubtree(dep: Sid, s: Sid)
      requires Valid() && dep in st && s in st && st[s].parent.Null? && !Under(Tree(st), rank, s, dep)
      modifies this`st, this`rank
      ensures Valid() && Tree(st) == Add(Tree(old(st)), dep, s) && SameItems(old(st), st)
      ensures Requeued(old(st), st) && NoLeaves(old(st), st)
      ensures KeepsWindows(old(st), st)
      ensures old(Windows()) ==> Windows()
    {
      AddWf(Tree(st), rank, dep, s);
      ghost var r := AddRank(Tree(st), rank, dep, s);
      st := AddEdit(st, dep, s, rank);
      rank := r;
      SettledRequeued(old(st), st, tops);
    }

    /** `nghttp2_stream_dep_insert` of a stream without children and item. */
    method Insert(dep: Sid, s: Sid)
      requires Valid() && dep in st && s in st && dep != s && st[s].parent.Null? && st[s].kids == [] && !Active(st[s])
      modifies this`st, this`rank
      ensures Valid() && Tree(st) == DepForest.Insert(Tree(old(st)), dep, s) && SameItems(old(st), st)
      ensures Requeued(old(st), st) && NoLeaves(old(st), st)
      ensures old(Windows()) ==> Windows()
    {
      assert Tree(st)[s].kids == [];
      DepTree.LeafAbove(Tree(st), rank, s, dep);
      InsertWf(Tree(st), rank, dep, s);
      ghost var r := InsertRank(Tree(st), rank, dep, s);
      st := InsertEdit(st, dep, s, false, rank);
      rank := r;
      SettledRequeued(old(st), st, tops);
    }

    /** `nghttp2_stream_dep_insert_subtree`. */
    method InsertSubtree(dep: Sid, s: Sid)
      requires Valid() && dep in st && s in st && st[s].parent.Null? && !Under(Tree(st), rank, s, dep)
      modifies this`st, this`rank
      ensures Valid() && Tree(st) == DepForest.Insert(Tree(old(st)), dep, s) && SameItems(old(st), st)
      ensures Requeued(old(st), st) && NoLeaves(old(st), st)
      ensures KeepsWindows(old(st), st)
      ensures old(Windows()) ==> Windows()
    {
      InsertWf(Tree(st), rank, dep, s);
      ghost var r := InsertRank(Tree(st), rank, dep, s);
      st := InsertEdit(st, dep, s, true, rank);
      rank := r;
      SettledRequeued(old(st), st, tops);
    }

    /** `nghttp2_stream_dep_remove` of a stream without item; `sum` is its `sum_dep_weight`. */
    method Remove(s: Sid, sum: nat)
      requires Valid() && s in st && st[s].parent.At? && !Active(st[s]) && sum == SumWeights(Tree(st), st[s].kids)
      modifies this`st, this`rank
      ensures ParentAgrees(Tree(old(st)), s) && KidsAgree(Tree(old(st)), s)
      ensures Tree(old(st))[s].kids != [] ==> SumWeights(Tree(old(st)), Tree(old(st))[s].kids) > 0
      ensures Valid() && Tree(st) == DepForest.Remove(Tree(old(st)), s) && SameItems(old(st), st)
      ensures FairShares(Tree(old(st)), Tree(st), s) && SharesAddUp(Tree(old(st)), Tree(st), s)
      ensures Requeued(old(st), st)
      ensures old(Windows()) ==> Windows()
    {
      ParentOf(st, rank, s);
      assert ParentAgrees(Tree(st), s) && KidsAgree(Tree(st), s) && Tree(st)[s].kids == st[s].kids;
      SumPositive(Tree(st), rank, s);
      RemoveWf(Tree(st), rank, s);
      SharesExactly(Tree(st), rank, s);
      assert Tree(st)[st[s].parent.id].kids == st[st[s].parent.id].kids;
      st := RemoveEdit(st, s, st[s].parent.id, sum, rank);
      SettledRequeued(old(st), st, tops);
    }

    /**
      * `nghttp2_stream_dep_remove_subtree`.  Tree and queues stay right; the window of the removed
      * stream's own queue survives exactly if its cycles are safe from the zeroed last cycle.
      */
    method RemoveSubtree(s: Sid)
      requires Valid() && s in st && st[s].parent.At?
      modifies this`st, this`rank
      ensures ParentAgrees(Tree(old(st)), s)
      ensures Valid() && Tree(st) == DepForest.RemoveSubtree(Tree(old(st)), s) && SameItems(old(st), st)
      ensures Requeued(old(st), st)
      ensures KeepsWindowsBut(old(st), st, s)
      ensures old(Windows()) ==>
                (Windows() <==> (old(st)[s].queued ==> SiblingRuns.ZeroSafe(QueueOf(old(st), s))))
      ensures old(Windows()) && old(st)[s].obq == [] ==> Windows()
      ensures QueueOf(st, s) ==
              if old(st)[s].queued then SiblingRuns.Zeroed(QueueOf(old(st), s)) else QueueOf(old(st), s)
      ensures rank == old(rank)
    {
      assert ParentAgrees(Tree(st), s);
      RemoveSubtreeWf(Tree(st), rank, s);
      ghost var st0 := st;
      assert st0[s].obq == [] ==> QueueOf(st0, s).entries == map[];
      st := RemoveSubtreeEdit(st, s, rank);
      if Fits(QueueOf(st0, s)) {
        ZeroedFits(QueueOf(st0, s));
      }
      ZeroedWindows(st0, st, s);
      SettledRequeued(old(st), st, tops);
    }

    /** `nghttp2_stream_reschedule` after `len` octets. */
    method Reschedule(s: Sid, len: nat)
      requires Valid() && s in st && st[s].queued && len <= MAX_FRAME
      modifies this`st, this`tops
      ensures Valid() && SameShape(old(st), st) && rank == old(rank)
      ensures TreeOk(old(st), rank) && Rescheduled(old(st), st, rank, s, len)
      ensures old(Windows()) ==> Windows()
      ensures forall r: Sid {:trigger IsRoot(old(st), rank, r, s)} ::
                IsRoot(old(st), rank, r, s) ==> tops == old(tops) + {r}
    {
      ghost var st0 := st;
      ghost var top;
      st, top := RescheduleWalk(st, s, len, rank);
      SettledWait(st0, st, top, tops);
      tops := tops + {top};
      OneRoot(st0, rank, top, s);
      SameTree(st0, st);
      RescheduledWindows(st0, st, rank, s, len);
    }

    /**
      * The session's sending loop: choose the next item, send that many octets of it, reschedule its
      * stream; until `lens` is used up or no stream in the tree is active.  Over the whole run any two
      * queued siblings share what is sent in the proportion of their weights.
      */
    method Serve(root: Sid, lens: seq<nat>) returns (served: seq<Sid>)
      requires Valid() && Windows() && root in st && st[root].parent.Null?
      requires forall i {:trigger lens[i]} :: 0 <= i < |lens| ==> lens[i] <= MAX_FRAME
      modifies this`st, this`tops
      ensures Valid() && Windows() && SameShape(old(st), st) && |served| <= |lens|
      ensures |served| < |lens| ==> RightItem(st, rank, root, Pq.None)
      ensures tops <= old(tops) + {root}
      ensures FairRun(old(st), rank, served, lens[..|served|])
    {
      ghost var states;
      served, states := ServeAll(root, lens);
      AllFair(states, rank, served, lens[..|served|]);
    }

    /** The loop, with the states it goes through. */
    method ServeAll(root: Sid, lens: seq<nat>) returns (served: seq<Sid>, ghost states: seq<State>)
      requires Valid() && Windows() && root in st && st[root].parent.Null?
      requires forall i {:trigger lens[i]} :: 0 <= i < |lens| ==> lens[i] <= MAX_FRAME
      modifies this`st, this`tops
      ensures Valid() && Windows() && SameShape(old(st), st) && |served| <= |lens|
      ensures |served| < |lens| ==> RightItem(st, rank, root, Pq.None)
      ensures tops <= old(tops) + {root}
      ensures Rounds(states, rank, served, lens[..|served|]) && states[0] == old(st)
    {
      served := [];
      states := [st];
      while |served| < |lens|
        invariant Valid() && Windows() && |served| <= |lens| && SameShape(old(st), st)
        invariant tops <= old(tops) + {root}
        invariant Rounds(states, rank, served, lens[..|served|]) && states[0] == old(st) && states[|served|] == st
        decreases |lens| - |served|
      {
        assert st[root].parent == old(st)[root].parent;
        ghost var st1 := st;
        var r := ServeNext(root, lens[|served|]);
        if r.None? {
          break;
        }
        ShapeTrans(old(st), st1, st);
        RoundsNext(states, rank, served, lens, |served|, st, r.value);
        states, served := states + [st], served + [r.value];
      }
    }

    /** One round of the loop. */
    method ServeNext(root: Sid, len: nat) returns (r: Pq.Option<Sid>)
      requires Valid() && Windows() && root in st && st[root].parent.Null? && len <= MAX_FRAME
      modifies this`st, this`tops
      ensures Valid() && Windows() && SameShape(old(st), st)
      ensures r.None? ==> st == old(st) && RightItem(st, rank, root, Pq.None)
      ensures tops <= old(tops) + {root}
      ensures r.Some? ==> Round(old(st), st, rank, r.value, len)
    {
      r := NextOutboundItem(root);
      if r.Some? {
        SendOne(old(st), root, r.value, len);
      }
    }

    /** The stream chosen in state `st0` has sent `len` octets. */
    method SendOne(ghost st0: State, ghost root: Sid, s: Sid, len: nat)
      requires Valid() && Windows() && TreeOk(st0, rank) && Queues(st0, {}) && s in st0 && s in st && len <= MAX_FRAME
      requires SameShape(st0, st) && Selected(st0, st, rank, s) && Active(st[s])
      requires forall x {:trigger QueueOf(st0, x)} :: x in st0 ==> Fits(QueueOf(st0, x))
      requires IsRoot(st, rank, root, s)
      modifies this`st, this`tops
      ensures Valid() && Windows() && SameShape(st0, st) && Round(st0, st, rank, s, len)
      ensures tops <= old(tops) + {root}
    {
      ghost var st1 := st;
      assert QueuedRight(st, s) && st[s].parent == st0[s].parent;
      if st[s].queued {
        Reschedule(s, len);
        assert IsRoot(st1, rank, root, s);
        ShapeTrans(st0, st1, st);
        IsRound(st0, st1, st, rank, s, len);
      } else {
        RootRound(st0, st, rank, s, len);
      }
    }

    /** `nghttp2_stream_change_weight`. */
    method ChangeWeight(s: Sid, weight: nat)
      requires Valid() && s in st && 1 <= weight <= MAX_WEIGHT
      modifies this`st, this`rank
      ensures Valid() && Tree(st) == Tree(old(st))[s := Tree(old(st))[s].(weight := weight)] && SameItems(old(st), st)
      ensures WeightChanged(old(st), st, s, weight) && rank == old(rank)
      ensures old(Windows()) ==> Windows()
    {
      if st[s].e.weight == weight {
        SameWeight(st, s);
        return;
      }
      assert IsHeld(st, s);
      if st[s].queued {
        ParentOf(st, rank, s);
      }
      OtherWeight(st, s, weight);
      WeighedQueues(st, s, weight);
      WeighedWindows(st, s, weight);
      DepTree.WeightWf(Tree(st), rank, s, weight);
      st := Weighed(st, s, weight);
    }

    /** `nghttp2_stream_dep_find_ancestor`. */
    method FindAncestor(stream: Sid, target: Sid) returns (found: bool)
      requires Valid() && stream in st
      ensures found == Under(Tree(st), rank, target, stream)
    {
      var x := stream;
      assert ParentAgrees(Tree(st), x) && Tree(st)[x].parent == st[x].parent;
      while true
        invariant x in st && x in rank && Under(Tree(st), rank, target, stream) == Under(Tree(st), rank, target, x)
        decreases rank[x]
      {
        if x == target {
          return true;
        }
        if st[x].parent.Null? {
          return false;
        }
        ParentOf(st, rank, x);
        x := st[x].parent.id;
      }
    }

    /** `s` leaves the tree, with its subtree, and gets its new weight. */
    method Cut(s: Sid, dep: Sid, weight: nat)
      requires Valid() && s in st && dep in st && st[s].parent.At? && !Under(Tree(st), rank, s, dep)
      requires 1 <= weight <= MAX_WEIGHT
      modifies this`st, this`rank
      ensures ParentAgrees(Tree(old(st)), s) && Valid() && SameItems(old(st), st) && rank == old(rank)
      ensures var f1 := DepForest.RemoveSubtree(Tree(old(st)), s); Tree(st) == f1[s := f1[s].(weight := weight)]
      ensures s in st && dep in st && st[s].parent.Null? && !Under(Tree(st), rank, s, dep)
      ensures QueueOf(st, s) ==
              if old(st)[s].queued then SiblingRuns.Zeroed(QueueOf(old(st), s)) else QueueOf(old(st), s)
      ensures KeepsWindowsBut(old(st), st, s) && (old(st)[dep].last == 0 ==> st[dep].last == 0)
      ensures !Under(Tree(old(st)), rank, dep, s) && Harmed(old(st), dep) ==> Harmed(st, dep)
    {
      ghost var f0, st0 := Tree(st), st;
      RemoveSubtree(s);
      DepTree.CutNotAbove(f0, rank, s, dep);
      DepTree.WeightWf(Tree(st), rank, s, weight);
      DepTree.WeightUnder(Tree(st), rank, s, weight, dep);
      ghost var st1 := st;
      ChangeWeight(s, weight);
      assert Tree(st)[s].parent == st[s].parent && Tree(st1)[s].parent == st1[s].parent;
      CutWindows(st0, rank, st1, st, s, dep, weight);
    }

    /** And comes back below `dep`; harm done to its queue stays, and to that of `dep` if it keeps its children. */
    method Attach(s: Sid, dep: Sid, exclusive: bool)
      requires Valid() && s in st && dep in st && st[s].parent.Null? && !Under(Tree(st), rank, s, dep)
      modifies this`st, this`rank
      ensures Valid() && SameItems(old(st), st)
      ensures Tree(st) == if exclusive then DepForest.Insert(Tree(old(st)), dep, s) else Add(Tree(old(st)), dep, s)
      ensures Requeued(old(st), st) && KeepsWindows(old(st), st)
      ensures Harmed(old(st), s) ==> Harmed(st, s)
      ensures !exclusive && Harmed(old(st), dep) ==> Harmed(st, dep)
      ensures exclusive && old(st)[dep].last == 0 ==> Fits(QueueOf(st, dep))
    {
      ghost var st0, rank0 := st, rank;
      if exclusive {
        InsertSubtree(dep, s);
      } else {
        AddSubtree(dep, s);
      }
      AttachWindows(st0, rank0, st, s, dep, exclusive);
    }

    /**
      * A dependency on a stream below `s`: that stream first takes a place beside `s`.  The windows
      * survive exactly if its own queue is safe from zero.
      */
    method BreakCycle(s: Sid, dep: Sid)
      requires Valid() && s in st && dep in st && s != dep && st[s].parent.At? && Under(Tree(st), rank, s, dep)
      modifies this`st, this`rank
      ensures Valid() && Aside(old(st), st, rank, s, dep)
      ensures st[s].parent == old(st)[s].parent == st[dep].parent
      ensures Tree(st) == DepTree.Beside(Tree(old(st)), s, dep)
      ensures old(Windows()) ==> (Windows() <==> Unharmed(old(st), dep))
      ensures KeepsWindowsBut(old(st), st, dep) && (!Unharmed(old(st), dep) ==> Harmed(st, dep))
      ensures SiblingRuns.ZeroSafe(QueueOf(st, s)) <==> old(RestSafe(st, rank, s, dep))
    {
      ghost var st0, rank0 := st, rank;
      ParentOf(st, rank, s);
      var p := st[s].parent.id;
      DepTree.HasParent(Tree(st), rank, s, dep);
      DepTree.CutAside(Tree(st), rank, s, dep, p);
      RemoveSubtree(dep);
      ghost var st1, rank1 := st, rank;
      CutIsAside(st0, st1, rank, s, dep);
      Attach(dep, p, false);
      WindowsButTrans(st0, st1, st, dep);
      if Harmed(st, dep) {
        HarmedFails(st, dep);
      }
      RehungTwice(st0, st1, st, dep, p);
      SameItemsTrans(st0, st1, st);
      BesideIsAside(st0, st, rank, s, dep, p);
      QueueAside(st0, rank0, st1, rank1, st, rank, s, dep);
    }

    /** A new dependency on a stream that is not below `s`. */
    method Move(s: Sid, dep: Sid, weight: nat, exclusive: bool)
      requires Valid() && s in st && dep in st && st[s].parent.At? && !Under(Tree(st), rank, s, dep)
      requires 1 <= weight <= MAX_WEIGHT
      modifies this`st, this`rank
      ensures Valid() && SameItems(old(st), st) && Moved(Tree(old(st)), Tree(st), s, dep, weight, exclusive)
      ensures Tree(st)[dep].parent == Tree(old(st))[dep].parent
      ensures MoveWindows(old(st), st, old(rank), s, dep, exclusive)
      ensures Tree(st) == DepTree.Shift(Tree(old(st)), s, dep, weight, exclusive)
    {
      ghost var st0, rank0 := st, rank;
      Cut(s, dep, weight);
      ghost var st1 := st;
      Attach(s, dep, exclusive);
      MovedWindows(st0, rank0, st1, st, s, dep, exclusive);
      SameItemsTrans(st0, st1, st);
      DepTree.MovedElsewhere(Tree(st0), rank0, s, dep, weight, exclusive, Tree(st));
    }

    /** The end of `nghttp2_session_reprioritize_stream`, without a cycle. */
    method Rehang(s: Sid, dep: Sid, weight: nat, exclusive: bool)
      requires Valid() && s in st && dep in st && st[s].parent.At? && !Under(Tree(st), rank, s, dep)
      requires 1 <= weight <= MAX_WEIGHT
      modifies this`st, this`rank
      ensures Valid() && SameItems(old(st), st) && Moved(Tree(old(st)), Tree(st), s, dep, weight, exclusive)
      ensures Tree(st)[dep].parent == Tree(old(st))[dep].parent
      ensures old(Windows()) ==> (Windows() <==> Spared(old(st), s, dep, exclusive))
      ensures exclusive || old(st)[s].parent != At(dep) ==> MoveWindows(old(st), st, old(rank), s, dep, exclusive)
      ensures Tree(st) == DepTree.Reprioritized(Tree(old(st)), false, s, dep, weight, exclusive)
    {
      if st[s].parent == At(dep) && !exclusive {
        ChangeWeight(s, weight);
        return;
      }
      ghost var st0, rank0 := st, rank;
      Move(s, dep, weight, exclusive);
      AllWindows(st0, rank0, st, s, dep, exclusive);
    }

    /** A new dependency on a stream below `s`. */
    method Untangle(s: Sid, dep: Sid, weight: nat, exclusive: bool)
      requires Valid() && s in st && dep in st && s != dep && st[s].parent.At? && 1 <= weight <= MAX_WEIGHT
      requires Under(Tree(st), rank, s, dep)
      modifies this`st, this`rank
      ensures Valid() && SameItems(old(st), st) && Moved(Tree(old(st)), Tree(st), s, dep, weight, exclusive)
      ensures st[dep].parent == old(st)[s].parent
      ensures old(Windows()) ==>
                (Windows() <==> old(RestSafe(st, rank, s, dep)) && (exclusive || Unharmed(old(st), dep)))
      ensures Tree(st) == DepTree.Reprioritized(Tree(old(st)), true, s, dep, weight, exclusive)
    {
      ghost var st0 := st;
      BreakCycle(s, dep);
      BesideSpared(st, s, dep, exclusive);
      ghost var st1, rank1 := st, rank;
      Rehang(s, dep, weight, exclusive);
      if old(Windows()) {
        CycleWindows(st0, st1, rank1, st, s, dep, exclusive);
      }
      MovedAfter(st0, st1, st, s, dep, weight, exclusive);
    }

    /**
      * `nghttp2_session_reprioritize_stream`, with both streams in the tree: `s` becomes a child of
      * `dep`, the only one if `exclusive`, whatever the dependencies were before, and again exactly
      * the right streams are queued.  The windows survive exactly if what stays in the queue of `s` is
      * safe from zero or `s` does not move; and so is the queue of `dep`, if it was below `s` and keeps
      * its children.
      */
    method Reprioritize(s: Sid, dep: Sid, weight: nat, exclusive: bool)
      requires Valid() && s in st && dep in st && s != dep && st[s].parent.At? && 1 <= weight <= MAX_WEIGHT
      modifies this`st, this`rank
      ensures Valid() && SameItems(old(st), st) && Moved(Tree(old(st)), Tree(st), s, dep, weight, exclusive)
      ensures st[dep].parent == if old(Under(Tree(st), rank, s, dep)) then old(st)[s].parent else old(st)[dep].parent
      ensures old(Windows()) ==> (Windows() <==> old(MoveSafe(st, rank, s, dep, exclusive)))
      ensures Tree(st) ==
              DepTree.Reprioritized(Tree(old(st)), !old(NoCycle(st, rank, s, dep)), s, dep, weight, exclusive)
    {
      var found := FindAncestor(dep, s);
      if found {
        Untangle(s, dep, weight, exclusive);
      } else {
        Rehang(s, dep, weight, exclusive);
      }
    }
  }

  lemma ZeroedWindows(st0: State, st: State, s: Sid)
    requires KeepsWindowsBut(st0, st, s) && s in st
    requires QueueOf(st, s) == if st0[s].queued then SiblingRuns.Zeroed(QueueOf(st0, s)) else QueueOf(st0, s)
    requires Fits(QueueOf(st0, s)) ==>
             (Fits(SiblingRuns.Zeroed(QueueOf(st0, s))) <==> SiblingRuns.ZeroSafe(QueueOf(st0, s)))
    ensures AllFit(st0) ==> (AllFit(st) <==> Unharmed(st0, s))
  {
  }
}
