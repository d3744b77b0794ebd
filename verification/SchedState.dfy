/**
  * The streams of lib/nghttp2_stream.c with their queues, as one value: the dependency tree, the
  * items waiting to be sent, and for every stream the queue of its queued children.
  */
module SchedState {
  import opened DepForest
  import opened VirtualTime
  import SiblingRuns
  import Pq

  type Sid = nat

  /** NGHTTP2_STREAM_FLAG_DEFERRED_FLOW_CONTROL and NGHTTP2_STREAM_FLAG_DEFERRED_USER. */
  datatype Deferral = FlowControl | User

  datatype Stream = Stream(
    parent: Ptr,
    kids: seq<Sid>,
    item: bool,
    deferred: set<Deferral>,
    queued: bool,
    e: Entry,
    last: int,
    nextTurn: nat,
    obq: seq<Sid>)

  type State = map<Sid, Stream>

  /** `stream_active`. */
  predicate Active(x: Stream) {
    x.item && x.deferred == {}
  }

  /** `stream_subtree_active`. */
  predicate SubtreeActive(x: Stream) {
    Active(x) || x.obq != []
  }

  ghost function Tree(st: State): Forest {
    map x | x in st :: Node(st[x].parent, st[x].kids, st[x].e.weight)
  }

  // ------------------------------------------------------------------ queues and the tree

  /** The heap of `p` holds queued children of `p`, each once. */
  ghost predicate HoldsKids(st: State, p: Sid)
    requires p in st
  {
    Pq.NoDup(st[p].obq) &&
    forall k {:trigger k in st[p].obq} :: k in st[p].obq ==> k in st && st[k].queued && st[k].parent == At(p)
  }

  /** A queued stream is in the queue of its parent. */
  ghost predicate IsHeld(st: State, k: Sid)
    requires k in st
  {
    st[k].queued ==> st[k].parent.At? && st[k].parent.id in st && k in st[st[k].parent.id].obq
  }

  /** Outside of roots a stream is queued exactly when it is active or has a queued child. */
  ghost predicate QueuedRight(st: State, x: Sid)
    requires x in st
  {
    st[x].parent.At? ==> (st[x].queued <==> SubtreeActive(st[x]))
  }

  /** The queue invariant, except that streams in `but` may be queued wrongly. */
  ghost predicate Queues(st: State, but: set<Sid>) {
    && (forall p {:trigger HoldsKids(st, p)} :: p in st ==> HoldsKids(st, p))
    && (forall k {:trigger IsHeld(st, k)} :: k in st ==> IsHeld(st, k))
    && (forall x {:trigger QueuedRight(st, x)} :: x in st && x !in but ==> QueuedRight(st, x))
  }

  ghost predicate Entries(st: State) {
    forall x {:trigger st[x]} :: x in st ==> WfEntry(st[x].e)
  }

  /** Nothing changed but queues and scheduling fields. */
  ghost predicate SameShape(st: State, st': State) {
    && st'.Keys == st.Keys
    && forall x {:trigger st'[x]} :: x in st ==>
         && st'[x].parent == st[x].parent && st'[x].kids == st[x].kids && st'[x].e.weight == st[x].e.weight
         && st'[x].item == st[x].item && st'[x].deferred == st[x].deferred
  }

  lemma SameTree(st: State, st': State)
    requires SameShape(st, st')
    ensures Tree(st') == Tree(st)
  {
    forall x | x in st
      ensures Tree(st')[x] == Tree(st)[x]
    {
      assert st'[x] == st'[x];
    }
    assert Tree(st').Keys == Tree(st).Keys;
  }

  // -------------------------------------------------------------------------- windows

  /** The queue of `p`. */
  ghost function QueueOf(st: State, p: Sid): Siblings
    requires p in st
  {
    Siblings(st[p].last, st[p].nextTurn, map k | k in st[p].obq && k in st :: st[k].e, st[p].obq)
  }

  /** The cycles in a queue are those of an exact queue in its window, and its heap is in heap order. */
  ghost predicate Fits(q: Siblings) {
    exists u :: SiblingRuns.Inv(u) && SiblingRuns.WrapAll(u) == q
  }

  lemma FitsWf(q: Siblings)
    requires Fits(q)
    ensures SiblingRuns.WfQueue(q)
  {
    var u :| SiblingRuns.Inv(u) && SiblingRuns.WrapAll(u) == q;
    SiblingRuns.WrapAllWf(u);
  }

  /** An empty queue is in order, whatever it has been through. */
  lemma EmptyFits(q: Siblings)
    requires q.entries == map[] && q.heap == [] && 0 <= q.last < WRAP
    ensures Fits(q)
  {
    assert SiblingRuns.Inv(q);
    assert SiblingRuns.WrapAll(q).entries == q.entries;
  }

  lemma EntriesWf(st: State, p: Sid)
    requires Entries(st) && p in st && HoldsKids(st, p)
    ensures SiblingRuns.WfQueue(QueueOf(st, p))
  {
    forall k {:trigger QueueOf(st, p).entries[k]} | k in QueueOf(st, p).entries
      ensures WfEntry(QueueOf(st, p).entries[k])
    {
      assert st[k] == st[k];
    }
  }

  /** Every event on a queue keeps its window. */
  lemma FitsStep(q: Siblings, ev: SiblingRuns.Event)
    requires Fits(q) && SiblingRuns.Legal(q, ev) && SiblingRuns.WfQueue(q)
    ensures Fits(SiblingRuns.Apply(Word, q, ev))
  {
    var u :| SiblingRuns.Inv(u) && SiblingRuns.WrapAll(u) == q;
    SiblingRuns.StepKeeps(u, ev);
    assert SiblingRuns.Keeps(u, ev);
  }

  // ---------------------------------------------------------------------- one queue at a time

  /** `stream_less` on streams. */
  function LessIn(st: State): (Sid, Sid) -> bool {
    (x, y) => x in st && y in st && Less(Word, st[x].e, st[y].e)
  }

  lemma LessAgrees(st: State, entries: map<Sid, Entry>, heap: seq<Sid>)
    requires forall k {:trigger k in heap} :: k in heap ==> k in st && k in entries && entries[k] == st[k].e
    ensures Pq.Agree(LessIn(st), SiblingRuns.Order(Word, entries), heap)
  {
  }

  /** The body of the loop of `stream_obq_push`. */
  function PushOne(st: State, p: Sid, s: Sid): State
    requires p in st && s in st && WfEntry(st[s].e)
  {
    var e := NextCycle(Word, st[s].e, st[p].last).(turn := st[p].nextTurn);
    var st := st[s := st[s].(e := e, queued := true)];
    st[p := st[p].(nextTurn := st[p].nextTurn + 1, obq := Pq.Pushed(LessIn(st), st[p].obq, s))]
  }

  lemma PushOneQueues(st: State, p: Sid, s: Sid, but: set<Sid>)
    requires Queues(st, but + {s}) && Entries(st) && p in st && s in st && p != s
    requires st[s].parent == At(p) && !st[s].queued && SubtreeActive(st[s])
    ensures var st' := PushOne(st, p, s);
            && SameShape(st, st') && Entries(st') && Queues(st', (but - {s}) + {p})
            && st'[s].queued && SubtreeActive(st'[p])
  {
    var st' := PushOne(st, p, s);
    forall x {:trigger HoldsKids(st', x)} | x in st'
      ensures HoldsKids(st', x)
    {
      assert HoldsKids(st, x);
    }
    forall x {:trigger IsHeld(st', x)} | x in st'
      ensures IsHeld(st', x)
    {
      assert IsHeld(st, x);
    }
    forall x {:trigger QueuedRight(st', x)} | x in st' && x !in (but - {s}) + {p}
      ensures QueuedRight(st', x)
    {
      assert x != s ==> QueuedRight(st, x);
    }
    assert s in st'[p].obq;
  }

  /** Every queue whose cycles were in the window still has them there. */
  ghost predicate KeepsWindows(st: State, st': State) {
    st'.Keys == st.Keys &&
    forall x {:trigger QueueOf(st', x)} :: x in st && Fits(QueueOf(st, x)) ==> Fits(QueueOf(st', x))
  }

  lemma QueueSame(st: State, st': State, x: Sid)
    requires x in st && x in st' && st'.Keys == st.Keys
    requires st'[x].last == st[x].last && st'[x].nextTurn == st[x].nextTurn && st'[x].obq == st[x].obq
    requires forall k {:trigger k in st[x].obq} :: k in st[x].obq && k in st ==> st'[k].e == st[k].e
    ensures QueueOf(st', x) == QueueOf(st, x)
  {
    assert QueueOf(st', x).entries == QueueOf(st, x).entries;
  }

  /** The heap of `p` sees the entries of its children only. */
  lemma PushedIn(st: State, entries: map<Sid, Entry>, heap: seq<Sid>, s: Sid)
    requires s in st && s in entries && entries[s] == st[s].e
    requires forall k {:trigger k in heap} :: k in heap ==> k in st && k in entries && entries[k] == st[k].e
    ensures Pq.Pushed(LessIn(st), heap, s) == Pq.Pushed(SiblingRuns.Order(Word, entries), heap, s)
  {
    LessAgrees(st, entries, heap + [s]);
    Pq.PushedSame(LessIn(st), SiblingRuns.Order(Word, entries), heap, s);
  }

  lemma RemovedIn(st: State, entries: map<Sid, Entry>, heap: seq<Sid>, s: Sid)
    requires forall k {:trigger k in heap} :: k in heap ==> k in st && k in entries && entries[k] == st[k].e
    ensures Pq.Removed(LessIn(st), heap, s) == Pq.Removed(SiblingRuns.Order(Word, entries), heap, s)
  {
    LessAgrees(st, entries, heap);
    Pq.RemovedSame(LessIn(st), SiblingRuns.Order(Word, entries), heap, s);
  }

  lemma PushOneEntries(st: State, p: Sid, s: Sid)
    requires p in st && s in st && p != s && WfEntry(st[s].e) && HoldsKids(st, p)
    ensures QueueOf(PushOne(st, p, s), p).entries ==
            QueueOf(st, p).entries[s := NextCycle(Word, st[s].e, st[p].last).(turn := st[p].nextTurn)]
  {
  }

  lemma PushOneQueue(st: State, p: Sid, s: Sid)
    requires p in st && s in st && p != s && WfEntry(st[s].e) && s !in st[p].obq && HoldsKids(st, p)
    requires SiblingRuns.WfQueue(QueueOf(st, p))
    ensures QueueOf(PushOne(st, p, s), p) == SiblingRuns.Apply(Word, QueueOf(st, p), SiblingRuns.Join(s, st[s].e))
  {
    var e := NextCycle(Word, st[s].e, st[p].last).(turn := st[p].nextTurn);
    PushOneEntries(st, p, s);
    PushedIn(st[s := st[s].(e := e, queued := true)], QueueOf(st, p).entries[s := e], st[p].obq, s);
  }

  lemma PushOneWindows(st: State, p: Sid, s: Sid, but: set<Sid>)
    requires Queues(st, but) && Entries(st) && p in st && s in st && p != s && !st[s].queued
    ensures KeepsWindows(st, PushOne(st, p, s))
  {
    var st' := PushOne(st, p, s);
    forall x {:trigger QueueOf(st', x)} | x in st && Fits(QueueOf(st, x))
      ensures Fits(QueueOf(st', x))
    {
      assert HoldsKids(st, x);
      if x == p {
        FitsWf(QueueOf(st, p));
        PushOneQueue(st, p, s);
        FitsStep(QueueOf(st, p), SiblingRuns.Join(s, st[s].e));
      } else {
        QueueSame(st, st', x);
      }
    }
  }

  /** The body of the loop of `stream_obq_remove`. */
  function RemoveOne(st: State, p: Sid, s: Sid): State
    requires p in st && s in st
  {
    var st := st[p := st[p].(obq := Pq.Removed(LessIn(st), st[p].obq, s))];
    st[s := st[s].(queued := false, last := 0, e := st[s].e.(cycle := 0, pending := 0, lastlen := 0))]
  }

  lemma RemoveOneHolds(st: State, p: Sid, s: Sid, but: set<Sid>, x: Sid)
    requires Queues(st, but) && p in st && s in st && p != s && st[s].parent == At(p) && x in st
    ensures HoldsKids(RemoveOne(st, p, s), x) && IsHeld(RemoveOne(st, p, s), x)
  {
    assert HoldsKids(st, p) && HoldsKids(st, x) && IsHeld(st, x);
  }

  lemma RemoveOneQueues(st: State, p: Sid, s: Sid, but: set<Sid>)
    requires Queues(st, but) && Entries(st) && p in st && s in st && p != s && p !in but
    requires st[s].parent == At(p) && st[s].queued
    ensures var st' := RemoveOne(st, p, s);
            && SameShape(st, st') && Entries(st') && Queues(st', but + {s, p}) && !st'[s].queued
            && SubtreeActive(st'[s]) == SubtreeActive(st[s])
            && (st'[p].parent.At? ==> st'[p].queued)
  {
    var st' := RemoveOne(st, p, s);
    assert IsHeld(st, s) && QueuedRight(st, p);
    forall x {:trigger HoldsKids(st', x)} {:trigger IsHeld(st', x)} | x in st'
      ensures HoldsKids(st', x) && IsHeld(st', x)
    {
      RemoveOneHolds(st, p, s, but, x);
    }
    forall x {:trigger QueuedRight(st', x)} | x in st' && x !in but + {s, p}
      ensures QueuedRight(st', x)
    {
      assert QueuedRight(st, x);
    }
  }

  lemma RemoveOneQueue(st: State, p: Sid, s: Sid)
    requires p in st && s in st && p != s && s in st[p].obq && HoldsKids(st, p)
    requires SiblingRuns.WfQueue(QueueOf(st, p))
    ensures QueueOf(RemoveOne(st, p, s), p) == SiblingRuns.Apply(Word, QueueOf(st, p), SiblingRuns.Leave(s))
  {
    assert QueueOf(RemoveOne(st, p, s), p).entries == QueueOf(st, p).entries - {s};
    RemovedIn(st, QueueOf(st, p).entries, st[p].obq, s);
  }

  /** A stream that leaves while its own queue is not empty is the exception: its last cycle is zeroed. */
  lemma RemoveOneWindows(st: State, p: Sid, s: Sid, but: set<Sid>, x: Sid)
    requires Queues(st, but) && Entries(st) && p in st && s in st && p != s && st[s].parent == At(p) && st[s].queued
    requires x in st && Fits(QueueOf(st, x)) && (x == s ==> st[s].obq == [])
    ensures Fits(QueueOf(RemoveOne(st, p, s), x))
  {
    var st' := RemoveOne(st, p, s);
    assert HoldsKids(st, x) && HoldsKids(st, p) && IsHeld(st, s);
    FitsWf(QueueOf(st, x));
    if x == p {
      RemoveOneQueue(st, p, s);
      FitsStep(QueueOf(st, p), SiblingRuns.Leave(s));
    } else if x == s {
      assert QueueOf(st, s).entries == map[] == QueueOf(st', s).entries;
      FitsStep(QueueOf(st, s), SiblingRuns.Idle);
      assert QueueOf(st', s) == SiblingRuns.Apply(Word, QueueOf(st, s), SiblingRuns.Idle);
    } else {
      QueueSame(st, st', x);
    }
  }

  // ------------------------------------------------------------------------- small facts

  lemma SomeMember(q: seq<Sid>)
    requires q != []
    ensures exists k :: k in q
  {
    assert q[0] in q;
  }

  lemma NoMembers(q: seq<Sid>)
    requires forall k {:trigger k in q} :: k !in q
    ensures q == []
  {
    if q != [] {
      SomeMember(q);
    }
  }

  lemma QueuesMono(st: State, a: set<Sid>, b: set<Sid>)
    requires Queues(st, a) && a <= b
    ensures Queues(st, b)
  {
  }

  /** A stream that turns out to be queued rightly is no exception. */
  lemma QueuesBut(st: State, but: set<Sid>, x: Sid)
    requires Queues(st, but + {x}) && (x in st ==> QueuedRight(st, x))
    ensures Queues(st, but - {x})
    ensures Queues(st, but)
  {
    forall y {:trigger QueuedRight(st, y)} | y in st && y !in but - {x}
      ensures QueuedRight(st, y)
    {
      assert y != x ==> y !in but + {x};
    }
  }

  lemma ShapeTrans(a: State, b: State, c: State)
    requires SameShape(a, b) && SameShape(b, c)
    ensures SameShape(a, c)
  {
    forall x {:trigger c[x]} | x in a
      ensures c[x].parent == a[x].parent && c[x].kids == a[x].kids && c[x].e.weight == a[x].e.weight
      ensures c[x].item == a[x].item && c[x].deferred == a[x].deferred
    {
      assert b[x] == b[x];
    }
  }

  lemma WindowsTrans(a: State, b: State, c: State)
    requires KeepsWindows(a, b) && KeepsWindows(b, c)
    ensures KeepsWindows(a, c)
  {
    forall x {:trigger QueueOf(c, x)} | x in a && Fits(QueueOf(a, x))
      ensures Fits(QueueOf(c, x))
    {
      assert QueueOf(b, x) == QueueOf(b, x);
    }
  }

  /** Nobody has been taken out of a queue. */
  ghost predicate Grown(st: State, st': State) {
    st'.Keys == st.Keys &&
    forall x {:trigger st'[x]} :: x in st ==> (st[x].queued ==> st'[x].queued)
  }

  /** The tree is well-formed. */
  ghost predicate TreeOk(st: State, rank: map<Sid, nat>) {
    Wf(Tree(st), rank)
  }

  /** Going from parent to parent comes to an end, even while a tree is being rearranged. */
  ghost predicate Climbs(st: State, rank: map<Sid, nat>) {
    forall x {:trigger st[x]} :: x in st && st[x].parent.At? ==>
      x in rank && st[x].parent.id in st && st[x].parent.id in rank && rank[st[x].parent.id] < rank[x]
  }

  lemma ParentOf(st: State, rank: map<Sid, nat>, s: Sid)
    requires TreeOk(st, rank) && s in st && st[s].parent.At?
    ensures st[s].parent.id in st && st[s].parent.id != s
    ensures s in rank && st[s].parent.id in rank && rank[st[s].parent.id] < rank[s]
  {
    assert ParentAgrees(Tree(st), s) && Tree(st)[s].parent == st[s].parent;
  }

  lemma TreeClimbs(st: State, rank: map<Sid, nat>)
    requires TreeOk(st, rank)
    ensures Climbs(st, rank)
  {
    forall x {:trigger st[x]} | x in st && st[x].parent.At?
      ensures x in rank && st[x].parent.id in st && st[x].parent.id in rank && rank[st[x].parent.id] < rank[x]
    {
      ParentOf(st, rank, x);
    }
  }

  lemma ClimbsSame(st: State, st': State, rank: map<Sid, nat>)
    requires Climbs(st, rank) && SameShape(st, st')
    ensures Climbs(st', rank)
  {
    forall x {:trigger st'[x]} | x in st' && st'[x].parent.At?
      ensures x in rank && st'[x].parent.id in st' && st'[x].parent.id in rank && rank[st'[x].parent.id] < rank[x]
    {
      assert st[x].parent == st'[x].parent;
    }
  }

  /** The parent of a queued stream is queued or a root, unless it is in `but`. */
  ghost predicate UpQueued(st: State, but: set<Sid>) {
    forall x {:trigger st[x]} :: x in st && st[x].queued && st[x].parent.At? && st[x].parent.id !in but ==>
      st[x].parent.id in st && (st[st[x].parent.id].queued || st[st[x].parent.id].parent.Null?)
  }

  lemma QueuesUp(st: State, but: set<Sid>)
    requires Queues(st, but)
    ensures UpQueued(st, but)
  {
    forall x {:trigger st[x]} | x in st && st[x].queued && st[x].parent.At? && st[x].parent.id !in but
      ensures st[x].parent.id in st && (st[st[x].parent.id].queued || st[st[x].parent.id].parent.Null?)
    {
      assert IsHeld(st, x) && QueuedRight(st, st[x].parent.id);
    }
  }

  lemma PushOneUp(st: State, p: Sid, s: Sid, but: set<Sid>)
    requires p in st && s in st && p != s && WfEntry(st[s].e) && st[s].parent == At(p) && UpQueued(st, but + {s})
    ensures UpQueued(PushOne(st, p, s), but + {p})
  {
    var st' := PushOne(st, p, s);
    forall x {:trigger st'[x]} | x in st' && st'[x].queued && st'[x].parent.At? && st'[x].parent.id !in but + {p}
      ensures st'[x].parent.id in st' && (st'[st'[x].parent.id].queued || st'[st'[x].parent.id].parent.Null?)
    {
      assert st[x].parent == st'[x].parent && st[x].queued;
    }
  }

  lemma PushOneGrows(st0: State, st: State, p: Sid, s: Sid)
    requires Grown(st0, st) && p in st && s in st && p != s && WfEntry(st[s].e)
    ensures Grown(st0, PushOne(st, p, s))
  {
    var st' := PushOne(st, p, s);
    forall x {:trigger st'[x]} | x in st0
      ensures st0[x].queued ==> st'[x].queued
    {
      assert st[x] == st[x];
    }
  }

  // ------------------------------------------------------------- what becomes of the entries

  /** `x` is in no queue, before and after, or stays in the queue it was in. */
  ghost predicate Stayed(st0: State, st: State, x: Sid)
    requires x in st0 && x in st
  {
    st[x].queued == st0[x].queued && (st[x].queued ==> st[x].parent == st0[x].parent)
  }

  /** `x` gets the cycle of a newcomer in the queue of its parent, and a new sequence number. */
  ghost predicate Joins(st0: State, st: State, x: Sid)
    requires x in st0 && x in st
  {
    && st[x].parent.At? && st[x].parent.id in st0 && st[x].parent.id in st
    && var p, e := st[x].parent.id, st0[x].e.(weight := st[x].e.weight);
    && WfEntry(e) && st[x].e == NextCycle(Word, e, st0[p].last).(turn := st[x].e.turn)
    && st0[p].nextTurn <= st[x].e.turn < st[p].nextTurn
  }

  function Cleared(e: Entry): Entry {
    e.(cycle := 0, pending := 0, lastlen := 0)
  }

  /** The scheduling fields of `x`: kept in the same queue, new in another, cleared outside of all. */
  ghost predicate Requeue(st0: State, st: State, x: Sid)
    requires x in st0 && x in st
  {
    && st[x].last == (if st0[x].queued && !st[x].queued then 0 else st0[x].last)
    && st0[x].nextTurn <= st[x].nextTurn
    && if Stayed(st0, st, x) then
         st[x].e == if st[x].queued then st0[x].e else st0[x].e.(weight := st[x].e.weight)
       else if st[x].queued then Joins(st0, st, x)
       else st[x].e == Cleared(st0[x].e).(weight := st[x].e.weight)
  }

  ghost predicate Requeued(st0: State, st: State) {
    st.Keys == st0.Keys && forall x {:trigger Requeue(st0, st, x)} :: x in st0 ==> Requeue(st0, st, x)
  }

  /** Nothing sent has still to be paid for. */
  ghost predicate Clear(e: Entry) {
    e.pending == 0 && e.lastlen == 0
  }

  /** Streams outside of all queues owe nothing, but for roots in `tops` that a reschedule has reached. */
  ghost predicate Settled(st: State, tops: set<Sid>) {
    forall x {:trigger st[x]} :: x in st && x !in tops && !st[x].queued ==> Clear(st[x].e)
  }

  lemma SettledRequeued(st0: State, st: State, tops: set<Sid>)
    requires Requeued(st0, st) && Settled(st0, tops)
    ensures Settled(st, tops)
  {
    forall x {:trigger st[x]} | x in st && x !in tops && !st[x].queued
      ensures Clear(st[x].e)
    {
      assert Requeue(st0, st, x) && st0[x] == st0[x];
    }
  }

  /** `x` has been queued with the last cycle of its parent, behind all that have their turn now. */
  ghost predicate JoinedAtLast(st0: State, st: State, x: Sid) {
    && x in st && st[x].queued && st[x].parent.At? && st[x].parent.id in st0
    && var p := st[x].parent.id;
    && st[x].e.cycle == st0[p].last % WRAP && st[x].e.pending == 0 && st0[p].nextTurn <= st[x].e.turn
    && (Fits(QueueOf(st0, p)) ==> st[x].e.cycle == st0[p].last)
  }

  /** A stream that owes nothing is queued at the last cycle, however much it sent before it left. */
  lemma FreshJoins(st0: State, st: State, tops: set<Sid>, x: Sid)
    requires Requeued(st0, st) && Settled(st0, tops) && x in st0 && x !in tops && !st0[x].queued && st[x].queued
    ensures JoinedAtLast(st0, st, x)
  {
    assert Requeue(st0, st, x) && st0[x] == st0[x];
    var p, e := st[x].parent.id, st0[x].e.(weight := st[x].e.weight);
    assert Penalty(e) == 0;
    assert 0 / e.weight == 0 && 0 % e.weight == 0;
    if Fits(QueueOf(st0, p)) {
      var u :| SiblingRuns.Inv(u) && SiblingRuns.WrapAll(u) == QueueOf(st0, p);
      assert st0[p].last == u.last % WRAP;
    }
  }

  /** Nothing that matters to the queues has changed. */
  ghost predicate SameFields(st0: State, st: State) {
    && st.Keys == st0.Keys
    && forall x {:trigger st[x]} :: x in st0 ==>
         && st[x].queued == st0[x].queued && st[x].e == st0[x].e && st[x].last == st0[x].last
         && st[x].nextTurn == st0[x].nextTurn && (st[x].queued ==> st[x].parent == st0[x].parent)
  }

  /** Nobody has been left without a queue. */
  ghost predicate NoLeaves(st0: State, st: State) {
    st.Keys == st0.Keys && forall x {:trigger st[x]} :: x in st0 && st0[x].queued ==> st[x].queued
  }

  lemma FieldsRequeued(st0: State, st: State)
    requires SameFields(st0, st)
    ensures Requeued(st0, st) && NoLeaves(st0, st)
  {
    forall x {:trigger Requeue(st0, st, x)} | x in st0
      ensures Requeue(st0, st, x)
    {
      assert st[x] == st[x];
    }
  }

  lemma FieldsBefore(a: State, b: State, c: State)
    requires SameFields(a, b) && Requeued(b, c)
    ensures Requeued(a, c)
  {
    forall x {:trigger Requeue(a, c, x)} | x in a
      ensures Requeue(a, c, x)
    {
      assert b[x] == b[x] && Requeue(b, c, x);
      if c[x].parent.At? && c[x].parent.id in b {
        assert b[c[x].parent.id] == b[c[x].parent.id];
      }
    }
  }

  lemma FieldsAfter(a: State, b: State, c: State)
    requires Requeued(a, b) && SameFields(b, c)
    ensures Requeued(a, c)
  {
    forall x {:trigger Requeue(a, c, x)} | x in a
      ensures Requeue(a, c, x)
    {
      assert c[x] == c[x] && Requeue(a, b, x);
      if c[x].parent.At? && c[x].parent.id in c {
        assert c[c[x].parent.id] == c[c[x].parent.id];
      }
    }
  }

  /** Two changes, no stream being concerned by both. */
  lemma RequeuedTrans(a: State, b: State, c: State)
    requires Requeued(a, b) && Requeued(b, c) && NoLeaves(a, b)
    requires forall x {:trigger Stayed(a, b, x)} :: x in a ==> Stayed(a, b, x) || Stayed(b, c, x)
    ensures Requeued(a, c)
  {
    forall x {:trigger Requeue(a, c, x)} | x in a
      ensures Requeue(a, c, x)
    {
      RequeueTrans(a, b, c, x);
    }
  }

  lemma RequeueTrans(a: State, b: State, c: State, x: Sid)
    requires Requeued(a, b) && Requeued(b, c) && NoLeaves(a, b) && x in a && (Stayed(a, b, x) || Stayed(b, c, x))
    ensures Requeue(a, c, x)
  {
    assert Requeue(a, b, x) && Requeue(b, c, x) && b[x] == b[x];
    if c[x].parent.At? && c[x].parent.id in a {
      assert Requeue(a, b, c[x].parent.id) && Requeue(b, c, c[x].parent.id) && b[c[x].parent.id] == b[c[x].parent.id];
    }
  }

  /** Queueing more streams concerns none that were queued before. */
  lemma RequeuedMore(a: State, b: State, c: State)
    requires Requeued(a, b) && Requeued(b, c) && NoLeaves(a, b) && NoLeaves(b, c) && SameShape(b, c)
    ensures Requeued(a, c)
  {
    forall x {:trigger Stayed(a, b, x)} | x in a
      ensures Stayed(a, b, x) || Stayed(b, c, x)
    {
      assert b[x] == b[x] && c[x] == c[x];
    }
    RequeuedTrans(a, b, c);
  }

  lemma PushOneRequeued(st0: State, st: State, p: Sid, s: Sid)
    requires Requeued(st0, st) && NoLeaves(st0, st) && p in st && s in st && p != s && WfEntry(st[s].e)
    requires !st[s].queued && st[s].parent == At(p)
    ensures Requeued(st0, PushOne(st, p, s)) && NoLeaves(st0, PushOne(st, p, s))
  {
    var st' := PushOne(st, p, s);
    assert Requeue(st0, st, p) && st[p] == st[p] && st[s] == st[s];
    forall x {:trigger Requeue(st0, st', x)} | x in st0
      ensures Requeue(st0, st', x)
    {
      assert Requeue(st0, st, x);
    }
    forall x {:trigger st'[x]} | x in st0 && st0[x].queued
      ensures st'[x].queued
    {
      assert st[x].queued;
    }
  }

  lemma RemoveOneRequeued(st0: State, st: State, p: Sid, s: Sid)
    requires Requeued(st0, st) && p in st && s in st && p != s
    requires st[s].queued && st0[s].queued && st[s].parent == st0[s].parent
    ensures Requeued(st0, RemoveOne(st, p, s))
  {
    var st' := RemoveOne(st, p, s);
    assert Requeue(st0, st, s);
    forall x {:trigger Requeue(st0, st', x)} | x in st0
      ensures Requeue(st0, st', x)
    {
      assert Requeue(st0, st, x);
      if st[x].parent.At? && st[x].parent.id in st0 {
        assert Requeue(st0, st, st[x].parent.id);
      }
    }
  }

  // ------------------------------------------------------------------------------ walks

  /** The state of the loop of `stream_obq_push`, which comes to stream `s`. */
  ghost predicate Pushing(st0: State, st: State, s0: Sid, s: Sid, rest: set<Sid>, up: set<Sid>, rank: map<Sid, nat>) {
    && s in st && s0 in st && SubtreeActive(st[s]) && (s == s0 || st[s0].queued)
    && SameShape(st0, st) && Climbs(st, rank) && Entries(st) && Queues(st, rest + {s})
    && KeepsWindows(st0, st) && UpQueued(st, up + {s}) && PushedUp(st0, st, s0, s, rank)
  }

  /** What has been queued on the way from `s0` to `s`. */
  ghost predicate PushedUp(st0: State, st: State, s0: Sid, s: Sid, rank: map<Sid, nat>) {
    Grown(st0, st) && Requeued(st0, st) && OnlyUp(st0, st, s0, rank) && OnWay(st0, s0, s, rank)
  }

  /** The parent of `s0` is neither queued nor a root. */
  ghost predicate OpenParent(st: State, s0: Sid)
    requires s0 in st
  {
    st[s0].parent.At? && st[s0].parent.id in st && !st[st[s0].parent.id].queued && st[st[s0].parent.id].parent.At?
  }

  /** Only `s0`, and if its parent was not queued that parent and streams above it, have been queued. */
  ghost predicate OnlyUp(st0: State, st: State, s0: Sid, rank: map<Sid, nat>) {
    st.Keys == st0.Keys && s0 in st0 &&
    forall x {:trigger st[x]} :: x in st0 && st[x].queued && !st0[x].queued && x != s0 ==>
      OpenParent(st0, s0) && st0[s0].parent.id in rank && x in rank && rank[x] <= rank[st0[s0].parent.id]
  }

  /** `s` is `s0`, its parent, or above that. */
  ghost predicate OnWay(st0: State, s0: Sid, s: Sid, rank: map<Sid, nat>) {
    s0 in st0 && s in st0 &&
    (s == s0 ||
     (st0[s0].parent.At? && st0[s0].parent.id in rank && s in rank &&
      (s == st0[s0].parent.id || (OpenParent(st0, s0) && rank[s] < rank[st0[s0].parent.id]))))
  }

  lemma PushOneUpward(st0: State, st: State, s0: Sid, s: Sid, p: Sid, rank: map<Sid, nat>)
    requires OnlyUp(st0, st, s0, rank) && OnWay(st0, s0, s, rank) && Grown(st0, st) && SameShape(st0, st) &&
             Climbs(st0, rank)
    requires s in st && p in st && p != s && st[s].parent == At(p) && !st[s].queued && WfEntry(st[s].e)
    ensures OnlyUp(st0, PushOne(st, p, s), s0, rank) && OnWay(st0, s0, p, rank)
  {
    var st' := PushOne(st, p, s);
    assert st[s] == st[s] && st0[s].parent == At(p) && !st0[s].queued;
    forall x {:trigger st'[x]} | x in st0 && st'[x].queued && !st0[x].queued && x != s0
      ensures OpenParent(st0, s0) && st0[s0].parent.id in rank && x in rank && rank[x] <= rank[st0[s0].parent.id]
    {
      assert x != s ==> st[x].queued;
    }
  }

  lemma PushStep(st0: State, st: State, s0: Sid, s: Sid, rest: set<Sid>, up: set<Sid>, rank: map<Sid, nat>)
    requires Pushing(st0, st, s0, s, rest, up, rank) && st[s].parent.At? && !st[s].queued && Climbs(st0, rank)
    ensures st[s].parent.id in st && s in rank && st[s].parent.id in rank && rank[st[s].parent.id] < rank[s]
    ensures Pushing(st0, PushOne(st, st[s].parent.id, s), s0, st[s].parent.id, rest, up, rank)
  {
    var p := st[s].parent.id;
    PushOneQueues(st, p, s, rest);
    PushOneWindows(st, p, s, rest + {s});
    PushOneUp(st, p, s, up);
    PushStepUp(st0, st, s0, s, p, rank);
    StillQueued(st, p, s, s0);
    PushingOn(st0, st, PushOne(st, p, s), s0, s, p, rest, up, rank);
  }

  lemma StillQueued(st: State, p: Sid, s: Sid, x: Sid)
    requires p in st && s in st && p != s && WfEntry(st[s].e) && x in st && (x == s || st[x].queued)
    ensures PushOne(st, p, s)[x].queued
  {
  }

  lemma PushingOn(st0: State, st: State, st': State, s0: Sid, s: Sid, p: Sid, rest: set<Sid>, up: set<Sid>,
                  rank: map<Sid, nat>)
    requires SameShape(st0, st) && Climbs(st, rank) && KeepsWindows(st0, st) && s0 in st && p in st
    requires SameShape(st, st') && Entries(st') && Queues(st', (rest - {s}) + {p}) && KeepsWindows(st, st')
    requires SubtreeActive(st'[p]) && st'[s0].queued && UpQueued(st', up + {p}) && PushedUp(st0, st', s0, p, rank)
    ensures Pushing(st0, st', s0, p, rest, up, rank)
  {
    ShapeTrans(st0, st, st');
    ClimbsSame(st, st', rank);
    WindowsTrans(st0, st, st');
    QueuesMono(st', (rest - {s}) + {p}, rest + {p});
  }

  lemma PushStepUp(st0: State, st: State, s0: Sid, s: Sid, p: Sid, rank: map<Sid, nat>)
    requires PushedUp(st0, st, s0, s, rank) && SameShape(st0, st) && Climbs(st0, rank)
    requires s in st && p in st && p != s && st[s].parent == At(p) && !st[s].queued && WfEntry(st[s].e)
    ensures PushedUp(st0, PushOne(st, p, s), s0, p, rank)
  {
    PushOneGrows(st0, st, p, s);
    PushOneRequeued(st0, st, p, s);
    PushOneUpward(st0, st, s0, s, p, rank);
  }

  /** `stream_obq_push`: queue `s0`, and the ancestors that are not queued yet. */
  method PushWalk(st0: State, s0: Sid, ghost but: set<Sid>, ghost up: set<Sid>, ghost rank: map<Sid, nat>)
    returns (st: State)
    requires Climbs(st0, rank) && Entries(st0) && Queues(st0, but + {s0}) && s0 in st0 && SubtreeActive(st0[s0])
    requires UpQueued(st0, up + {s0})
    ensures SameShape(st0, st) && Entries(st) && Queues(st, but) && KeepsWindows(st0, st) && Grown(st0, st)
    ensures UpQueued(st, up) && (st0[s0].parent.At? ==> st[s0].queued)
    ensures Requeued(st0, st) && OnlyUp(st0, st, s0, rank)
  {
    st := st0;
    FieldsRequeued(st0, st);
    var s, p := s0, st0[s0].parent;
    ghost var rest := but - {s0};
    assert but + {s0} == rest + {s0};
    while p.At? && !st[s].queued
      invariant Pushing(st0, st, s0, s, rest, up, rank) && p == st[s].parent
      decreases if s in rank then rank[s] else 0
    {
      PushStep(st0, st, s0, s, rest, up, rank);
      st := PushOne(st, p.id, s);
      s := p.id;
      p := st[s].parent;
    }
    QueuesBut(st, rest, s);
    QueuesMono(st, rest, but);
  }

  /** Like `KeepsWindows`, except for `s0` if it still has queued children. */
  ghost predicate KeepsWindowsBut(st: State, st': State, s0: Sid) {
    st'.Keys == st.Keys && s0 in st &&
    forall x {:trigger QueueOf(st', x)} ::
      x in st && Fits(QueueOf(st, x)) && (x == s0 ==> st[s0].obq == []) ==> Fits(QueueOf(st', x))
  }

  lemma RemoveOneKeeps(st0: State, st: State, p: Sid, s: Sid, s0: Sid, but: set<Sid>)
    requires KeepsWindowsBut(st0, st, s0) && Queues(st, but) && Entries(st) && p in st && s in st && p != s
    requires st[s].parent == At(p) && st[s].queued && s0 in st && (s == s0 ==> st[s0].obq == st0[s0].obq)
    requires s != s0 ==> st[s].obq == []
    ensures KeepsWindowsBut(st0, RemoveOne(st, p, s), s0)
  {
    var st' := RemoveOne(st, p, s);
    forall x {:trigger QueueOf(st', x)} | x in st0 && Fits(QueueOf(st0, x)) && (x == s0 ==> st0[s0].obq == [])
      ensures Fits(QueueOf(st', x))
    {
      assert QueueOf(st, x) == QueueOf(st, x);
      RemoveOneWindows(st, p, s, but, x);
    }
  }

  /**
    * `stream_obq_remove`: take `s0` out of its parent's queue, and every ancestor that is then
    * neither active nor has a queued child.
    */
  method RemoveWalk(st0: State, s0: Sid, ghost rank: map<Sid, nat>) returns (st: State)
    requires Climbs(st0, rank) && Entries(st0) && Queues(st0, {s0}) && s0 in st0
    ensures SameShape(st0, st) && Entries(st) && Queues(st, {s0}) && !st[s0].queued
    ensures st[s0].obq == st0[s0].obq && KeepsWindowsBut(st0, st, s0)
    ensures QueueOf(st, s0) == if st0[s0].queued then SiblingRuns.Zeroed(QueueOf(st0, s0)) else QueueOf(st0, s0)
    ensures Requeued(st0, st) && OnlyDown(st0, st, s0, rank)
  {
    st := st0;
    FieldsRequeued(st0, st);
    if !st[s0].queued {
      return;
    }
    assert IsHeld(st, s0);
    var s, p := s0, st[s0].parent;
    while p.At?
      invariant s in st && p == st[s].parent && (p.At? ==> st[s].queued) && s in rank && s0 in rank &&
                rank[s] <= rank[s0]
      invariant SameShape(st0, st) && Climbs(st, rank) && Entries(st) && Queues(st, {s0, s})
      invariant s == s0 || (!SubtreeActive(st[s]) && !st[s0].queued)
      invariant st[s0].obq == st0[s0].obq && KeepsWindowsBut(st0, st, s0)
      invariant s == s0 ==> st == st0
      invariant Requeued(st0, st) && OnlyDown(st0, st, s0, rank)
      invariant s != s0 ==> QueueOf(st, s0) == SiblingRuns.Zeroed(QueueOf(st0, s0))
      decreases rank[s]
    {
      RemoveOneFrom(st, p.id, s, s0, {s0, s});
      RemoveOneQueues(st, p.id, s, {s0, s});
      RemoveOneKeeps(st0, st, p.id, s, s0, {s0, s});
      RemoveOneDown(st0, st, p.id, s, s0, rank);
      ghost var st1 := st;
      st := RemoveOne(st, p.id, s);
      ShapeTrans(st0, st1, st);
      ClimbsSame(st1, st, rank);
      QueuesRemoved(st, s0, s, p.id);
      if SubtreeActive(st[p.id]) {
        QueuesBut(st, {s0}, p.id);
        return;
      }
      s := p.id;
      p := st[s].parent;
    }
    QueuesBut(st, {s0}, s);
  }

  /** Nobody has been queued, and only `s0` and streams above it have left their queues. */
  ghost predicate OnlyDown(st0: State, st: State, s0: Sid, rank: map<Sid, nat>) {
    st.Keys == st0.Keys &&
    forall x {:trigger st[x]} :: x in st0 ==>
      && (st[x].queued ==> st0[x].queued)
      && (st0[x].queued && !st[x].queued ==> x in rank && s0 in rank && rank[x] <= rank[s0])
  }

  lemma RemoveOneDown(st0: State, st: State, p: Sid, s: Sid, s0: Sid, rank: map<Sid, nat>)
    requires Requeued(st0, st) && OnlyDown(st0, st, s0, rank) && SameShape(st0, st)
    requires p in st && s in st && p != s && st[s].queued && s in rank && s0 in rank && rank[s] <= rank[s0]
    ensures Requeued(st0, RemoveOne(st, p, s)) && OnlyDown(st0, RemoveOne(st, p, s), s0, rank)
  {
    var st' := RemoveOne(st, p, s);
    assert st[s] == st[s];
    RemoveOneRequeued(st0, st, p, s);
    forall x {:trigger st'[x]} | x in st0
      ensures st'[x].queued ==> st0[x].queued
      ensures st0[x].queued && !st'[x].queued ==> x in rank && s0 in rank && rank[x] <= rank[s0]
    {
      assert st[x] == st[x];
    }
  }

  /** What happens to the queue of `s0` when it, or an ancestor of it, leaves. */
  lemma RemoveOneFrom(st: State, p: Sid, s: Sid, s0: Sid, but: set<Sid>)
    requires Queues(st, but) && p in st && s in st && s0 in st && p != s && p != s0 && st[s].parent == At(p)
    ensures QueueOf(RemoveOne(st, p, s), s0) ==
            if s == s0 then SiblingRuns.Zeroed(QueueOf(st, s0)) else QueueOf(st, s0)
  {
    assert HoldsKids(st, s0);
    if s == s0 {
      assert QueueOf(RemoveOne(st, p, s), s0).entries == QueueOf(st, s0).entries;
    } else {
      assert s !in st[s0].obq;
      QueueSame(st, RemoveOne(st, p, s), s0);
    }
  }

  lemma QueuesRemoved(st: State, s0: Sid, s: Sid, p: Sid)
    requires s in st && Queues(st, {s0, s} + {s, p}) && !st[s].queued && (s == s0 || !SubtreeActive(st[s]))
    ensures Queues(st, {s0, p})
  {
    if s != s0 {
      assert {s0, s} + {s, p} == {s0, p} + {s};
      QueuesBut(st, {s0, p}, s);
    } else {
      assert {s0, s} + {s, p} == {s0, p};
    }
  }
}
