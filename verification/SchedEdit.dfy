/**
  * Moving streams in the dependency tree together with their places in the queues, as the `dep_*`
  * functions of lib/nghttp2_stream.c do.
  */
module SchedEdit {
  import opened DepForest
  import opened VirtualTime
  import opened SchedState
  import SiblingRuns
  import Pq

  // ----------------------------------------------------------------------- one stream

  /** `nghttp2_pq_remove` in `stream_obq_move`: the stream keeps its scheduling fields. */
  function Unqueue(st: State, p: Sid, k: Sid): State
    requires p in st && k in st
  {
    var st := st[p := st[p].(obq := Pq.Removed(LessIn(st), st[p].obq, k))];
    st[k := st[k].(queued := false)]
  }

  lemma UnqueueQueues(st: State, p: Sid, k: Sid, but: set<Sid>)
    requires Queues(st, but) && Entries(st) && p in but && p in st && k in st && p != k && st[k].parent == At(p)
    ensures var st' := Unqueue(st, p, k); SameShape(st, st') && Entries(st') && Queues(st', but + {k})
  {
    var st' := Unqueue(st, p, k);
    assert HoldsKids(st, p);
    forall x {:trigger HoldsKids(st', x)} | x in st'
      ensures HoldsKids(st', x)
    {
      assert HoldsKids(st, x);
    }
    forall x {:trigger IsHeld(st', x)} | x in st'
      ensures IsHeld(st', x)
    {
      assert IsHeld(st, x);
    }
    forall x {:trigger QueuedRight(st', x)} | x in st' && x !in but + {k}
      ensures QueuedRight(st', x)
    {
      assert QueuedRight(st, x);
    }
  }

  lemma UnqueueUp(st: State, p: Sid, k: Sid, up: set<Sid>)
    requires p in st && k in st && p != k && UpQueued(st, up)
    ensures UpQueued(Unqueue(st, p, k), up + {k})
  {
    var st' := Unqueue(st, p, k);
    forall x {:trigger st'[x]} | x in st' && st'[x].queued && st'[x].parent.At? && st'[x].parent.id !in up + {k}
      ensures st'[x].parent.id in st' && (st'[st'[x].parent.id].queued || st'[st'[x].parent.id].parent.Null?)
    {
      assert st[x].parent == st'[x].parent && st[x].queued;
    }
  }

  lemma UnqueueQueue(st: State, p: Sid, k: Sid)
    requires p in st && k in st && p != k && k in st[p].obq && HoldsKids(st, p)
    requires SiblingRuns.WfQueue(QueueOf(st, p))
    ensures QueueOf(Unqueue(st, p, k), p) == SiblingRuns.Apply(Word, QueueOf(st, p), SiblingRuns.Leave(k))
  {
    assert QueueOf(Unqueue(st, p, k), p).entries == QueueOf(st, p).entries - {k};
    RemovedIn(st, QueueOf(st, p).entries, st[p].obq, k);
  }

  lemma UnqueueWindows(st: State, p: Sid, k: Sid, but: set<Sid>)
    requires Queues(st, but) && Entries(st) && p in st && k in st && p != k && st[k].queued && st[k].parent == At(p)
    ensures KeepsWindows(st, Unqueue(st, p, k))
  {
    var st' := Unqueue(st, p, k);
    forall x {:trigger QueueOf(st', x)} | x in st && Fits(QueueOf(st, x))
      ensures Fits(QueueOf(st', x))
    {
      assert HoldsKids(st, x) && IsHeld(st, k);
      if x == p {
        FitsWf(QueueOf(st, p));
        UnqueueQueue(st, p, k);
        FitsStep(QueueOf(st, p), SiblingRuns.Leave(k));
      } else {
        QueueSame(st, st', x);
      }
    }
  }

  /** A stream outside all queues gets another parent and weight. */
  function Rehomed(st: State, k: Sid, parent: Ptr, weight: nat): State
    requires k in st
  {
    st[k := st[k].(parent := parent, e := st[k].e.(weight := weight))]
  }

  lemma RehomedQueues(st: State, k: Sid, parent: Ptr, weight: nat, but: set<Sid>)
    requires Queues(st, but) && Entries(st) && k in st && !st[k].queued && 1 <= weight <= MAX_WEIGHT
    ensures var st' := Rehomed(st, k, parent, weight);
            Entries(st') && Queues(st', but + {k}) && KeepsWindows(st, st')
  {
    var st' := Rehomed(st, k, parent, weight);
    forall x {:trigger HoldsKids(st', x)} | x in st'
      ensures HoldsKids(st', x)
    {
      assert HoldsKids(st, x);
    }
    forall x {:trigger IsHeld(st', x)} | x in st'
      ensures IsHeld(st', x)
    {
      assert IsHeld(st, x);
    }
    forall x {:trigger QueuedRight(st', x)} | x in st' && x !in but + {k}
      ensures QueuedRight(st', x)
    {
      assert QueuedRight(st, x);
    }
    forall x {:trigger QueueOf(st', x)} | x in st && Fits(QueueOf(st, x))
      ensures Fits(QueueOf(st', x))
    {
      assert HoldsKids(st, x);
      QueueSame(st, st', x);
    }
  }

  lemma RehomedUp(st: State, k: Sid, parent: Ptr, weight: nat, up: set<Sid>)
    requires k in st && !st[k].queued && UpQueued(st, up) && (k in up || st[k].parent.At?)
    ensures UpQueued(Rehomed(st, k, parent, weight), up)
  {
    var st' := Rehomed(st, k, parent, weight);
    forall x {:trigger st'[x]} | x in st' && st'[x].queued && st'[x].parent.At? && st'[x].parent.id !in up
      ensures st'[x].parent.id in st' && (st'[st'[x].parent.id].queued || st'[st'[x].parent.id].parent.Null?)
    {
      assert st[x].parent == st'[x].parent && st[x].queued;
    }
  }

  lemma RehomedClimbs(st: State, k: Sid, q: Sid, weight: nat, rank: map<Sid, nat>)
    requires Climbs(st, rank) && k in st && q in st && k in rank && q in rank && rank[q] < rank[k]
    ensures Climbs(Rehomed(st, k, At(q), weight), rank)
  {
    var st' := Rehomed(st, k, At(q), weight);
    forall x {:trigger st'[x]} | x in st' && st'[x].parent.At?
      ensures x in rank && st'[x].parent.id in st' && st'[x].parent.id in rank && rank[st'[x].parent.id] < rank[x]
    {
      assert x != k ==> st[x].parent == st'[x].parent;
    }
  }

  // ---------------------------------------------------------------------- with its queue

  /** A state in which the streams of `but` may be queued wrongly, and the tree may be in disorder. */
  ghost predicate Editing(st: State, but: set<Sid>, up: set<Sid>, rank: map<Sid, nat>) {
    Entries(st) && Climbs(st, rank) && Queues(st, but) && UpQueued(st, up)
  }

  /** A queued child of `p` is taken out of the queue and moved to `q`. */
  lemma TakenOver(st: State, p: Sid, q: Sid, k: Sid, weight: nat, but: set<Sid>, up: set<Sid>, rank: map<Sid, nat>)
    requires Editing(st, but, up, rank) && p in but && k !in but && p in st && q in st && k in st && st[k].queued
    requires st[k].parent == At(p) && p != k && q != k && 1 <= weight <= MAX_WEIGHT
    requires k in rank && q in rank && rank[q] < rank[k]
    ensures var st' := Rehomed(Unqueue(st, p, k), k, At(q), weight);
            && Entries(st') && Climbs(st', rank) && Queues(st', but + {k}) && UpQueued(st', up + {k})
            && KeepsWindows(st, st') && SubtreeActive(st'[k])
  {
    var st1 := Unqueue(st, p, k);
    assert QueuedRight(st, k);
    UnqueueQueues(st, p, k, but);
    UnqueueUp(st, p, k, up);
    UnqueueWindows(st, p, k, but);
    ClimbsSame(st, st1, rank);
    RehomedQueues(st1, k, At(q), weight, but + {k});
    RehomedUp(st1, k, At(q), weight, up + {k});
    RehomedClimbs(st1, k, q, weight, rank);
    assert but + {k} + {k} == but + {k};
    WindowsTrans(st, st1, Rehomed(st1, k, At(q), weight));
  }

  /** A child of `p` that is not queued is moved to `q`. */
  lemma MovedIdle(st: State, p: Sid, q: Sid, k: Sid, weight: nat, but: set<Sid>, up: set<Sid>, rank: map<Sid, nat>)
    requires Editing(st, but, up, rank) && k !in but && p in st && q in st && k in st && !st[k].queued
    requires st[k].parent == At(p) && q != k && 1 <= weight <= MAX_WEIGHT
    requires k in rank && q in rank && rank[q] < rank[k]
    ensures var st' := Rehomed(st, k, At(q), weight); Editing(st', but, up, rank) && KeepsWindows(st, st')
  {
    assert QueuedRight(st, k);
    RehomedQueues(st, k, At(q), weight, but);
    RehomedUp(st, k, At(q), weight, up);
    RehomedClimbs(st, k, q, weight, rank);
    QueuesBut(Rehomed(st, k, At(q), weight), but, k);
  }

  /** If anybody has been queued, then only `q`, which was neither queued nor a root, and streams above it. */
  ghost predicate OnlyAbove(st0: State, st: State, q: Sid, rank: map<Sid, nat>) {
    st.Keys == st0.Keys && q in st0 &&
    forall x {:trigger st[x]} :: x in st0 && st[x].queued && !st0[x].queued ==>
      !st0[q].queued && st0[q].parent.At? && q in rank && x in rank && rank[x] <= rank[q]
  }

  /** What the move of a queued child does to the entries. */
  lemma MovedRequeued(st0: State, p: Sid, q: Sid, k: Sid, weight: nat, st: State, rank: map<Sid, nat>)
    requires p in st0 && q in st0 && k in st0 && p != k && q != k && p != q && st0[k].queued && st0[k].parent == At(p)
    requires var st1 := Rehomed(Unqueue(st0, p, k), k, At(q), weight);
             Requeued(st1, st) && SameShape(st1, st) && Grown(st1, st) && OnlyUp(st1, st, k, rank)
    requires k in st && st[k].queued
    ensures Requeued(st0, st) && OnlyAbove(st0, st, q, rank)
  {
    var st1 := Rehomed(Unqueue(st0, p, k), k, At(q), weight);
    forall x {:trigger Requeue(st0, st, x)} | x in st0
      ensures Requeue(st0, st, x)
    {
      assert Requeue(st1, st, x) && st[x] == st[x];
    }
    forall x {:trigger st[x]} | x in st0 && st[x].queued && !st0[x].queued
      ensures !st0[q].queued && st0[q].parent.At? && q in rank && x in rank && rank[x] <= rank[q]
    {
      assert x != k && OpenParent(st1, k);
    }
  }

  lemma IdleRequeued(st0: State, q: Sid, k: Sid, weight: nat, rank: map<Sid, nat>)
    requires k in st0 && q in st0 && !st0[k].queued
    ensures Requeued(st0, Rehomed(st0, k, At(q), weight)) && OnlyAbove(st0, Rehomed(st0, k, At(q), weight), q, rank)
  {
    var st := Rehomed(st0, k, At(q), weight);
    forall x {:trigger Requeue(st0, st, x)} | x in st0
      ensures Requeue(st0, st, x)
    {
      assert x != k ==> st[x] == st0[x];
    }
  }

  /** A child of `p` moves to `q`, and with it its place in the queue. */
  method MoveKid(st0: State, p: Sid, q: Sid, k: Sid, weight: nat, ghost but: set<Sid>, ghost up: set<Sid>,
                 ghost rank: map<Sid, nat>)
    returns (st: State)
    requires Editing(st0, but, up, rank) && p in but && k !in but && p in st0 && q in st0 && k in st0
    requires st0[k].parent == At(p) && p != k && q != k && p != q && 1 <= weight <= MAX_WEIGHT
    requires k in rank && q in rank && rank[q] < rank[k]
    ensures Editing(st, but, up, rank) && KeepsWindows(st0, st)
    ensures Requeued(st0, st) && OnlyAbove(st0, st, q, rank)
    ensures SameShape(Rehomed(st0, k, At(q), weight), st)
    ensures st0[k].queued ==> st[k].queued
    ensures forall x {:trigger st[x]} :: x in st0 && st0[x].queued ==> st[x].queued
    ensures !st0[k].queued ==> st == Rehomed(st0, k, At(q), weight)
  {
    if st0[k].queued {
      TakenOver(st0, p, q, k, weight, but, up, rank);
      ghost var st1 := Rehomed(Unqueue(st0, p, k), k, At(q), weight);
      st := PushWalk(Rehomed(Unqueue(st0, p, k), k, At(q), weight), k, but, up, rank);
      WindowsTrans(st0, st1, st);
      ClimbsSame(st1, st, rank);
      MovedShape(st0, p, q, k, weight, st);
      MovedRequeued(st0, p, q, k, weight, st, rank);
    } else {
      MovedIdle(st0, p, q, k, weight, but, up, rank);
      IdleRequeued(st0, q, k, weight, rank);
      st := Rehomed(st0, k, At(q), weight);
    }
  }

  lemma MovedShape(st0: State, p: Sid, q: Sid, k: Sid, weight: nat, st: State)
    requires p in st0 && k in st0 && p != k
    requires SameShape(Rehomed(Unqueue(st0, p, k), k, At(q), weight), st)
    requires Grown(Rehomed(Unqueue(st0, p, k), k, At(q), weight), st) && k in st && st[k].queued
    ensures SameShape(Rehomed(st0, k, At(q), weight), st)
    ensures forall x {:trigger st[x]} :: x in st0 && st0[x].queued ==> st[x].queued
  {
    var st1 := Rehomed(Unqueue(st0, p, k), k, At(q), weight);
    forall x {:trigger st[x]} | x in st0 && st0[x].queued
      ensures st[x].queued
    {
      assert x != k ==> st1[x].queued;
    }
  }

  // -------------------------------------------------------------------------- all children

  /** The weight of a moved child: its own, or its share of `give`. */
  function Share(give: nat, sum: nat, w: nat): nat
    requires give > 0 ==> sum > 0
  {
    if give == 0 then w else Distributed(give, w, sum)
  }

  ghost function AllMoved(st: State, ks: seq<Sid>, q: Sid, give: nat, sum: nat): State
    requires give > 0 && ks != [] ==> sum > 0
  {
    map x | x in st ::
      if x in ks then st[x].(parent := At(q), e := st[x].e.(weight := Share(give, sum, st[x].e.weight))) else st[x]
  }

  /** `k` is a child of `p` that can be moved to `q`. */
  ghost predicate Movable(st: State, p: Sid, q: Sid, k: Sid, give: nat, sum: nat, but: set<Sid>, rank: map<Sid, nat>) {
    && k in st && st[k].parent == At(p) && k != p && k != q && k !in but
    && k in rank && q in rank && rank[q] < rank[k]
    && (give > 0 ==> sum > 0) && 1 <= Share(give, sum, st[k].e.weight) <= MAX_WEIGHT
  }

  /** The children `ks` have been moved. */
  ghost predicate HaveMoved(st0: State, st: State, ks: seq<Sid>, q: Sid, give: nat, sum: nat)
    requires give > 0 && ks != [] ==> sum > 0
  {
    && SameShape(AllMoved(st0, ks, q, give, sum), st)
    && (forall x {:trigger st[x]} :: x in st0 && st0[x].queued ==> st[x].queued)
    && ((forall k :: k in ks && k in st0 ==> !st0[k].queued) ==> st == AllMoved(st0, ks, q, give, sum))
  }

  lemma AllMovedStep(st: State, ks: seq<Sid>, k: Sid, q: Sid, give: nat, sum: nat)
    requires (give > 0 ==> sum > 0) && k in st && k !in ks
    ensures k in AllMoved(st, ks, q, give, sum)
    ensures AllMoved(st, ks + [k], q, give, sum) ==
            Rehomed(AllMoved(st, ks, q, give, sum), k, At(q), Share(give, sum, st[k].e.weight))
  {
  }

  lemma ShapeRehomed(m: State, st: State, st': State, k: Sid, q: Sid, weight: nat)
    requires SameShape(m, st) && k in st && k in m && SameShape(Rehomed(st, k, At(q), weight), st')
    ensures SameShape(Rehomed(m, k, At(q), weight), st')
  {
    var n, n' := Rehomed(st, k, At(q), weight), Rehomed(m, k, At(q), weight);
    forall x {:trigger st'[x]} | x in n'
      ensures st'[x].parent == n'[x].parent && st'[x].kids == n'[x].kids && st'[x].e.weight == n'[x].e.weight
      ensures st'[x].item == n'[x].item && st'[x].deferred == n'[x].deferred
    {
      assert st[x].parent == m[x].parent && n[x].kids == st[x].kids;
    }
  }

  lemma MovedOneMore(st0: State, st: State, st': State, ks: seq<Sid>, k: Sid, q: Sid, give: nat, sum: nat)
    requires (give > 0 ==> sum > 0) && k in st0 && k in st && k !in ks
    requires HaveMoved(st0, st, ks, q, give, sum)
    requires var weight := Share(give, sum, st0[k].e.weight);
             && SameShape(Rehomed(st, k, At(q), weight), st')
             && (!st[k].queued ==> st' == Rehomed(st, k, At(q), weight))
    requires forall x {:trigger st'[x]} :: x in st && st[x].queued ==> st'[x].queued
    ensures HaveMoved(st0, st', ks + [k], q, give, sum)
  {
    var m := AllMoved(st0, ks, q, give, sum);
    AllMovedStep(st0, ks, k, q, give, sum);
    ShapeRehomed(m, st, st', k, q, Share(give, sum, st0[k].e.weight));
    forall x {:trigger st'[x]} | x in st0 && st0[x].queued
      ensures st'[x].queued
    {
      assert st[x].queued;
    }
    if forall j :: j in ks + [k] && j in st0 ==> !st0[j].queued {
      assert forall j :: j in ks ==> j in ks + [k];
      assert st == m && k in ks + [k];
    }
  }

  /** The state of the loop over the children, of which `ks` have been moved. */
  ghost predicate Moving(st0: State, st: State, ks: seq<Sid>, q: Sid, give: nat, sum: nat,
                         but: set<Sid>, up: set<Sid>, rank: map<Sid, nat>)
  {
    && (give > 0 && ks != [] ==> sum > 0) && q !in ks
    && Editing(st, but, up, rank) && KeepsWindows(st0, st) && HaveMoved(st0, st, ks, q, give, sum)
    && Requeued(st0, st) && OnlyAbove(st0, st, q, rank)
  }

  lemma MovingStep(st0: State, st1: State, st: State, ks: seq<Sid>, k: Sid, p: Sid, q: Sid, give: nat, sum: nat,
                   but: set<Sid>, up: set<Sid>, rank: map<Sid, nat>)
    requires Moving(st0, st1, ks, q, give, sum, but, up, rank) && q in st0 && k !in ks
    requires Movable(st0, p, q, k, give, sum, but, rank) && k in st1
    requires Editing(st, but, up, rank) && KeepsWindows(st1, st) && Requeued(st1, st) && OnlyAbove(st1, st, q, rank)
    requires var weight := Share(give, sum, st1[k].e.weight);
             && SameShape(Rehomed(st1, k, At(q), weight), st)
             && (!st1[k].queued ==> st == Rehomed(st1, k, At(q), weight))
    requires forall x {:trigger st[x]} :: x in st1 && st1[x].queued ==> st[x].queued
    ensures Moving(st0, st, ks + [k], q, give, sum, but, up, rank)
  {
    NotMovedYet(st0, st1, ks, k, q, give, sum);
    NotMovedYet(st0, st1, ks, q, q, give, sum);
    MovedOneMore(st0, st1, st, ks, k, q, give, sum);
    RequeuedOneMore(st0, st1, st, k, q, Share(give, sum, st1[k].e.weight), rank);
    WindowsTrans(st0, st1, st);
  }

  /** The loops over the children in `nghttp2_stream_dep_insert`, `_dep_insert_subtree` and `_dep_remove`. */
  method MoveKids(st0: State, p: Sid, q: Sid, ks: seq<Sid>, give: nat, sum: nat,
                  ghost but: set<Sid>, ghost up: set<Sid>, ghost rank: map<Sid, nat>)
    returns (st: State)
    requires Editing(st0, but, up, rank) && p in but && p in st0 && q in st0 && p != q && Distinct(ks)
    requires forall i {:trigger ks[i]} :: 0 <= i < |ks| ==> Movable(st0, p, q, ks[i], give, sum, but, rank)
    requires give > 0 && ks != [] ==> sum > 0
    ensures Editing(st, but, up, rank) && KeepsWindows(st0, st) && HaveMoved(st0, st, ks, q, give, sum)
    ensures Requeued(st0, st) && OnlyAbove(st0, st, q, rank)
  {
    st := st0;
    FieldsRequeued(st0, st);
    var i := 0;
    ghost var done := [];
    assert AllMoved(st0, [], q, give, sum) == st0;
    while i < |ks|
      invariant 0 <= i <= |ks| && done == ks[..i]
      invariant Moving(st0, st, done, q, give, sum, but, up, rank)
    {
      var k := ks[i];
      assert Movable(st0, p, q, k, give, sum, but, rank) && k !in done;
      NotMovedYet(st0, st, done, k, q, give, sum);
      ghost var st1 := st;
      st := MoveKid(st, p, q, k, Share(give, sum, st[k].e.weight), but, up, rank);
      MovingStep(st0, st1, st, done, k, p, q, give, sum, but, up, rank);
      TakeOneMore(ks, i);
      done := done + [k];
      i := i + 1;
    }
    assert ks[..i] == ks;
  }

  lemma RequeuedOneMore(st0: State, st1: State, st: State, k: Sid, q: Sid, weight: nat, rank: map<Sid, nat>)
    requires Requeued(st0, st1) && Requeued(st1, st) && NoLeaves(st0, st1) && NoLeaves(st1, st)
    requires OnlyAbove(st0, st1, q, rank) && OnlyAbove(st1, st, q, rank)
    requires k in st0 && k in st1 && q in st1 && SameShape(Rehomed(st1, k, At(q), weight), st)
    requires st1[k].parent == st0[k].parent && st1[q].parent == st0[q].parent && k in rank && q in rank &&
             rank[q] < rank[k]
    ensures Requeued(st0, st) && OnlyAbove(st0, st, q, rank)
  {
    forall x {:trigger Stayed(st0, st1, x)} | x in st0
      ensures Stayed(st0, st1, x) || Stayed(st1, st, x)
    {
      assert st1[x] == st1[x] && st[x] == st[x];
    }
    RequeuedTrans(st0, st1, st);
    forall x {:trigger st[x]} | x in st0 && st[x].queued && !st0[x].queued
      ensures !st0[q].queued && st0[q].parent.At? && q in rank && x in rank && rank[x] <= rank[q]
    {
      assert st1[x] == st1[x] && st1[q] == st1[q];
    }
  }

  lemma TakeOneMore(ks: seq<Sid>, i: nat)
    requires i < |ks|
    ensures ks[..i + 1] == ks[..i] + [ks[i]]
  {
  }

  lemma NotMovedYet(st0: State, st: State, ks: seq<Sid>, k: Sid, q: Sid, give: nat, sum: nat)
    requires (give > 0 && ks != [] ==> sum > 0) && HaveMoved(st0, st, ks, q, give, sum) && k in st0 && k !in ks
    ensures k in st && st[k].parent == st0[k].parent && st[k].e.weight == st0[k].e.weight && st.Keys == st0.Keys
  {
    assert AllMoved(st0, ks, q, give, sum)[k] == st0[k];
    assert AllMoved(st0, ks, q, give, sum).Keys == st0.Keys;
  }
}
