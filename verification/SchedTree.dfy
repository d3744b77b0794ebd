/**
  * The `dep_*` operations of lib/nghttp2_stream.c on the tree and the queues together.
  */
module SchedTree {
  import opened DepForest
  import opened VirtualTime
  import opened SchedState
  import opened SchedEdit
  import SiblingRuns

  function WithKids(st: State, x: Sid, kids: seq<Sid>): State
    requires x in st
  {
    st[x := st[x].(kids := kids)]
  }

  /** Lists of children do not matter to the queues. */
  lemma KidsQueues(st: State, x: Sid, kids: seq<Sid>, but: set<Sid>, up: set<Sid>)
    requires x in st && Queues(st, but) && Entries(st) && UpQueued(st, up)
    ensures var st' := WithKids(st, x, kids);
            Queues(st', but) && Entries(st') && UpQueued(st', up) && KeepsWindows(st, st')
  {
    var st' := WithKids(st, x, kids);
    forall y {:trigger HoldsKids(st', y)} | y in st'
      ensures HoldsKids(st', y)
    {
      assert HoldsKids(st, y);
    }
    forall y {:trigger IsHeld(st', y)} | y in st'
      ensures IsHeld(st', y)
    {
      assert IsHeld(st, y);
    }
    forall y {:trigger QueuedRight(st', y)} | y in st' && y !in but
      ensures QueuedRight(st', y)
    {
      assert QueuedRight(st, y);
    }
    forall y {:trigger st'[y]} | y in st' && st'[y].queued && st'[y].parent.At? && st'[y].parent.id !in up
      ensures st'[y].parent.id in st' && (st'[st'[y].parent.id].queued || st'[st'[y].parent.id].parent.Null?)
    {
      assert st[y].parent == st'[y].parent && st[y].queued;
    }
    forall y {:trigger QueueOf(st', y)} | y in st && Fits(QueueOf(st, y))
      ensures Fits(QueueOf(st', y))
    {
      QueueSame(st, st', y);
    }
  }

  lemma KidsFields(st: State, x: Sid, kids: seq<Sid>)
    requires x in st
    ensures SameFields(st, WithKids(st, x, kids))
  {
  }

  lemma RehomedFields(st: State, k: Sid, parent: Ptr)
    requires k in st && (!st[k].queued || st[k].parent == parent)
    ensures SameFields(st, Rehomed(st, k, parent, st[k].e.weight))
  {
  }

  lemma FieldsTrans(a: State, b: State, c: State)
    requires SameFields(a, b) && SameFields(b, c)
    ensures SameFields(a, c)
  {
    forall x {:trigger c[x]} | x in a
      ensures c[x].queued == a[x].queued && c[x].e == a[x].e && c[x].last == a[x].last
      ensures c[x].nextTurn == a[x].nextTurn && (c[x].queued ==> c[x].parent == a[x].parent)
    {
      assert b[x] == b[x];
    }
  }

  /** A new parent for a stream outside all queues, and new lists of children. */
  lemma LinksFields(st: State, s: Sid, parent: Ptr, x: Sid, kids: seq<Sid>)
    requires s in st && x in st && (!st[s].queued || st[s].parent == parent)
    ensures SameFields(st, WithKids(Rehomed(st, s, parent, st[s].e.weight), x, kids))
  {
    var st1 := Rehomed(st, s, parent, st[s].e.weight);
    RehomedFields(st, s, parent);
    KidsFields(st1, x, kids);
    FieldsTrans(st, st1, WithKids(st1, x, kids));
  }

  /** Items are where they were. */
  ghost predicate SameItems(st: State, st': State) {
    st'.Keys == st.Keys &&
    forall x {:trigger st'[x]} :: x in st ==> st'[x].item == st[x].item && st'[x].deferred == st[x].deferred
  }

  lemma RootFree(st: State, s: Sid)
    requires Queues(st, {}) && s in st && st[s].parent.Null?
    ensures !st[s].queued
  {
    assert IsHeld(st, s);
  }

  // ---------------------------------------------------------------------------- adding

  lemma AddedLinks(st: State, rank: map<Sid, nat>, dep: Sid, s: Sid)
    requires TreeOk(st, rank) && Entries(st) && Queues(st, {}) && dep in st && s in st && st[s].parent.Null? && dep != s
    ensures var st' := WithKids(Rehomed(st, s, At(dep), st[s].e.weight), dep, [s] + st[dep].kids);
            && Tree(st') == Add(Tree(st), dep, s) && Entries(st') && Queues(st', {s}) && KeepsWindows(st, st')
            && SameItems(st, st') && SubtreeActive(st'[s]) == SubtreeActive(st[s]) && !st'[s].queued
  {
    var st1 := Rehomed(st, s, At(dep), st[s].e.weight);
    var st' := WithKids(st1, dep, [s] + st[dep].kids);
    RootFree(st, s);
    assert st[s] == st[s];
    RehomedQueues(st, s, At(dep), st[s].e.weight, {});
    assert {} + {s} == {s};
    QueuesUp(st1, {s});
    KidsQueues(st1, dep, [s] + st[dep].kids, {s}, {s});
    WindowsTrans(st, st1, st');
    AddedTree(st, dep, s);
  }

  lemma AddedTree(st: State, dep: Sid, s: Sid)
    requires dep in st && s in st && dep != s
    ensures Tree(WithKids(Rehomed(st, s, At(dep), st[s].e.weight), dep, [s] + st[dep].kids)) == Add(Tree(st), dep, s)
  {
  }

  /** `nghttp2_stream_dep_add_subtree`; without active streams it is `nghttp2_stream_dep_add`. */
  method AddEdit(st0: State, dep: Sid, s: Sid, ghost rank: map<Sid, nat>) returns (st: State)
    requires TreeOk(st0, rank) && Entries(st0) && Queues(st0, {}) && dep in st0 && s in st0
    requires st0[s].parent.Null? && !Under(Tree(st0), rank, s, dep)
    ensures Tree(st) == Add(Tree(st0), dep, s) && Entries(st) && Queues(st, {})
    ensures KeepsWindows(st0, st) && SameItems(st0, st) && Requeued(st0, st) && NoLeaves(st0, st)
  {
    AddedLinks(st0, rank, dep, s);
    RootFree(st0, s);
    AddWf(Tree(st0), rank, dep, s);
    st := WithKids(Rehomed(st0, s, At(dep), st0[s].e.weight), dep, [s] + st0[dep].kids);
    assert {} + {s} == {s};
    LinksFields(st0, s, At(dep), dep, [s] + st0[dep].kids);
    FieldsRequeued(st0, st);
    if SubtreeActive(st[s]) {
      ghost var st1 := st;
      TreeClimbs(st, AddRank(Tree(st0), rank, dep, s));
      QueuesUp(st, {s});
      st := PushWalk(st, s, {}, {}, AddRank(Tree(st0), rank, dep, s));
      FieldsBefore(st0, st1, st);
      LeavesTrans(st0, st1, st);
      SameTree(st1, st);
      WindowsTrans(st0, st1, st);
    } else {
      QueuesBut(st, {}, s);
    }
  }

  lemma MoreQueued(a: State, b: State, c: State)
    requires NoLeaves(a, b) && NoLeaves(b, c)
    ensures NoLeaves(a, c)
  {
    forall x {:trigger c[x]} | x in a && a[x].queued
      ensures c[x].queued
    {
      assert b[x].queued;
    }
  }

  lemma LeavesTrans(a: State, b: State, c: State)
    requires NoLeaves(a, b) && Grown(b, c)
    ensures NoLeaves(a, c)
  {
    forall x {:trigger c[x]} | x in a && a[x].queued
      ensures c[x].queued
    {
      assert b[x].queued;
    }
  }

  // ------------------------------------------------------------------- removing a subtree

  /** `nghttp2_stream_dep_remove_subtree`. */
  method RemoveSubtreeEdit(st0: State, s: Sid, ghost rank: map<Sid, nat>) returns (st: State)
    requires TreeOk(st0, rank) && Entries(st0) && Queues(st0, {}) && s in st0 && st0[s].parent.At?
    ensures ParentAgrees(Tree(st0), s)
    ensures Tree(st) == RemoveSubtree(Tree(st0), s) && Entries(st) && Queues(st, {})
    ensures KeepsWindowsBut(st0, st, s) && SameItems(st0, st)
    ensures QueueOf(st, s) == if st0[s].queued then SiblingRuns.Zeroed(QueueOf(st0, s)) else QueueOf(st0, s)
    ensures Requeued(st0, st)
  {
    TreeClimbs(st0, rank);
    ParentOf(st0, rank, s);
    assert ParentAgrees(Tree(st0), s);
    QueuesMono(st0, {}, {s});
    st := RemoveWalk(st0, s, rank);
    ghost var st1 := st;
    SameTree(st0, st);
    var p := st0[s].parent.id;
    assert st[p].kids == st0[p].kids && st[s].parent == st0[s].parent;
    RemovedLinks(st, s, p);
    st := WithKids(Rehomed(st, s, Null, st[s].e.weight), p, Replace(st[p].kids, s, []));
    assert Tree(st) == RemoveSubtree(Tree(st0), s);
    WindowsButTrans(st0, st1, st, s);
    FieldsAfter(st0, st1, st);
  }

  lemma RemovedLinks(st: State, s: Sid, p: Sid)
    requires Entries(st) && Queues(st, {s}) && s in st && p in st && !st[s].queued && st[s].parent == At(p) && p != s
    requires ParentAgrees(Tree(st), s) && s in st[p].kids
    ensures var st' := WithKids(Rehomed(st, s, Null, st[s].e.weight), p, Replace(st[p].kids, s, []));
            && Tree(st') == RemoveSubtree(Tree(st), s) && Entries(st') && Queues(st', {}) && KeepsWindows(st, st')
            && QueueOf(st', s) == QueueOf(st, s) && SameFields(st, st')
  {
    LinksFields(st, s, Null, p, Replace(st[p].kids, s, []));
    var st1 := Rehomed(st, s, Null, st[s].e.weight);
    assert st[s] == st[s];
    RehomedQueues(st, s, Null, st[s].e.weight, {s});
    assert {s} + {s} == {s};
    QueuesUp(st1, {s});
    KidsQueues(st1, p, Replace(st[p].kids, s, []), {s}, {s});
    var st' := WithKids(st1, p, Replace(st[p].kids, s, []));
    WindowsTrans(st, st1, st');
    assert {} + {s} == {s};
    QueuesBut(st', {}, s);
    QueueSame(st, st', s);
    RemovedTree(st, s, p);
  }

  lemma RemovedTree(st: State, s: Sid, p: Sid)
    requires s in st && p in st && st[s].parent == At(p) && p != s && ParentAgrees(Tree(st), s) && s in st[p].kids
    ensures Tree(WithKids(Rehomed(st, s, Null, st[s].e.weight), p, Replace(st[p].kids, s, []))) ==
            RemoveSubtree(Tree(st), s)
  {
  }

  lemma WindowsButTrans(a: State, b: State, c: State, s: Sid)
    requires KeepsWindowsBut(a, b, s) && KeepsWindows(b, c)
    ensures KeepsWindowsBut(a, c, s)
  {
    forall x {:trigger QueueOf(c, x)} | x in a && Fits(QueueOf(a, x)) && (x == s ==> a[s].obq == [])
      ensures Fits(QueueOf(c, x))
    {
      assert QueueOf(b, x) == QueueOf(b, x);
    }
  }

  // -------------------------------------------------------------------------- inserting

  /** The ranks after an insertion also fit the tree before it. */
  lemma InsertRankOld(f: Forest, rank: map<Sid, nat>, dep: Sid, s: Sid, x: Sid)
    requires Wf(f, rank) && dep in f && s in f && f[s].parent.Null? && !Under(f, rank, s, dep) && x in f &&
             f[x].parent.At?
    ensures var r := InsertRank(f, rank, dep, s);
            x in r && f[x].parent.id in f && f[x].parent.id in r && r[f[x].parent.id] < r[x]
  {
    assert ParentAgrees(f, x);
    if x == dep && Under(f, rank, dep, f[x].parent.id) {
      UnderRank(f, rank, dep, f[x].parent.id);
    }
  }

  /** `s` is a root above which it can be inserted, and may already point to `dep`. */
  ghost predicate Inserting(st0: State, st: State, rank: map<Sid, nat>, dep: Sid, s: Sid) {
    && TreeOk(st0, rank) && Entries(st0) && Queues(st0, {}) && dep in st0 && s in st0 && dep != s
    && st0[s].parent.Null? && !Under(Tree(st0), rank, s, dep)
    && (st == st0 || st == Rehomed(st0, s, At(dep), st0[s].e.weight))
  }

  lemma InsertClimbs(st0: State, st: State, rank: map<Sid, nat>, dep: Sid, s: Sid)
    requires Inserting(st0, st, rank, dep, s)
    ensures Climbs(st, InsertRank(Tree(st0), rank, dep, s))
  {
    var f := Tree(st0);
    var r := InsertRank(f, rank, dep, s);
    forall x {:trigger st[x]} | x in st && st[x].parent.At?
      ensures x in r && st[x].parent.id in st && st[x].parent.id in r && r[st[x].parent.id] < r[x]
    {
      if x == s {
        InsertRanked(f, rank, dep, s, s);
      } else {
        assert f[x].parent == st0[x].parent;
        InsertRankOld(f, rank, dep, s, x);
      }
    }
  }

  lemma InsertEditing(st0: State, st: State, rank: map<Sid, nat>, dep: Sid, s: Sid)
    requires Inserting(st0, st, rank, dep, s)
    ensures Editing(st, {dep, s}, {s}, InsertRank(Tree(st0), rank, dep, s)) && KeepsWindows(st0, st)
    ensures SameFields(st0, st)
  {
    InsertClimbs(st0, st, rank, dep, s);
    RootFree(st0, s);
    RehomedFields(st0, s, At(dep));
    if st != st0 {
      assert st0[s] == st0[s];
      RehomedQueues(st0, s, At(dep), st0[s].e.weight, {});
    }
    QueuesMono(st, if st == st0 then {} else {} + {s}, {s});
    QueuesUp(st, {s});
    QueuesMono(st, {s}, {dep, s});
  }

  lemma InsertMovable(st0: State, st: State, rank: map<Sid, nat>, dep: Sid, s: Sid, i: nat)
    requires Inserting(st0, st, rank, dep, s) && i < |st0[dep].kids|
    ensures Movable(st, dep, s, st0[dep].kids[i], 0, 0, {dep, s}, InsertRank(Tree(st0), rank, dep, s))
  {
    var f := Tree(st0);
    var k := st0[dep].kids[i];
    assert KidsAgree(f, dep) && k in f[dep].kids;
    assert f[k].parent == st0[k].parent && st0[k].e == st0[k].e;
    InsertRanked(f, rank, dep, s, k);
    ParentOf(st0, rank, k);
  }

  /** The children of `dep` are now those of `s`; the links of `s` and `dep` are set. */
  function InsertLinks(st: State, dep: Sid, s: Sid, ks: seq<Sid>): State
    requires dep in st && s in st
  {
    WithKids(WithKids(Rehomed(st, s, At(dep), st[s].e.weight), s, ks), dep, [s])
  }

  /** The children of `dep` have got `s` as their parent, and `s` may have got `dep`. */
  ghost predicate HandedOver(st0: State, st: State, dep: Sid, s: Sid, x: Sid)
    requires x in st0 && x in st
  {
    && st[x].item == st0[x].item && st[x].deferred == st0[x].deferred
    && st[x].kids == st0[x].kids && st[x].e.weight == st0[x].e.weight
    && (x != s ==> st[x].parent == if st0[x].parent == At(dep) then At(s) else st0[x].parent)
  }

  lemma InsertedNode(st0: State, st1: State, st: State, rank: map<Sid, nat>, dep: Sid, s: Sid, x: Sid)
    requires Inserting(st0, st1, rank, dep, s) && HaveMoved(st1, st, st0[dep].kids, s, 0, 0) && x in st0
    ensures x in st && HandedOver(st0, st, dep, s, x)
  {
    var f, ds := Tree(st0), st0[dep].kids;
    var m := AllMoved(st1, ds, s, 0, 0);
    assert m.Keys == st1.Keys == st0.Keys;
    assert st[x].parent == m[x].parent;
    assert f[dep].kids == ds && f[x].parent == st0[x].parent;
    KidsOf(f, rank, dep, x);
  }

  lemma HandedNode(st0: State, st: State, dep: Sid, s: Sid, x: Sid)
    requires dep in st0 && s in st0 && dep != s && st.Keys == st0.Keys && st0[dep].parent != At(dep) && x in st0
    requires HandedOver(st0, st, dep, s, x)
    ensures var st' := InsertLinks(st, dep, s, st0[s].kids + st0[dep].kids);
            && Node(st'[x].parent, st'[x].kids, st'[x].e.weight) == Insert(Tree(st0), dep, s)[x]
            && st'[x].item == st0[x].item && st'[x].deferred == st0[x].deferred
  {
    assert Tree(st0)[x] == Node(st0[x].parent, st0[x].kids, st0[x].e.weight);
  }

  lemma HandedTree(st0: State, st: State, dep: Sid, s: Sid)
    requires dep in st0 && s in st0 && dep != s && st.Keys == st0.Keys
    requires forall x {:trigger HandedOver(st0, st, dep, s, x)} :: x in st0 ==> HandedOver(st0, st, dep, s, x)
    requires st0[dep].parent != At(dep)
    ensures Tree(InsertLinks(st, dep, s, st0[s].kids + st0[dep].kids)) == Insert(Tree(st0), dep, s)
    ensures SameItems(st0, InsertLinks(st, dep, s, st0[s].kids + st0[dep].kids))
  {
    var st' := InsertLinks(st, dep, s, st0[s].kids + st0[dep].kids);
    assert Tree(st').Keys == Insert(Tree(st0), dep, s).Keys;
    forall x {:trigger st'[x]} | x in st0
      ensures Node(st'[x].parent, st'[x].kids, st'[x].e.weight) == Insert(Tree(st0), dep, s)[x]
      ensures st'[x].item == st0[x].item && st'[x].deferred == st0[x].deferred
    {
      HandedNode(st0, st, dep, s, x);
    }
  }

  lemma InsertedTree(st0: State, st1: State, st: State, rank: map<Sid, nat>, dep: Sid, s: Sid)
    requires Inserting(st0, st1, rank, dep, s) && HaveMoved(st1, st, st0[dep].kids, s, 0, 0) && dep in st && s in st
    ensures Tree(InsertLinks(st, dep, s, st0[s].kids + st0[dep].kids)) == Insert(Tree(st0), dep, s)
    ensures SameItems(st0, InsertLinks(st, dep, s, st0[s].kids + st0[dep].kids))
  {
    assert AllMoved(st1, st0[dep].kids, s, 0, 0).Keys == st0.Keys;
    forall x {:trigger HandedOver(st0, st, dep, s, x)} | x in st0
      ensures HandedOver(st0, st, dep, s, x)
    {
      InsertedNode(st0, st1, st, rank, dep, s, x);
    }
    if st0[dep].parent.At? {
      ParentOf(st0, rank, dep);
    }
    HandedTree(st0, st, dep, s);
  }

  lemma InsertLinksQueues(st: State, dep: Sid, s: Sid, ks: seq<Sid>, but: set<Sid>, up: set<Sid>)
    requires Entries(st) && Queues(st, but) && UpQueued(st, up) && dep in st && s in st && s in but && s in up
    requires !st[s].queued || st[s].parent == At(dep)
    ensures var st' := InsertLinks(st, dep, s, ks);
            Entries(st') && Queues(st', but) && UpQueued(st', up) && KeepsWindows(st, st')
  {
    var st1 := Rehomed(st, s, At(dep), st[s].e.weight);
    assert st[s] == st[s];
    if st[s].queued {
      assert st1 == st;
    } else {
      RehomedQueues(st, s, At(dep), st[s].e.weight, but);
      RehomedUp(st, s, At(dep), st[s].e.weight, up);
      assert but + {s} == but;
    }
    var st2 := WithKids(st1, s, ks);
    KidsQueues(st1, s, ks, but, up);
    KidsQueues(st2, dep, [s], but, up);
    assert KeepsWindows(st, st1);
    WindowsTrans(st, st1, st2);
    WindowsTrans(st, st2, WithKids(st2, dep, [s]));
  }

  /** Nothing was queued below `dep`: the queues are as they were. */
  lemma InsertIdle(st0: State, st1: State, st: State, rank: map<Sid, nat>, dep: Sid, s: Sid)
    requires Inserting(st0, st1, rank, dep, s) && HaveMoved(st1, st, st0[dep].kids, s, 0, 0)
    requires Queues(st, {dep, s}) && s in st && dep in st && !SubtreeActive(st[s])
    ensures !st[s].queued
    ensures QueuedRight(InsertLinks(st, dep, s, st0[s].kids + st0[dep].kids), dep)
    ensures QueuedRight(InsertLinks(st, dep, s, st0[s].kids + st0[dep].kids), s)
  {
    var ds := st0[dep].kids;
    RootFree(st0, s);
    forall k | k in ds && k in st1
      ensures !st1[k].queued
    {
      InsertedNode(st0, st1, st, rank, dep, s, k);
      KidsOf(Tree(st0), rank, dep, k);
      assert Tree(st0)[dep].kids == ds && Tree(st0)[k].parent == st0[k].parent;
      assert KidsAgree(Tree(st0), s);
      assert IsHeld(st, k);
    }
    assert st == AllMoved(st1, ds, s, 0, 0);
    assert QueuedRight(st0, dep) && HoldsKids(st0, dep);
    forall k | k in st0[dep].obq
      ensures k in ds && k in st1 && st1[k].queued
    {
      QueuedKid(st0, rank, dep, k);
    }
    NoMembers(st0[dep].obq);
    OwnKid(st0, rank, dep);
  }

  lemma QueuedKid(st: State, rank: map<Sid, nat>, p: Sid, k: Sid)
    requires TreeOk(st, rank) && Queues(st, {}) && p in st && k in st[p].obq
    ensures k in st && k in st[p].kids && st[k].queued
  {
    assert HoldsKids(st, p);
    KidsOf(Tree(st), rank, p, k);
    assert Tree(st)[p].kids == st[p].kids && Tree(st)[k].parent == st[k].parent;
  }

  lemma OwnKid(st: State, rank: map<Sid, nat>, p: Sid)
    requires TreeOk(st, rank) && p in st
    ensures p !in st[p].kids && st[p].parent != At(p)
  {
    KidsOf(Tree(st), rank, p, p);
    assert Tree(st)[p].kids == st[p].kids && Tree(st)[p].parent == st[p].parent;
    if st[p].parent.At? {
      ParentOf(st, rank, p);
    }
  }

  /** `s` was queued: so is `dep`, for that reason. */
  lemma InsertBusy(st: State, dep: Sid, s: Sid)
    requires Queues(st, {dep}) && UpQueued(st, {}) && dep in st && s in st && st[s].queued && st[s].parent == At(dep)
    ensures Queues(st, {})
  {
    assert IsHeld(st, s) && st[s].parent.id == dep;
    assert QueuedRight(st, dep);
    assert {} + {dep} == {dep};
    QueuesBut(st, {}, dep);
  }

  /** `nghttp2_stream_dep_insert`, and `nghttp2_stream_dep_insert_subtree` if `subtree`. */
  method InsertEdit(st0: State, dep: Sid, s: Sid, subtree: bool, ghost rank: map<Sid, nat>) returns (st: State)
    requires TreeOk(st0, rank) && Entries(st0) && Queues(st0, {}) && dep in st0 && s in st0
    requires st0[s].parent.Null? && !Under(Tree(st0), rank, s, dep)
    ensures Tree(st) == Insert(Tree(st0), dep, s) && Entries(st) && Queues(st, {})
    ensures KeepsWindows(st0, st) && SameItems(st0, st) && Requeued(st0, st) && NoLeaves(st0, st)
  {
    st := st0;
    if subtree {
      st := Rehomed(st0, s, At(dep), st0[s].e.weight);
    }
    ghost var st1 := st;
    ghost var r := InsertRank(Tree(st0), rank, dep, s);
    InsertEditing(st0, st, rank, dep, s);
    assert KidsAgree(Tree(st0), dep) && Tree(st0)[dep].kids == st0[dep].kids;
    forall i {:trigger st0[dep].kids[i]} | 0 <= i < |st0[dep].kids|
      ensures Movable(st, dep, s, st0[dep].kids[i], 0, 0, {dep, s}, r)
    {
      InsertMovable(st0, st, rank, dep, s, i);
    }
    st := MoveKids(st, dep, s, st0[dep].kids, 0, 0, {dep, s}, {s}, r);
    WindowsTrans(st0, st1, st);
    FieldsBefore(st0, st1, st);
    MovedNoLeaves(st0, st1, st, st0[dep].kids, s, 0, 0);
    st := FinishInsert(st0, st1, st, dep, s, rank);
  }

  lemma InsertedRoot(st0: State, st1: State, st: State, rank: map<Sid, nat>, dep: Sid, s: Sid)
    requires Inserting(st0, st1, rank, dep, s) && HaveMoved(st1, st, st0[dep].kids, s, 0, 0)
    ensures s in st && (st[s].parent == At(dep) || st[s].parent == Null)
  {
    KidsOf(Tree(st0), rank, dep, s);
    assert Tree(st0)[dep].kids == st0[dep].kids && Tree(st0)[s].parent == st0[s].parent;
    var m := AllMoved(st1, st0[dep].kids, s, 0, 0);
    assert m.Keys == st0.Keys && st[s].parent == m[s].parent;
  }

  /** The state once the links are set, before `s` is queued. */
  ghost predicate LinksSet(st0: State, st: State, rank: map<Sid, nat>, dep: Sid, s: Sid)
    requires TreeOk(st0, rank) && dep in st0 && s in st0
  {
    && dep in st && s in st && st[s].parent == At(dep)
    && Tree(st) == Insert(Tree(st0), dep, s) && TreeOk(st, InsertRank(Tree(st0), rank, dep, s))
    && Entries(st) && Queues(st, {dep} + {s}) && UpQueued(st, {s}) && KeepsWindows(st0, st) && SameItems(st0, st)
  }

  lemma InsertPrepared(st0: State, st1: State, st2: State, dep: Sid, s: Sid, rank: map<Sid, nat>)
    requires Inserting(st0, st1, rank, dep, s) && HaveMoved(st1, st2, st0[dep].kids, s, 0, 0)
    requires Editing(st2, {dep, s}, {s}, InsertRank(Tree(st0), rank, dep, s)) && KeepsWindows(st0, st2)
    ensures dep in st2 && s in st2
    ensures LinksSet(st0, InsertLinks(st2, dep, s, st0[s].kids + st0[dep].kids), rank, dep, s)
  {
    assert AllMoved(st1, st0[dep].kids, s, 0, 0).Keys == st0.Keys == st2.Keys;
    InsertedTree(st0, st1, st2, rank, dep, s);
    InsertWf(Tree(st0), rank, dep, s);
    assert IsHeld(st2, s);
    InsertedRoot(st0, st1, st2, rank, dep, s);
    InsertLinksQueues(st2, dep, s, st0[s].kids + st0[dep].kids, {dep, s}, {s});
    WindowsTrans(st0, st2, InsertLinks(st2, dep, s, st0[s].kids + st0[dep].kids));
    TwoSets(dep, s);
  }

  lemma ItemsTrans(a: State, b: State, c: State)
    requires SameItems(a, b) && SameShape(b, c)
    ensures SameItems(a, c)
  {
    forall x {:trigger c[x]} | x in a
      ensures c[x].item == a[x].item && c[x].deferred == a[x].deferred
    {
      assert b[x] == b[x];
    }
  }

  /** The end of an insertion: the links of `s` and `dep`, and the place of `s` in the queue of `dep`. */
  method FinishInsert(st0: State, ghost st1: State, st2: State, dep: Sid, s: Sid, ghost rank: map<Sid, nat>)
    returns (st: State)
    requires Inserting(st0, st1, rank, dep, s) && HaveMoved(st1, st2, st0[dep].kids, s, 0, 0)
    requires Editing(st2, {dep, s}, {s}, InsertRank(Tree(st0), rank, dep, s)) && KeepsWindows(st0, st2)
    requires Requeued(st0, st2) && NoLeaves(st0, st2)
    ensures Tree(st) == Insert(Tree(st0), dep, s) && Entries(st) && Queues(st, {})
    ensures KeepsWindows(st0, st) && SameItems(st0, st) && Requeued(st0, st) && NoLeaves(st0, st)
  {
    InsertPrepared(st0, st1, st2, dep, s, rank);
    st := InsertLinks(st2, dep, s, st0[s].kids + st0[dep].kids);
    InsertFields(st0, st1, st2, dep, s, rank);
    if SubtreeActive(st[s]) {
      ghost var st3 := st;
      st := PushInserted(st, dep, s, InsertRank(Tree(st0), rank, dep, s));
      SameTree(st3, st);
      WindowsTrans(st0, st3, st);
      ItemsTrans(st0, st3, st);
      RequeuedMore(st0, st3, st);
      MoreQueued(st0, st3, st);
    } else {
      InsertIdle(st0, st1, st2, rank, dep, s);
      TwoSets(dep, s);
      QueuesBut(st, {s}, dep);
      QueuesBut(st, {}, s);
    }
  }

  /** Setting the links leaves the entries alone. */
  lemma InsertFields(st0: State, st1: State, st2: State, dep: Sid, s: Sid, rank: map<Sid, nat>)
    requires Inserting(st0, st1, rank, dep, s) && HaveMoved(st1, st2, st0[dep].kids, s, 0, 0)
    requires Queues(st2, {dep, s}) && Requeued(st0, st2) && NoLeaves(st0, st2)
    ensures dep in st2 && s in st2
    ensures var st3 := InsertLinks(st2, dep, s, st0[s].kids + st0[dep].kids);
            Requeued(st0, st3) && NoLeaves(st0, st3)
  {
    InsertedRoot(st0, st1, st2, rank, dep, s);
    assert IsHeld(st2, s);
    InsertLinksFields(st2, dep, s, st0[s].kids + st0[dep].kids);
    LinkedRequeued(st0, st2, InsertLinks(st2, dep, s, st0[s].kids + st0[dep].kids));
  }

  lemma InsertLinksFields(st: State, dep: Sid, s: Sid, ks: seq<Sid>)
    requires dep in st && s in st && (!st[s].queued || st[s].parent == At(dep))
    ensures SameFields(st, InsertLinks(st, dep, s, ks))
  {
    var st1 := WithKids(Rehomed(st, s, At(dep), st[s].e.weight), s, ks);
    LinksFields(st, s, At(dep), s, ks);
    KidsFields(st1, dep, [s]);
    FieldsTrans(st, st1, WithKids(st1, dep, [s]));
  }

  lemma LinkedRequeued(a: State, b: State, c: State)
    requires Requeued(a, b) && NoLeaves(a, b) && SameFields(b, c)
    ensures Requeued(a, c) && NoLeaves(a, c)
  {
    FieldsAfter(a, b, c);
    forall x {:trigger c[x]} | x in a && a[x].queued
      ensures c[x].queued
    {
      assert b[x].queued;
    }
  }

  lemma MovedNoLeaves(st0: State, st1: State, st: State, ks: seq<Sid>, q: Sid, give: nat, sum: nat)
    requires (give > 0 && ks != [] ==> sum > 0) && HaveMoved(st1, st, ks, q, give, sum) && SameFields(st0, st1)
    requires st.Keys == st0.Keys
    ensures NoLeaves(st0, st)
  {
    forall x {:trigger st[x]} | x in st0 && st0[x].queued
      ensures st[x].queued
    {
      assert st1[x].queued;
    }
  }

  lemma TwoSets(a: Sid, b: Sid)
    ensures {a} + {b} == {a, b} && {b} + {a} == {a, b} && {} + {b} == {b}
  {
  }

  method PushInserted(st0: State, dep: Sid, s: Sid, ghost rank: map<Sid, nat>) returns (st: State)
    requires TreeOk(st0, rank) && Entries(st0) && Queues(st0, {dep} + {s}) && UpQueued(st0, {s})
    requires dep in st0 && s in st0 && st0[s].parent == At(dep) && SubtreeActive(st0[s])
    ensures SameShape(st0, st) && Entries(st) && Queues(st, {}) && KeepsWindows(st0, st)
    ensures Requeued(st0, st) && NoLeaves(st0, st)
  {
    TreeClimbs(st0, rank);
    TwoSets(dep, s);
    st := PushWalk(st0, s, {dep}, {}, rank);
    InsertBusy(st, dep, s);
  }

  // ------------------------------------------------------------------- removing a stream

  /** A stream that can be removed: it has a parent, and `sum` is its `sum_dep_weight`. */
  ghost predicate Leaving(st: State, rank: map<Sid, nat>, s: Sid, p: Sid, sum: nat) {
    && TreeOk(st, rank) && Entries(st) && Queues(st, {}) && s in st && p in st && st[s].parent == At(p) &&
       !Active(st[s])
    && sum == SumWeights(Tree(st), st[s].kids) && (st[s].kids != [] ==> sum > 0)
    && ParentAgrees(Tree(st), s) && KidsAgree(Tree(st), s) && s in st[p].kids
  }

  lemma LeavingMovable(st: State, rank: map<Sid, nat>, s: Sid, p: Sid, sum: nat, i: nat)
    requires Leaving(st, rank, s, p, sum) && i < |st[s].kids|
    ensures Movable(st, s, p, st[s].kids[i], st[s].e.weight, sum, {s}, rank)
  {
    var f := Tree(st);
    var k := st[s].kids[i];
    assert f[s].kids == st[s].kids && k in f[s].kids;
    assert f[k].parent == st[k].parent && st[k].e.weight == f[k].weight && st[s].e.weight == f[s].weight;
    ParentOf(st, rank, k);
    ParentOf(st, rank, s);
    ShareInSum(f, st[s].kids, k);
    DistributedRange(f[s].weight, f[k].weight, sum);
  }

  /** The parent and weight of a stream after the removal of `s`, before the links of `s` are cleared. */
  ghost predicate Adopted(st0: State, st: State, s: Sid, p: Sid, sum: nat, x: Sid)
    requires s in st0 && x in st0 && x in st && (st0[s].kids != [] ==> sum > 0)
  {
    && st[x].item == st0[x].item && st[x].deferred == st0[x].deferred && st[x].kids == st0[x].kids
    && st[x].parent == (if x in st0[s].kids then At(p) else st0[x].parent)
    && st[x].e.weight == (if x in st0[s].kids then Distributed(st0[s].e.weight, st0[x].e.weight, sum)
                          else st0[x].e.weight)
  }

  lemma MovedAdopted(st0: State, st: State, rank: map<Sid, nat>, s: Sid, p: Sid, sum: nat, x: Sid)
    requires Leaving(st0, rank, s, p, sum) && HaveMoved(st0, st, st0[s].kids, p, st0[s].e.weight, sum) && x in st0
    ensures x in st && Adopted(st0, st, s, p, sum, x)
  {
    var m := AllMoved(st0, st0[s].kids, p, st0[s].e.weight, sum);
    assert m.Keys == st0.Keys && st[x].parent == m[x].parent;
    assert st0[s].e.weight == Tree(st0)[s].weight;
  }

  /** The links of `s` and its parent after the removal. */
  function LeaveLinks(st: State, s: Sid, p: Sid, kids: seq<Sid>): State
    requires s in st && p in st
  {
    WithKids(WithKids(Rehomed(st, s, Null, st[s].e.weight), s, []), p, kids)
  }

  lemma AdoptedNode(st0: State, st: State, rank: map<Sid, nat>, s: Sid, p: Sid, sum: nat, x: Sid)
    requires Leaving(st0, rank, s, p, sum) && p != s && st.Keys == st0.Keys && x in st0
    requires s !in st0[s].kids && p !in st0[s].kids
    requires Adopted(st0, st, s, p, sum, x)
    ensures var st' := LeaveLinks(st, s, p, Replace(st0[p].kids, s, st0[s].kids));
            && Node(st'[x].parent, st'[x].kids, st'[x].e.weight) == Remove(Tree(st0), s)[x]
            && st'[x].item == st0[x].item && st'[x].deferred == st0[x].deferred
  {
    assert Tree(st0)[x] == Node(st0[x].parent, st0[x].kids, st0[x].e.weight);
    assert Tree(st0)[s] == Node(st0[s].parent, st0[s].kids, st0[s].e.weight);
    assert Tree(st0)[p] == Node(st0[p].parent, st0[p].kids, st0[p].e.weight);
  }

  lemma AdoptedTree(st0: State, st: State, rank: map<Sid, nat>, s: Sid, p: Sid, sum: nat)
    requires Leaving(st0, rank, s, p, sum) && p != s && st.Keys == st0.Keys
    requires s !in st0[s].kids && p !in st0[s].kids
    requires forall x {:trigger Adopted(st0, st, s, p, sum, x)} :: x in st0 ==> Adopted(st0, st, s, p, sum, x)
    ensures var st' := LeaveLinks(st, s, p, Replace(st0[p].kids, s, st0[s].kids));
            Tree(st') == Remove(Tree(st0), s) && SameItems(st0, st')
  {
    var st' := LeaveLinks(st, s, p, Replace(st0[p].kids, s, st0[s].kids));
    assert Tree(st').Keys == Remove(Tree(st0), s).Keys;
    forall x {:trigger st'[x]} | x in st0
      ensures Node(st'[x].parent, st'[x].kids, st'[x].e.weight) == Remove(Tree(st0), s)[x]
      ensures st'[x].item == st0[x].item && st'[x].deferred == st0[x].deferred
    {
      AdoptedNode(st0, st, rank, s, p, sum, x);
    }
  }

  lemma LeaveLinksQueues(st: State, s: Sid, p: Sid, kids: seq<Sid>)
    requires Entries(st) && Queues(st, {s}) && s in st && p in st && !st[s].queued
    ensures var st' := LeaveLinks(st, s, p, kids);
            Entries(st') && Queues(st', {}) && KeepsWindows(st, st') && SameFields(st, st')
  {
    LeaveLinksFields(st, s, p, kids);
    var st1 := Rehomed(st, s, Null, st[s].e.weight);
    assert st[s] == st[s];
    RehomedQueues(st, s, Null, st[s].e.weight, {s});
    TwoSets(s, s);
    assert {s} + {s} == {s};
    QueuesUp(st1, {s});
    var st2 := WithKids(st1, s, []);
    KidsQueues(st1, s, [], {s}, {s});
    KidsQueues(st2, p, kids, {s}, {s});
    WindowsTrans(st, st1, st2);
    var st' := WithKids(st2, p, kids);
    WindowsTrans(st, st2, st');
    QueuesBut(st', {}, s);
  }

  lemma LeaveLinksFields(st: State, s: Sid, p: Sid, kids: seq<Sid>)
    requires s in st && p in st && !st[s].queued
    ensures SameFields(st, LeaveLinks(st, s, p, kids))
  {
    var st1 := WithKids(Rehomed(st, s, Null, st[s].e.weight), s, []);
    LinksFields(st, s, Null, s, []);
    KidsFields(st1, p, kids);
    FieldsTrans(st, st1, WithKids(st1, p, kids));
  }

  /** No stream has `s` as its parent any more, so its queue is empty. */
  lemma LeftAlone(st0: State, st: State, rank: map<Sid, nat>, s: Sid, p: Sid, sum: nat)
    requires Leaving(st0, rank, s, p, sum) && p != s && st.Keys == st0.Keys && Queues(st, {s})
    requires forall x {:trigger Adopted(st0, st, s, p, sum, x)} :: x in st0 ==> Adopted(st0, st, s, p, sum, x)
    ensures st[s].obq == []
  {
    assert HoldsKids(st, s);
    forall k | k in st0
      ensures st[k].parent != At(s)
    {
      assert Adopted(st0, st, s, p, sum, k);
      KidsOf(Tree(st0), rank, s, k);
      assert Tree(st0)[s].kids == st0[s].kids && Tree(st0)[k].parent == st0[k].parent;
    }
    NoMembers(st[s].obq);
  }

  lemma WindowsAll(a: State, b: State, c: State, s: Sid)
    requires KeepsWindows(a, b) && KeepsWindowsBut(b, c, s) && b[s].obq == []
    ensures KeepsWindows(a, c)
  {
    forall x {:trigger QueueOf(c, x)} | x in a && Fits(QueueOf(a, x))
      ensures Fits(QueueOf(c, x))
    {
      assert QueueOf(b, x) == QueueOf(b, x);
    }
  }

  lemma AdoptedShape(st0: State, st: State, st': State, s: Sid, p: Sid, sum: nat, x: Sid)
    requires s in st0 && x in st0 && x in st && (st0[s].kids != [] ==> sum > 0) && SameShape(st, st')
    requires Adopted(st0, st, s, p, sum, x)
    ensures x in st' && Adopted(st0, st', s, p, sum, x)
  {
    assert st'[x].parent == st[x].parent;
  }

  /** `nghttp2_stream_dep_remove` of a stream without an item. */
  method RemoveEdit(st0: State, s: Sid, p: Sid, sum: nat, ghost rank: map<Sid, nat>) returns (st: State)
    requires Leaving(st0, rank, s, p, sum)
    ensures Tree(st) == Remove(Tree(st0), s) && Entries(st) && Queues(st, {})
    ensures KeepsWindows(st0, st) && SameItems(st0, st) && Requeued(st0, st)
  {
    TreeClimbs(st0, rank);
    ParentOf(st0, rank, s);
    OwnKid(st0, rank, s);
    QueuesUp(st0, {});
    QueuesMono(st0, {}, {s});
    forall i {:trigger st0[s].kids[i]} | 0 <= i < |st0[s].kids|
      ensures Movable(st0, s, p, st0[s].kids[i], st0[s].e.weight, sum, {s}, rank)
    {
      LeavingMovable(st0, rank, s, p, sum, i);
    }
    assert Tree(st0)[s].kids == st0[s].kids;
    st := MoveKids(st0, s, p, st0[s].kids, st0[s].e.weight, sum, {s}, {}, rank);
    st := FinishRemove(st0, st, s, p, sum, rank);
  }

  /** The end of a removal: `s` leaves the queue of its parent and the tree. */
  method FinishRemove(st0: State, st1: State, s: Sid, p: Sid, sum: nat, ghost rank: map<Sid, nat>) returns (st: State)
    requires Leaving(st0, rank, s, p, sum) && p != s && s !in st0[s].kids
    requires Editing(st1, {s}, {}, rank) && KeepsWindows(st0, st1)
    requires HaveMoved(st0, st1, st0[s].kids, p, st0[s].e.weight, sum)
    requires Requeued(st0, st1) && OnlyAbove(st0, st1, p, rank)
    ensures Tree(st) == Remove(Tree(st0), s) && Entries(st) && Queues(st, {})
    ensures KeepsWindows(st0, st) && SameItems(st0, st) && Requeued(st0, st)
  {
    forall x {:trigger Adopted(st0, st1, s, p, sum, x)} | x in st0
      ensures Adopted(st0, st1, s, p, sum, x)
    {
      MovedAdopted(st0, st1, rank, s, p, sum, x);
    }
    LeftAlone(st0, st1, rank, s, p, sum);
    st := RemoveWalk(st1, s, rank);
    WindowsAll(st0, st1, st, s);
    RemoveRequeued(st0, st1, st, rank, s, p, sum);
    ghost var st2 := st;
    forall x {:trigger Adopted(st0, st2, s, p, sum, x)} | x in st0
      ensures Adopted(st0, st2, s, p, sum, x)
    {
      AdoptedShape(st0, st1, st2, s, p, sum, x);
    }
    ParentNotKid(st0, rank, s, p);
    AdoptedTree(st0, st2, rank, s, p, sum);
    LeaveLinksQueues(st2, s, p, Replace(st0[p].kids, s, st0[s].kids));
    st := LeaveLinks(st, s, p, Replace(st0[p].kids, s, st0[s].kids));
    WindowsTrans(st0, st2, st);
    FieldsAfter(st0, st2, st);
  }

  /** A removal queues nobody but the children it moves. */
  lemma NoneQueued(st0: State, st: State, rank: map<Sid, nat>, s: Sid, p: Sid, sum: nat)
    requires Leaving(st0, rank, s, p, sum) && HaveMoved(st0, st, st0[s].kids, p, st0[s].e.weight, sum)
    requires OnlyAbove(st0, st, p, rank)
    ensures forall x {:trigger st[x]} :: x in st0 && st[x].queued ==> st0[x].queued
  {
    if !st0[p].queued && st0[p].parent.At? {
      assert QueuedRight(st0, p) && IsHeld(st0, s) && QueuedRight(st0, s);
      forall k | k in st0[s].kids && k in st0
        ensures !st0[k].queued
      {
        assert k in Tree(st0)[s].kids && Tree(st0)[k].parent == st0[k].parent;
        assert IsHeld(st0, k);
      }
      assert st == AllMoved(st0, st0[s].kids, p, st0[s].e.weight, sum);
    }
  }

  lemma RemoveRequeued(st0: State, st1: State, st: State, rank: map<Sid, nat>, s: Sid, p: Sid, sum: nat)
    requires Leaving(st0, rank, s, p, sum) && HaveMoved(st0, st1, st0[s].kids, p, st0[s].e.weight, sum)
    requires Requeued(st0, st1) && OnlyAbove(st0, st1, p, rank)
    requires Requeued(st1, st) && SameShape(st1, st) && OnlyDown(st1, st, s, rank)
    ensures Requeued(st0, st)
  {
    NoneQueued(st0, st1, rank, s, p, sum);
    forall x {:trigger Stayed(st0, st1, x)} | x in st0
      ensures Stayed(st0, st1, x) || Stayed(st1, st, x)
    {
      RemoveStays(st0, st1, st, rank, s, p, sum, x);
    }
    RequeuedTrans(st0, st1, st);
  }

  lemma RemoveStays(st0: State, st1: State, st: State, rank: map<Sid, nat>, s: Sid, p: Sid, sum: nat, x: Sid)
    requires Leaving(st0, rank, s, p, sum) && HaveMoved(st0, st1, st0[s].kids, p, st0[s].e.weight, sum) && x in st0
    requires st1.Keys == st0.Keys && SameShape(st1, st) && OnlyDown(st1, st, s, rank)
    requires forall y {:trigger st1[y]} :: y in st0 && st1[y].queued ==> st0[y].queued
    ensures Stayed(st0, st1, x) || Stayed(st1, st, x)
  {
    MovedAdopted(st0, st1, rank, s, p, sum, x);
    assert st1[x] == st1[x] && st[x] == st[x];
    if x in st0[s].kids {
      assert x in Tree(st0)[s].kids && Tree(st0)[x].parent == st0[x].parent;
      ParentOf(st0, rank, x);
    }
  }

  lemma ParentNotKid(st: State, rank: map<Sid, nat>, s: Sid, p: Sid)
    requires TreeOk(st, rank) && s in st && p in st && st[s].parent == At(p)
    ensures p !in st[s].kids
  {
    ParentOf(st, rank, s);
    KidsOf(Tree(st), rank, s, p);
    assert Tree(st)[s].kids == st[s].kids && Tree(st)[p].parent == st[p].parent;
    if st[p].parent == At(s) {
      ParentOf(st, rank, p);
    }
  }
}
