/**
  * The streams of lib/nghttp2_stream.c with all their fields: the four pointers of the dependency tree
  * and the queues of the scheduler, changed together.
  */
module PriorityTree {
  import opened DepForest
  import DepLinks
  import DepTree
  import opened SchedState
  import opened SchedRequeue
  import opened SchedSelect
  import opened SchedTree
  import opened VirtualTime
  import Scheduler
  import Pq

  /** Being above a stream does not depend on how the forest is ranked. */
  lemma {:induction false} UnderAnyRank(f: Forest, rank: map<Id, nat>, rank': map<Id, nat>, a: Id, x: Id)
    requires Wf(f, rank) && Wf(f, rank') && x in f
    ensures Under(f, rank, a, x) == Under(f, rank', a, x)
    decreases rank[x]
  {
    assert ParentAgrees(f, x);
    if x != a && f[x].parent.At? {
      UnderAnyRank(f, rank, rank', a, f[x].parent.id);
    }
  }

  class Streams {
    const tree: DepTree.Tree
    const sched: Scheduler.Scheduler

    /** The pointers show the tree on which exactly the right streams are queued. */
    ghost predicate Valid()
      reads this, tree, sched
    {
      tree.Valid() && sched.Valid() && tree.f == Tree(sched.st)
    }

    /** `s` may be put below `dep`. */
    ghost predicate Free(dep: Sid, s: Sid)
      reads this, tree, sched
    {
      Valid() && dep in tree.f && s in tree.f && tree.f[s].parent.Null? && !Under(tree.f, tree.rank, s, dep)
    }

    /** A session with its root stream. */
    constructor (root: Sid)
      ensures Valid() && fresh(tree) && fresh(sched) && tree.f == map[root := Node(Null, [], 16)] && sched.Windows()
    {
      tree := new DepTree.Tree(root);
      sched := new Scheduler.Scheduler(root);
      new;
      assert Tree(sched.st) == map[root := Node(Null, [], 16)];
    }

    /** `nghttp2_stream_init`. */
    method Init(s: Sid, weight: nat)
      requires Valid() && s !in tree.f && 1 <= weight <= MAX_WEIGHT
      modifies tree, sched
      ensures Valid() && tree.f == old(tree.f)[s := Node(Null, [], weight)]
      ensures old(sched.Windows()) ==> sched.Windows()
    {
      tree.Init(s, weight);
      sched.Init(s, weight);
    }

    /** `nghttp2_stream_dep_add_subtree`. */
    method AddSubtree(dep: Sid, s: Sid)
      requires Free(dep, s)
      modifies tree, sched
      ensures Valid() && tree.f == Add(old(tree.f), dep, s) && SameItems(old(sched.st), sched.st)
      ensures Requeued(old(sched.st), sched.st)
      ensures old(sched.Windows()) ==> sched.Windows()
    {
      InBoth(s);
      UnderAnyRank(tree.f, tree.rank, sched.rank, s, dep);
      tree.Add(dep, s);
      sched.AddSubtree(dep, s);
    }

    /** `nghttp2_stream_dep_insert_subtree`. */
    method InsertSubtree(dep: Sid, s: Sid)
      requires Free(dep, s)
      modifies tree, sched
      ensures Valid() && tree.f == DepForest.Insert(old(tree.f), dep, s) && SameItems(old(sched.st), sched.st)
      ensures Requeued(old(sched.st), sched.st)
      ensures old(sched.Windows()) ==> sched.Windows()
    {
      InBoth(s);
      UnderAnyRank(tree.f, tree.rank, sched.rank, s, dep);
      tree.InsertSubtree(dep, s);
      sched.InsertSubtree(dep, s);
    }

    /** `nghttp2_stream_dep_insert` of a new stream. */
    method Insert(dep: Sid, s: Sid)
      requires Valid() && dep in tree.f && s in tree.f && dep != s && tree.f[s].parent.Null? && tree.f[s].kids == []
      requires s in sched.st && !Active(sched.st[s])
      modifies tree, sched
      ensures Valid() && tree.f == DepForest.Insert(old(tree.f), dep, s) && SameItems(old(sched.st), sched.st)
      ensures Requeued(old(sched.st), sched.st)
      ensures old(sched.Windows()) ==> sched.Windows()
    {
      InBoth(s);
      tree.Insert(dep, s);
      sched.Insert(dep, s);
    }

    /** `nghttp2_stream_dep_remove`: the weight shared out is that of the sum the pointers keep. */
    method Remove(s: Sid)
      requires Valid() && s in tree.f && tree.f[s].parent.At? && s in sched.st && !Active(sched.st[s])
      modifies tree, sched
      ensures ParentAgrees(old(tree.f), s) && KidsAgree(old(tree.f), s)
      ensures old(tree.f)[s].kids != [] ==> SumWeights(old(tree.f), old(tree.f)[s].kids) > 0
      ensures Valid() && tree.f == DepForest.Remove(old(tree.f), s) && SameItems(old(sched.st), sched.st)
      ensures FairShares(old(tree.f), tree.f, s) && SharesAddUp(old(tree.f), tree.f, s)
      ensures Requeued(old(sched.st), sched.st)
      ensures old(sched.Windows()) ==> sched.Windows()
    {
      InBoth(s);
      assert DepLinks.Shows(tree.l, tree.f, s);
      var sum := tree.l[s].sum;
      tree.Remove(s);
      sched.Remove(s, sum);
    }

    /** `nghttp2_stream_dep_remove_subtree`. */
    method RemoveSubtree(s: Sid)
      requires Valid() && s in tree.f && tree.f[s].parent.At?
      modifies tree, sched
      ensures ParentAgrees(old(tree.f), s)
      ensures Valid() && tree.f == DepForest.RemoveSubtree(old(tree.f), s) && SameItems(old(sched.st), sched.st)
      ensures Requeued(old(sched.st), sched.st)
      ensures old(sched.Windows()) ==> (sched.Windows() <==> Scheduler.Unharmed(old(sched.st), s))
    {
      InBoth(s);
      tree.RemoveSubtree(s);
      sched.RemoveSubtree(s);
    }

    /** `nghttp2_stream_change_weight`. */
    method ChangeWeight(s: Sid, weight: nat)
      requires Valid() && s in tree.f && 1 <= weight <= MAX_WEIGHT
      modifies tree, sched
      ensures Valid() && tree.f == old(tree.f)[s := old(tree.f)[s].(weight := weight)]
      ensures Scheduler.WeightChanged(old(sched.st), sched.st, s, weight)
      ensures old(sched.Windows()) ==> sched.Windows()
    {
      InBoth(s);
      tree.ChangeWeight(s, weight);
      sched.ChangeWeight(s, weight);
    }

    /** `nghttp2_session_reprioritize_stream`. */
    method Reprioritize(s: Sid, dep: Sid, weight: nat, exclusive: bool)
      requires Valid() && s in tree.f && dep in tree.f && s != dep && tree.f[s].parent.At? && 1 <= weight <= MAX_WEIGHT
      modifies tree, sched
      ensures Valid() && s in tree.f && dep in tree.f && Scheduler.Moved(old(tree.f), tree.f, s, dep, weight, exclusive)
      ensures SameItems(old(sched.st), sched.st)
      ensures old(sched.Windows()) ==>
                (sched.Windows() <==> Scheduler.MoveSafe(old(sched.st), old(sched.rank), s, dep, exclusive))
    {
      InBoth(s);
      InBoth(dep);
      UnderAnyRank(tree.f, tree.rank, sched.rank, s, dep);
      tree.Reprioritize(s, dep, weight, exclusive);
      sched.Reprioritize(s, dep, weight, exclusive);
    }

    /** `nghttp2_stream_attach_item`: the pointers stay. */
    method AttachItem(s: Sid)
      requires Valid() && s in sched.st && !sched.st[s].item && sched.st[s].deferred == {}
      modifies sched
      ensures Valid() && tree.f == old(tree.f) && Requeued(old(sched.st), sched.st)
      ensures SameShape(old(sched.st)[s := old(sched.st)[s].(item := true)], sched.st)
      ensures sched.st[s].parent.At? && !old(sched.st)[s].queued && s !in sched.tops ==>
                JoinedAtLast(old(sched.st), sched.st, s)
      ensures old(sched.Windows()) ==> sched.Windows()
    {
      sched.AttachItem(s);
    }

    /** `nghttp2_stream_detach_item`. */
    method DetachItem(s: Sid)
      requires Valid() && s in sched.st
      modifies sched
      ensures Valid() && tree.f == old(tree.f) && Requeued(old(sched.st), sched.st)
      ensures SameShape(old(sched.st)[s := old(sched.st)[s].(item := false, deferred := {})], sched.st)
      ensures old(sched.Windows()) ==> sched.Windows()
    {
      sched.DetachItem(s);
    }

    /** `nghttp2_stream_next_outbound_item`. */
    method NextOutboundItem(root: Sid) returns (r: Pq.Option<Sid>)
      requires Valid() && root in sched.st && sched.st[root].parent.Null?
      modifies sched
      ensures Valid() && tree.f == old(tree.f) && RightItem(sched.st, sched.rank, root, r)
      ensures TreeOk(old(sched.st), sched.rank) && SameShape(old(sched.st), sched.st)
      ensures r.Some? ==> r.value in old(sched.st) && Selected(old(sched.st), sched.st, sched.rank, r.value)
      ensures old(sched.Windows()) ==> sched.Windows()
    {
      ghost var st := sched.st;
      r := sched.NextOutboundItem(root);
      SameTree(st, sched.st);
    }

    /** `nghttp2_stream_reschedule`. */
    method Reschedule(s: Sid, len: nat)
      requires Valid() && s in sched.st && sched.st[s].queued && len <= MAX_FRAME
      modifies sched
      ensures Valid() && tree.f == old(tree.f) && SameShape(old(sched.st), sched.st)
      ensures TreeOk(old(sched.st), sched.rank) && Rescheduled(old(sched.st), sched.st, sched.rank, s, len)
      ensures old(sched.Windows()) ==> sched.Windows()
    {
      ghost var st := sched.st;
      sched.Reschedule(s, len);
      SameTree(st, sched.st);
    }

    lemma InBoth(s: Sid)
      requires Valid() && s in tree.f
      ensures s in sched.st && tree.f[s] == Node(sched.st[s].parent, sched.st[s].kids, sched.st[s].e.weight)
      ensures tree.f.Keys == sched.st.Keys
    {
    }
  }
}
