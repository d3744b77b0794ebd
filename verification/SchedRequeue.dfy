/**
  * Rescheduling a stream that has sent something, and all its ancestors, as lib/nghttp2_stream.c does.
  */
module SchedRequeue {
  import opened DepForest
  import opened VirtualTime
  import opened SchedState
  import SiblingRuns
  import Pq

  lemma {:induction false} UnderUp(f: Forest, rank: map<Sid, nat>, a: Sid, x: Sid)
    requires Wf(f, rank) && x in f && Under(f, rank, a, x) && a in f && f[a].parent.At?
    ensures Under(f, rank, f[a].parent.id, x)
    decreases rank[x]
  {
    assert ParentAgrees(f, x);
    if x == a {
      assert Under(f, rank, f[a].parent.id, f[a].parent.id);
    } else {
      UnderUp(f, rank, a, f[x].parent.id);
    }
  }

  /** The ancestors of a stream are in line. */
  lemma {:induction false} InLine(f: Forest, rank: map<Sid, nat>, y: Sid, s: Sid, x: Sid)
    requires Wf(f, rank) && x in f && Under(f, rank, y, x) && Under(f, rank, s, x) && y in rank && s in rank && s in f
    requires rank[y] <= rank[s]
    ensures Under(f, rank, y, s)
    decreases rank[x]
  {
    assert ParentAgrees(f, x);
    if x == y {
      UnderRank(f, rank, s, x);
    } else if x != s {
      InLine(f, rank, y, s, f[x].parent.id);
    }
  }

  // ------------------------------------------------- a stream that changes its place in a queue

  /** `nghttp2_pq_remove`, new scheduling fields `e`, and `nghttp2_pq_push`. */
  function Reput(st: State, p: Sid, s: Sid, e: Entry): State
    requires p in st && s in st
  {
    var rest := Pq.Removed(LessIn(st), st[p].obq, s);
    var st := st[s := st[s].(e := e)];
    st[p := st[p].(obq := Pq.Pushed(LessIn(st), rest, s))]
  }

  lemma ReputHolds(st: State, p: Sid, s: Sid, e: Entry, x: Sid)
    requires Queues(st, {}) && p in st && s in st && p != s && st[s].queued && st[s].parent == At(p) && x in st
    ensures var st' := Reput(st, p, s, e); HoldsKids(st', x) && IsHeld(st', x) && QueuedRight(st', x)
  {
    assert HoldsKids(st, p) && IsHeld(st, s) && HoldsKids(st, x) && IsHeld(st, x) && QueuedRight(st, x);
    assert s in Reput(st, p, s, e)[p].obq && s in st[p].obq;
  }

  lemma ReputEntries(st: State, p: Sid, s: Sid, e: Entry)
    requires p in st && s in st && p != s && s in st[p].obq && HoldsKids(st, p)
    ensures QueueOf(Reput(st, p, s, e), p).entries == (QueueOf(st, p).entries - {s})[s := e]
  {
  }

  /** In the queue of `p` that is the removal of `s` and its return. */
  lemma ReputQueue(st: State, p: Sid, s: Sid, e: Entry)
    requires p in st && s in st && p != s && s in st[p].obq && HoldsKids(st, p) && WfEntry(e)
    requires SiblingRuns.WfQueue(QueueOf(st, p))
    ensures QueueOf(Reput(st, p, s, e), p) ==
            SiblingRuns.Reput(Word, QueueOf(st, p), s, e)
  {
    var entries, rest := QueueOf(st, p).entries, Pq.Removed(LessIn(st), st[p].obq, s);
    RemovedIn(st, entries, st[p].obq, s);
    PushedIn(st[s := st[s].(e := e)], (entries - {s})[s := e], rest, s);
    ReputEntries(st, p, s, e);
  }

  lemma ReputElsewhere(st: State, p: Sid, s: Sid, e: Entry, x: Sid)
    requires p in st && s in st && p != s && x in st && x != p && s !in st[x].obq
    ensures QueueOf(Reput(st, p, s, e), x) == QueueOf(st, x)
  {
    QueueSame(st, Reput(st, p, s, e), x);
  }

  // ------------------------------------------------------------------------- rescheduling

  /** The body of the loop of `nghttp2_stream_reschedule`. */
  function RequeueOne(st: State, p: Sid, s: Sid, len: nat): State
    requires p in st && s in st && WfEntry(st[s].e) && len <= MAX_FRAME
  {
    var e := NextCycle(Word, st[s].e.(lastlen := len), st[p].last).(turn := st[p].nextTurn);
    Reput(st[p := st[p].(nextTurn := st[p].nextTurn + 1)], p, s, e)
  }

  /** A new sequence number. */
  lemma NextTurnQueues(st: State, p: Sid)
    requires Queues(st, {}) && Entries(st) && p in st
    ensures var st' := st[p := st[p].(nextTurn := st[p].nextTurn + 1)];
            && SameShape(st, st') && Entries(st') && Queues(st', {})
            && QueueOf(st', p) == QueueOf(st, p).(nextTurn := st[p].nextTurn + 1)
            && forall x {:trigger QueueOf(st', x)} :: x in st && x != p ==> QueueOf(st', x) == QueueOf(st, x)
  {
    var st' := st[p := st[p].(nextTurn := st[p].nextTurn + 1)];
    assert QueueOf(st', p).entries == QueueOf(st, p).entries;
    forall x {:trigger HoldsKids(st', x)} {:trigger IsHeld(st', x)} {:trigger QueuedRight(st', x)} | x in st'
      ensures HoldsKids(st', x) && IsHeld(st', x) && QueuedRight(st', x)
    {
      assert HoldsKids(st, x) && IsHeld(st, x) && QueuedRight(st, x);
    }
    forall x {:trigger QueueOf(st', x)} | x in st && x != p
      ensures QueueOf(st', x) == QueueOf(st, x)
    {
      QueueSame(st, st', x);
    }
  }

  lemma RequeueOneQueues(st: State, p: Sid, s: Sid, len: nat)
    requires Queues(st, {}) && Entries(st) && p in st && s in st && p != s && len <= MAX_FRAME
    requires st[s].queued && st[s].parent == At(p)
    ensures var st' := RequeueOne(st, p, s, len);
            SameShape(st, st') && Entries(st') && Queues(st', {})
  {
    var st' := RequeueOne(st, p, s, len);
    NextTurnQueues(st, p);
    var e := NextCycle(Word, st[s].e.(lastlen := len), st[p].last).(turn := st[p].nextTurn);
    forall x {:trigger HoldsKids(st', x)} {:trigger IsHeld(st', x)} {:trigger QueuedRight(st', x)} | x in st'
      ensures HoldsKids(st', x) && IsHeld(st', x) && QueuedRight(st', x)
    {
      ReputHolds(st[p := st[p].(nextTurn := st[p].nextTurn + 1)], p, s, e, x);
    }
  }

  /** The new scheduling fields are those the queue of `p` computes. */
  lemma RequeueOneIs(st: State, p: Sid, s: Sid, len: nat)
    requires p in st && s in st && p != s && s in st[p].obq && WfEntry(st[s].e) && len <= MAX_FRAME
    ensures s in QueueOf(st, p).entries && WfEntry(QueueOf(st, p).entries[s])
    ensures RequeueOne(st, p, s, len) ==
            Reput(st[p := st[p].(nextTurn := st[p].nextTurn + 1)], p, s,
                  SiblingRuns.NextEntry(Word, QueueOf(st, p), s, len))
  {
    assert QueueOf(st, p).entries[s] == st[s].e;
  }

  lemma RequeueOneQueue(st: State, p: Sid, s: Sid, len: nat)
    requires Queues(st, {}) && Entries(st) && p in st && s in st && p != s && s in st[p].obq && len <= MAX_FRAME
    requires SiblingRuns.WfQueue(QueueOf(st, p)) && WfEntry(st[s].e)
    ensures s in QueueOf(st, p).entries
    ensures QueueOf(RequeueOne(st, p, s, len), p) ==
            SiblingRuns.Apply(Word, QueueOf(st, p), SiblingRuns.Reschedule(s, len))
  {
    assert HoldsKids(st, p);
    NextTurnQueues(st, p);
    var st1 := st[p := st[p].(nextTurn := st[p].nextTurn + 1)];
    RequeueOneIs(st, p, s, len);
    var r := SiblingRuns.NextEntry(Word, QueueOf(st, p), s, len);
    assert HoldsKids(st1, p);
    ReputQueue(st1, p, s, r);
    SiblingRuns.RescheduleIs(QueueOf(st, p), s, len, QueueOf(st1, p), r);
  }

  lemma RequeueOneElsewhere(st: State, p: Sid, s: Sid, len: nat, x: Sid)
    requires p in st && s in st && p != s && WfEntry(st[s].e) && len <= MAX_FRAME && x in st && x != p &&
             s !in st[x].obq
    ensures QueueOf(RequeueOne(st, p, s, len), x) == QueueOf(st, x)
  {
    var st1 := st[p := st[p].(nextTurn := st[p].nextTurn + 1)];
    QueueSame(st, st1, x);
    ReputElsewhere(st1, p, s, NextCycle(Word, st[s].e.(lastlen := len), st[p].last).(turn := st[p].nextTurn), x);
  }

  /** `y` has been rescheduled in the queue of its parent. */
  ghost predicate RescheduledIn(st0: State, st: State, y: Sid, len: nat)
    requires y in st0
  {
    st0[y].parent.At? ==>
      var p := st0[y].parent.id;
      && p in st0 && p in st && SiblingRuns.WfQueue(QueueOf(st0, p)) && y in QueueOf(st0, p).entries && len <= MAX_FRAME
      && QueueOf(st, p) == SiblingRuns.Apply(Word, QueueOf(st0, p), SiblingRuns.Reschedule(y, len))
  }

  /**
    * The streams from `s0` up to but excluding `s` have been rescheduled, and no queue has changed
    * but those they are in.
    */
  ghost predicate RescheduledUpTo(st0: State, st: State, rank: map<Sid, nat>, s0: Sid, s: Sid, len: nat)
    requires TreeOk(st0, rank) && s0 in st0 && s in st0 && s in rank && st.Keys == st0.Keys
  {
    && Under(Tree(st0), rank, s, s0) && st[s].e == st0[s].e
    && (forall y {:trigger RescheduledIn(st0, st, y, len)} ::
          y in st0 && y in rank && Under(Tree(st0), rank, y, s0) && rank[y] > rank[s] ==>
            RescheduledIn(st0, st, y, len))
    && (forall x {:trigger QueueOf(st, x)} ::
          x in st0 && x in rank && (rank[x] < rank[s] || x == s0 || !Under(Tree(st0), rank, x, s0)) ==>
            QueueOf(st, x) == QueueOf(st0, x))
  }

  lemma RequeueStep(st0: State, st: State, rank: map<Sid, nat>, s0: Sid, s: Sid, p: Sid, len: nat)
    requires TreeOk(st0, rank) && Entries(st0) && s0 in st0 && s in st0 && p in st0 && st0[s].parent == At(p) && p != s
    requires s in rank && p in rank && rank[p] < rank[s] && len <= MAX_FRAME
    requires SameShape(st0, st) && Queues(st, {}) && Entries(st) && st[s].queued && st[p].e == st0[p].e
    requires RescheduledUpTo(st0, st, rank, s0, s, len)
    ensures RescheduledUpTo(st0, RequeueOne(st, p, s, len), rank, s0, p, len)
  {
    var st' := RequeueOne(st, p, s, len);
    var f := Tree(st0);
    assert st[s].parent == At(p);
    UnderUp(f, rank, s, s0);
    UnderRank(f, rank, s, s0);
    assert IsHeld(st, s) && HoldsKids(st, p);
    assert QueueOf(st, p) == QueueOf(st0, p);
    EntriesWf(st, p);
    RequeueOneQueue(st, p, s, len);
    forall x {:trigger QueueOf(st', x)} | x in st0 && x != p
      ensures QueueOf(st', x) == QueueOf(st, x)
    {
      assert HoldsKids(st, x);
      RequeueOneElsewhere(st, p, s, len, x);
    }
    forall y {:trigger RescheduledIn(st0, st', y, len)} | y in st0 && y in rank && Under(f, rank, y, s0) &&
      rank[y] > rank[p]
      ensures RescheduledIn(st0, st', y, len)
    {
      ParentAbove(st0, rank, s0, y, s, p);
      if y != s {
        assert RescheduledIn(st0, st, y, len);
      }
    }
  }

  /** Among the ancestors, only `s` and those below it are above rank `p`; none below has parent `p`. */
  lemma ParentAbove(st: State, rank: map<Sid, nat>, s0: Sid, y: Sid, s: Sid, p: Sid)
    requires TreeOk(st, rank) && s0 in st && y in st && s in st && p in st && y in rank && s in rank && p in rank
    requires Under(Tree(st), rank, y, s0) && Under(Tree(st), rank, s, s0) && st[s].parent == At(p) && rank[y] > rank[p]
    ensures y == s || (rank[y] > rank[s] && st[y].parent != At(p))
  {
    var f := Tree(st);
    ParentOf(st, rank, s);
    if rank[y] <= rank[s] {
      InLine(f, rank, y, s, s0);
      if y != s {
        assert ParentAgrees(f, s);
        UnderRank(f, rank, y, p);
      }
    } else {
      InLine(f, rank, s, y, s0);
      if st[y].parent == At(p) {
        assert ParentAgrees(f, y);
        UnderRank(f, rank, s, p);
      }
    }
  }

  /** The whole way up has been rescheduled when the root is reached. */
  ghost predicate Rescheduled(st0: State, st: State, rank: map<Sid, nat>, s0: Sid, len: nat)
    requires TreeOk(st0, rank) && s0 in st0 && st.Keys == st0.Keys
  {
    && (forall y {:trigger RescheduledIn(st0, st, y, len)} ::
          y in st0 && Under(Tree(st0), rank, y, s0) ==> RescheduledIn(st0, st, y, len))
    && (forall x {:trigger QueueOf(st, x)} ::
          x in st0 && (x == s0 || !Under(Tree(st0), rank, x, s0)) ==> QueueOf(st, x) == QueueOf(st0, x))
  }

  lemma RankedAll(st: State, rank: map<Sid, nat>, x: Sid)
    requires TreeOk(st, rank) && x in st
    ensures x in rank
  {
    assert Tree(st)[x] == Tree(st)[x];
  }

  lemma RequeueStart(st0: State, rank: map<Sid, nat>, s0: Sid, len: nat)
    requires TreeOk(st0, rank) && s0 in st0 && s0 in rank
    ensures RescheduledUpTo(st0, st0, rank, s0, s0, len)
  {
    forall y | y in st0 && y in rank && Under(Tree(st0), rank, y, s0)
      ensures rank[y] <= rank[s0]
    {
      UnderRank(Tree(st0), rank, y, s0);
    }
  }

  lemma RequeueEnd(st0: State, st: State, rank: map<Sid, nat>, s0: Sid, s: Sid, len: nat)
    requires TreeOk(st0, rank) && s0 in st0 && s in st0 && st0[s].parent.Null? && s in rank && st.Keys == st0.Keys
    requires RescheduledUpTo(st0, st, rank, s0, s, len)
    ensures Rescheduled(st0, st, rank, s0, len)
  {
    forall y {:trigger RescheduledIn(st0, st, y, len)} | y in st0 && Under(Tree(st0), rank, y, s0)
      ensures RescheduledIn(st0, st, y, len)
    {
      RankedAll(st0, rank, y);
      if rank[y] <= rank[s] {
        InLine(Tree(st0), rank, y, s, s0);
      }
    }
    forall x {:trigger QueueOf(st, x)} | x in st0 && (x == s0 || !Under(Tree(st0), rank, x, s0))
      ensures QueueOf(st, x) == QueueOf(st0, x)
    {
      RankedAll(st0, rank, x);
    }
  }

  /** A root notes the length; it is in no queue. */
  lemma RootLastlen(st: State, s: Sid, len: nat)
    requires Queues(st, {}) && Entries(st) && s in st && st[s].parent.Null? && len <= MAX_FRAME
    ensures var st' := st[s := st[s].(e := st[s].e.(lastlen := len))];
            && SameShape(st, st') && Entries(st') && Queues(st', {})
            && forall x :: x in st ==> QueueOf(st', x) == QueueOf(st, x)
  {
    var st' := st[s := st[s].(e := st[s].e.(lastlen := len))];
    forall x | x in st'
      ensures QueueOf(st', x) == QueueOf(st, x)
    {
      assert HoldsKids(st, x);
      QueueSame(st, st', x);
    }
    forall x {:trigger HoldsKids(st', x)} | x in st'
      ensures HoldsKids(st', x)
    {
      assert HoldsKids(st, x);
    }
    forall x {:trigger IsHeld(st', x)} | x in st'
      ensures IsHeld(st', x)
    {
      assert IsHeld(st, x);
    }
    forall x {:trigger QueuedRight(st', x)} | x in st'
      ensures QueuedRight(st', x)
    {
      assert QueuedRight(st, x);
    }
  }

  /** `s0` and its ancestors below `s` have been rescheduled. */
  ghost predicate Climbing(st0: State, st: State, rank: map<Sid, nat>, s0: Sid, s: Sid, len: nat)
    requires TreeOk(st0, rank) && s0 in st0
  {
    && Entries(st0) && s in st0 && s in rank && Under(Tree(st0), rank, s, s0) && len <= MAX_FRAME
    && SameShape(st0, st) && Entries(st) && Queues(st, {}) && OthersWait(st0, st, s)
    && RescheduledUpTo(st0, st, rank, s0, s, len) && (st0[s].parent.At? ==> st[s].queued)
    && forall x {:trigger st[x]} :: x in st0 && x in rank && rank[x] <= rank[s] ==> st[x].e == st0[x].e
  }

  lemma ClimbStep(st0: State, st: State, rank: map<Sid, nat>, s0: Sid, s: Sid, len: nat)
    requires TreeOk(st0, rank) && s0 in st0 && Climbing(st0, st, rank, s0, s, len) && st0[s].parent.At?
    ensures var p := st0[s].parent.id;
            p in st && p in rank && rank[p] < rank[s] && WfEntry(st[s].e) &&
            Climbing(st0, RequeueOne(st, p, s, len), rank, s0, p, len)
  {
    ParentOf(st0, rank, s);
    var p := st0[s].parent.id;
    assert st[s].parent == At(p) && IsHeld(st, s) && QueuedRight(st, p) && st[p].e == st0[p].e;
    assert Tree(st0)[s].parent == At(p) && st[p].parent == st0[p].parent;
    RequeueStep(st0, st, rank, s0, s, p, len);
    RequeueOneQueues(st, p, s, len);
    ShapeTrans(st0, st, RequeueOne(st, p, s, len));
    WaitStep(st0, st, p, s, len);
    UnderUp(Tree(st0), rank, s, s0);
  }

  /** At the root, which notes the length. */
  lemma ClimbEnd(st0: State, st: State, rank: map<Sid, nat>, s0: Sid, s: Sid, len: nat)
    requires TreeOk(st0, rank) && s0 in st0 && Climbing(st0, st, rank, s0, s, len) && st0[s].parent.Null?
    ensures var st' := st[s := st[s].(e := st[s].e.(lastlen := len))];
            && SameShape(st0, st') && Entries(st') && Queues(st', {}) && Rescheduled(st0, st', rank, s0, len)
            && OthersWait(st0, st', s)
  {
    var st' := st[s := st[s].(e := st[s].e.(lastlen := len))];
    RequeueEnd(st0, st, rank, s0, s, len);
    assert st[s].parent == st0[s].parent;
    RootLastlen(st, s, len);
    RescheduledSame(st0, st, st', rank, s0, len);
    ShapeTrans(st0, st, st');
  }

  /** `nghttp2_stream_reschedule` after `len` octets have been sent. */
  method RescheduleWalk(st0: State, s0: Sid, len: nat, ghost rank: map<Sid, nat>) returns (st: State, ghost top: Sid)
    requires TreeOk(st0, rank) && Entries(st0) && Queues(st0, {}) && s0 in st0 && st0[s0].queued && len <= MAX_FRAME
    ensures SameShape(st0, st) && Entries(st) && Queues(st, {}) && Rescheduled(st0, st, rank, s0, len)
    ensures top in st0 && st0[top].parent.Null? && Under(Tree(st0), rank, top, s0) && OthersWait(st0, st, top)
  {
    st := st0;
    var s, p := s0, st0[s0].parent;
    RankedAll(st0, rank, s0);
    RequeueStart(st0, rank, s0, len);
    while p.At?
      invariant Climbing(st0, st, rank, s0, s, len) && p == st0[s].parent
      decreases rank[s]
    {
      ClimbStep(st0, st, rank, s0, s, len);
      st := RequeueOne(st, p.id, s, len);
      s := p.id;
      assert st[s].parent == st0[s].parent;
      p := st[s].parent;
    }
    ClimbEnd(st0, st, rank, s0, s, len);
    st := st[s := st[s].(e := st[s].e.(lastlen := len))];
    top := s;
  }

  /** Whoever is in no queue stays so and keeps its fields, but for `top`. */
  ghost predicate OthersWait(st0: State, st: State, top: Sid) {
    st.Keys == st0.Keys &&
    forall x {:trigger st[x]} :: x in st0 ==>
      st[x].queued == st0[x].queued && (!st[x].queued && x != top ==> st[x].e == st0[x].e)
  }

  lemma WaitStep(st0: State, st: State, p: Sid, s: Sid, len: nat)
    requires OthersWait(st0, st, s) && p in st && s in st && p != s && st[s].queued
    requires WfEntry(st[s].e) && len <= MAX_FRAME
    ensures OthersWait(st0, RequeueOne(st, p, s, len), p)
  {
    var st' := RequeueOne(st, p, s, len);
    forall x {:trigger st'[x]} | x in st0
      ensures st'[x].queued == st0[x].queued && (!st'[x].queued && x != p ==> st'[x].e == st0[x].e)
    {
      assert st[x] == st[x];
    }
  }

  /** A reschedule leaves the streams outside of all queues as they were, but for the root of the tree. */
  lemma SettledWait(st0: State, st: State, top: Sid, tops: set<Sid>)
    requires OthersWait(st0, st, top) && Settled(st0, tops)
    ensures Settled(st, tops + {top})
  {
    forall x {:trigger st[x]} | x in st && x !in tops + {top} && !st[x].queued
      ensures Clear(st[x].e)
    {
      assert st0[x] == st0[x];
    }
  }

  lemma RescheduledSame(st0: State, st: State, st': State, rank: map<Sid, nat>, s0: Sid, len: nat)
    requires TreeOk(st0, rank) && s0 in st0 && st.Keys == st0.Keys && st'.Keys == st0.Keys
    requires Rescheduled(st0, st, rank, s0, len) && forall x :: x in st ==> QueueOf(st', x) == QueueOf(st, x)
    ensures Rescheduled(st0, st', rank, s0, len)
  {
    forall y {:trigger RescheduledIn(st0, st', y, len)} | y in st0 && Under(Tree(st0), rank, y, s0)
      ensures RescheduledIn(st0, st', y, len)
    {
      assert RescheduledIn(st0, st, y, len);
    }
  }

  lemma RescheduledWindows(st0: State, st: State, rank: map<Sid, nat>, s0: Sid, len: nat)
    requires TreeOk(st0, rank) && Queues(st0, {}) && s0 in st0 && st.Keys == st0.Keys &&
             Rescheduled(st0, st, rank, s0, len)
    requires Entries(st0) && len <= MAX_FRAME
    ensures KeepsWindows(st0, st)
  {
    forall x {:trigger QueueOf(st, x)} | x in st0 && Fits(QueueOf(st0, x))
      ensures Fits(QueueOf(st, x))
    {
      if x != s0 && Under(Tree(st0), rank, x, s0) {
        var y := ChildOnWay(st0, rank, x, s0);
        assert RescheduledIn(st0, st, y, len);
        FitsStep(QueueOf(st0, x), SiblingRuns.Reschedule(y, len));
      }
    }
  }

  lemma {:induction false} ChildOnWay(st: State, rank: map<Sid, nat>, a: Sid, x: Sid) returns (y: Sid)
    requires TreeOk(st, rank) && x in st && a != x && Under(Tree(st), rank, a, x)
    ensures y in st && st[y].parent == At(a) && Under(Tree(st), rank, y, x)
    decreases rank[x]
  {
    ParentOf(st, rank, x);
    if st[x].parent == At(a) {
      y := x;
    } else {
      y := ChildOnWay(st, rank, a, st[x].parent.id);
    }
  }
}
