/**
  * Fairness of the whole scheduler: runs in which the next item is chosen, sent and rescheduled, over
  * and over, seen from every queue of the dependency tree.
  */
module SchedFair {
  import opened DepForest
  import opened VirtualTime
  import opened SchedState
  import opened SchedSelect
  import opened SchedRequeue
  import SiblingRuns
  import Fairness

  // ------------------------------------------------------------------------ one round

  /** The queue of `p` has selected its front `y`, its earliest child and an ancestor of `s`, and rescheduled it. */
  ghost predicate RoundBy(st0: State, st: State, rank: map<Sid, nat>, s: Sid, len: nat, p: Sid, y: Sid)
    requires TreeOk(st0, rank) && s in st0 && p in st0 && p in st && len <= MAX_FRAME
  {
    var q := QueueOf(st0, p);
    && y in st0 && st0[y].parent == At(p) && Under(Tree(st0), rank, y, s)
    && SiblingRuns.WfQueue(q) && SiblingRuns.Earliest(Word, q, y) && InFront(q, y)
    && var q1 := SiblingRuns.Apply(Word, q, SiblingRuns.Select(y));
    && QueueOf(st, p) == SiblingRuns.Apply(Word, q1, SiblingRuns.Reschedule(y, len))
  }

  ghost predicate InFront(q: Siblings, y: Sid) {
    q.heap != [] && y == q.heap[0] && y in q.entries
  }

  /** What the choice of `s` and its `len` octets do to the queue of `p`. */
  ghost predicate RoundIn(st0: State, st: State, rank: map<Sid, nat>, s: Sid, len: nat, p: Sid)
    requires TreeOk(st0, rank) && s in st0 && p in st0 && p in st && len <= MAX_FRAME
  {
    if p != s && Under(Tree(st0), rank, p, s) then exists y :: RoundBy(st0, st, rank, s, len, p, y)
    else QueueOf(st, p) == QueueOf(st0, p)
  }

  ghost predicate Round(st0: State, st: State, rank: map<Sid, nat>, s: Sid, len: nat) {
    && TreeOk(st0, rank) && Queues(st0, {}) && Queues(st, {}) && Entries(st) && s in st0 && len <= MAX_FRAME
    && SameShape(st0, st)
    && forall p {:trigger RoundIn(st0, st, rank, s, len, p)} :: p in st0 ==> RoundIn(st0, st, rank, s, len, p)
  }

  /** A choice followed by a reschedule is a round. */
  lemma IsRound(st0: State, st1: State, st: State, rank: map<Sid, nat>, s: Sid, len: nat)
    requires TreeOk(st0, rank) && Queues(st0, {}) && s in st0 && len <= MAX_FRAME
    requires SameShape(st0, st1) && Selected(st0, st1, rank, s)
    requires SameShape(st1, st) && TreeOk(st1, rank) && Rescheduled(st1, st, rank, s, len) && Queues(st, {}) &&
             Entries(st)
    requires forall x {:trigger QueueOf(st0, x)} :: x in st0 ==> Fits(QueueOf(st0, x))
    ensures Round(st0, st, rank, s, len)
  {
    SameTree(st0, st1);
    ShapeTrans(st0, st1, st);
    forall p {:trigger RoundIn(st0, st, rank, s, len, p)} | p in st0
      ensures RoundIn(st0, st, rank, s, len, p)
    {
      if p != s && Under(Tree(st0), rank, p, s) {
        var y := ChildOnWay(st0, rank, p, s);
        assert SelectedIn(st0, st1, y) && RescheduledIn(st1, st, y, len) && st1[y].parent == st0[y].parent;
        assert Fits(QueueOf(st0, p));
        assert RoundBy(st0, st, rank, s, len, p, y);
      } else {
        assert QueueOf(st1, p) == QueueOf(st0, p);
      }
    }
  }

  /** Of two siblings at most one is above a stream. */
  lemma SiblingsApart(st: State, rank: map<Sid, nat>, p: Sid, x: Sid, y: Sid, s: Sid)
    requires TreeOk(st, rank) && s in st && x in st && y in st && st[x].parent == st[y].parent == At(p)
    requires Under(Tree(st), rank, x, s) && Under(Tree(st), rank, y, s)
    ensures x == y
  {
    ParentOf(st, rank, x);
    ParentOf(st, rank, y);
    if x != y {
      if rank[x] <= rank[y] {
        NotAbove(st, rank, p, x, y, s);
      } else {
        NotAbove(st, rank, p, y, x, s);
      }
    }
  }

  lemma NotAbove(st: State, rank: map<Sid, nat>, p: Sid, x: Sid, y: Sid, s: Sid)
    requires TreeOk(st, rank) && s in st && x in st && y in st && st[x].parent == st[y].parent == At(p) && p in st
    requires Under(Tree(st), rank, x, s) && Under(Tree(st), rank, y, s) && x in rank && y in rank && rank[x] <= rank[y]
    requires p in rank && rank[p] < rank[x]
    ensures x == y
  {
    InLine(Tree(st), rank, x, y, s);
    if x != y {
      assert Tree(st)[y].parent == At(p);
      UnderRank(Tree(st), rank, x, p);
    }
  }

  /** A child is above `s` only if its parent is, and is another stream. */
  lemma ParentToo(st: State, rank: map<Sid, nat>, p: Sid, a: Sid, s: Sid)
    requires TreeOk(st, rank) && s in st && a in st && st[a].parent == At(p) && Under(Tree(st), rank, a, s)
    ensures p != s && Under(Tree(st), rank, p, s)
  {
    ParentOf(st, rank, a);
    assert Tree(st)[a].parent == At(p);
    UnderUp(Tree(st), rank, a, s);
    if p == s {
      UnderRank(Tree(st), rank, a, p);
    }
  }

  // -------------------------------------------------------------------------- runs

  ghost predicate RoundAt(states: seq<State>, rank: map<Sid, nat>, served: seq<Sid>, lens: seq<nat>, i: nat)
    requires i < |served| == |lens| && i + 1 < |states|
  {
    Round(states[i], states[i + 1], rank, served[i], lens[i])
  }

  /** A run of rounds: `states` before, between and after them. */
  ghost predicate Rounds(states: seq<State>, rank: map<Sid, nat>, served: seq<Sid>, lens: seq<nat>) {
    && |served| == |lens| && |states| == |served| + 1
    && forall i {:trigger RoundAt(states, rank, served, lens, i)} ::
         0 <= i < |served| ==> RoundAt(states, rank, served, lens, i)
  }

  /** The octets sent by `a` and the streams below it. */
  ghost function Sent(f: Forest, rank: map<Sid, nat>, served: seq<Sid>, lens: seq<nat>, a: Sid): nat
    requires Wf(f, rank) && |served| == |lens| && forall i :: 0 <= i < |served| ==> served[i] in f
    decreases |served|
  {
    if served == [] then 0
    else
      (if Under(f, rank, a, served[0]) then lens[0] else 0) + Sent(f, rank, served[1..], lens[1..], a)
  }

  lemma RoundsRest(states: seq<State>, rank: map<Sid, nat>, served: seq<Sid>, lens: seq<nat>)
    requires Rounds(states, rank, served, lens) && served != []
    ensures Round(states[0], states[1], rank, served[0], lens[0])
    ensures Rounds(states[1..], rank, served[1..], lens[1..])
  {
    assert RoundAt(states, rank, served, lens, 0);
    var rest, served', lens' := states[1..], served[1..], lens[1..];
    forall i {:trigger RoundAt(rest, rank, served', lens', i)} | 0 <= i < |served'|
      ensures RoundAt(rest, rank, served', lens', i)
    {
      assert RoundAt(states, rank, served, lens, i + 1);
    }
  }

  /** Everybody chosen in a run is in the tree, which is the same all along. */
  lemma {:induction false} ServedInTree(states: seq<State>, rank: map<Sid, nat>, served: seq<Sid>, lens: seq<nat>)
    requires Rounds(states, rank, served, lens)
    ensures forall i {:trigger served[i]} :: 0 <= i < |served| ==> served[i] in states[0]
    decreases |served|
  {
    if served != [] {
      RoundsRest(states, rank, served, lens);
      ServedInTree(states[1..], rank, served[1..], lens[1..]);
      forall i {:trigger served[i]} | 0 <= i < |served|
        ensures served[i] in states[0]
      {
        assert i > 0 ==> served[1..][i - 1] == served[i];
      }
    }
  }

  /** The events `evs` on the queue `q` are the run, and serve each child with what is sent below it. */
  ghost predicate Traces(q: Siblings, evs: seq<SiblingRuns.Event>, f: Forest, rank: map<Sid, nat>,
                         served: seq<Sid>, lens: seq<nat>)
    requires Wf(f, rank) && |served| == |lens| && forall i :: 0 <= i < |served| ==> served[i] in f
  {
    && SiblingRuns.WfQueue(q) && SiblingRuns.Possible(q, evs)
    && forall a {:trigger q.entries[a]} :: a in q.entries ==>
         Fairness.Stays(q, evs, a) && Fairness.Served(evs, a) == Sent(f, rank, served, lens, a)
  }

  /** The two events of a round before the events `evs`. */
  ghost function WithRound(y: Sid, len: nat, evs: seq<SiblingRuns.Event>): seq<SiblingRuns.Event> {
    [SiblingRuns.Select(y), SiblingRuns.Reschedule(y, len)] + evs
  }

  lemma RoundFirst(q: Siblings, y: Sid, len: nat, evs: seq<SiblingRuns.Event>)
    requires SiblingRuns.WfQueue(q) && InFront(q, y) && len <= MAX_FRAME
    requires var q1 := SiblingRuns.Apply(Word, q, SiblingRuns.Select(y));
             SiblingRuns.Possible(SiblingRuns.Apply(Word, q1, SiblingRuns.Reschedule(y, len)), evs)
    ensures SiblingRuns.Possible(q, WithRound(y, len, evs))
  {
    var all := WithRound(y, len, evs);
    var q1 := SiblingRuns.Apply(Word, q, SiblingRuns.Select(y));
    assert all[1..][1..] == evs && all[1..][0] == SiblingRuns.Reschedule(y, len);
    assert SiblingRuns.Possible(q1, all[1..]);
  }

  lemma RoundStays(q: Siblings, y: Sid, len: nat, evs: seq<SiblingRuns.Event>, a: Sid)
    requires SiblingRuns.WfQueue(q) && InFront(q, y) && len <= MAX_FRAME && a in q.entries
    requires var q1 := SiblingRuns.Apply(Word, q, SiblingRuns.Select(y));
             var q2 := SiblingRuns.Apply(Word, q1, SiblingRuns.Reschedule(y, len));
             SiblingRuns.Possible(q2, evs) && Fairness.Stays(q2, evs, a)
    ensures SiblingRuns.Possible(q, WithRound(y, len, evs)) && Fairness.Stays(q, WithRound(y, len, evs), a)
    ensures Fairness.Served(WithRound(y, len, evs), a) == Fairness.Served(evs, a) + if y == a then len else 0
  {
    RoundFirst(q, y, len, evs);
    var all := WithRound(y, len, evs);
    assert all[1..][1..] == evs && all[1..][0] == SiblingRuns.Reschedule(y, len);
  }

  /** What a round adds to the octets of the children of `p`. */
  lemma RoundSent(st: State, rank: map<Sid, nat>, served: seq<Sid>, lens: seq<nat>, p: Sid, a: Sid)
    requires TreeOk(st, rank) && |served| == |lens| > 0 && a in st && st[a].parent == At(p) && p in st
    requires forall i :: 0 <= i < |served| ==> served[i] in Tree(st)
    ensures Sent(Tree(st), rank, served, lens, a) ==
            Sent(Tree(st), rank, served[1..], lens[1..], a) +
            if Under(Tree(st), rank, a, served[0]) then lens[0] else 0
    ensures Under(Tree(st), rank, a, served[0]) ==> p != served[0] && Under(Tree(st), rank, p, served[0])
  {
    if Under(Tree(st), rank, a, served[0]) {
      ParentToo(st, rank, p, a, served[0]);
    }
  }

  lemma TraceMore(st: State, st1: State, rank: map<Sid, nat>, served: seq<Sid>, lens: seq<nat>, p: Sid,
                  evs: seq<SiblingRuns.Event>)
    returns (all: seq<SiblingRuns.Event>)
    requires served != [] && |served| == |lens| && Entries(st) && p in st && Tree(st1) == Tree(st)
    requires Round(st, st1, rank, served[0], lens[0]) && forall i :: 0 <= i < |served| ==> served[i] in Tree(st)
    requires forall i :: 0 <= i < |served[1..]| ==> served[1..][i] in Tree(st)
    requires Traces(QueueOf(st1, p), evs, Tree(st), rank, served[1..], lens[1..])
    ensures Traces(QueueOf(st, p), all, Tree(st), rank, served, lens)
  {
    var s, len := served[0], lens[0];
    assert RoundIn(st, st1, rank, s, len, p) && HoldsKids(st, p);
    EntriesWf(st, p);
    if p != s && Under(Tree(st), rank, p, s) {
      var y :| RoundBy(st, st1, rank, s, len, p, y);
      all := WithRound(y, len, evs);
      TraceOnWay(st, st1, rank, served, lens, p, y, evs);
    } else {
      all := evs;
      var q := QueueOf(st, p);
      forall a {:trigger q.entries[a]} | a in q.entries
        ensures Fairness.Stays(q, all, a) && Fairness.Served(all, a) == Sent(Tree(st), rank, served, lens, a)
      {
        RoundSent(st, rank, served, lens, p, a);
      }
    }
  }

  lemma TraceOnWay(st: State, st1: State, rank: map<Sid, nat>, served: seq<Sid>, lens: seq<nat>, p: Sid, y: Sid,
                   evs: seq<SiblingRuns.Event>)
    requires served != [] && |served| == |lens| && p in st && p in st1 && TreeOk(st, rank) && HoldsKids(st, p)
    requires served[0] in st && lens[0] <= MAX_FRAME && RoundBy(st, st1, rank, served[0], lens[0], p, y)
    requires forall i :: 0 <= i < |served| ==> served[i] in Tree(st)
    requires forall i :: 0 <= i < |served[1..]| ==> served[1..][i] in Tree(st)
    requires Traces(QueueOf(st1, p), evs, Tree(st), rank, served[1..], lens[1..])
    ensures Traces(QueueOf(st, p), WithRound(y, lens[0], evs), Tree(st), rank, served, lens)
  {
    var q, q', s, len := QueueOf(st, p), QueueOf(st1, p), served[0], lens[0];
    var all := WithRound(y, len, evs);
    RoundFirst(q, y, len, evs);
    forall a {:trigger q.entries[a]} | a in q.entries
      ensures Fairness.Stays(q, all, a) && Fairness.Served(all, a) == Sent(Tree(st), rank, served, lens, a)
    {
      assert q'.entries[a] == q'.entries[a];
      RoundStays(q, y, len, evs, a);
      RoundSent(st, rank, served, lens, p, a);
      if Under(Tree(st), rank, a, s) {
        SiblingsApart(st, rank, p, a, y, s);
      }
    }
  }

  /** Every queue has its trace of the run. */
  lemma {:induction false} QueueTrace(states: seq<State>, rank: map<Sid, nat>, served: seq<Sid>, lens: seq<nat>, p: Sid)
    returns (evs: seq<SiblingRuns.Event>)
    requires Rounds(states, rank, served, lens) && TreeOk(states[0], rank) && Entries(states[0]) && p in states[0]
    requires HoldsKids(states[0], p)
    ensures forall i {:trigger served[i]} :: 0 <= i < |served| ==> served[i] in Tree(states[0])
    ensures Traces(QueueOf(states[0], p), evs, Tree(states[0]), rank, served, lens)
    decreases |served|
  {
    var st := states[0];
    ServedInTree(states, rank, served, lens);
    EntriesWf(st, p);
    if served == [] {
      evs := [];
    } else {
      RoundsRest(states, rank, served, lens);
      SameTree(st, states[1]);
      assert HoldsKids(states[1], p);
      evs := QueueTrace(states[1..], rank, served[1..], lens[1..], p);
      evs := TraceMore(st, states[1], rank, served, lens, p, evs);
    }
  }

  /**
    * In a run of rounds of any length, two queued siblings and what is below them are served in the
    * proportion of their weights, up to a constant.
    */
  lemma RunsAreFair(states: seq<State>, rank: map<Sid, nat>, served: seq<Sid>, lens: seq<nat>, p: Sid, a: Sid, b: Sid)
    requires Rounds(states, rank, served, lens) && TreeOk(states[0], rank) && Entries(states[0]) && p in states[0]
    requires HoldsKids(states[0], p) && Fits(QueueOf(states[0], p)) && a in states[0][p].obq && b in states[0][p].obq
    ensures a in states[0] && b in states[0]
    ensures forall i {:trigger served[i]} :: 0 <= i < |served| ==> served[i] in Tree(states[0])
    ensures var f := Tree(states[0]);
            Fairness.Fair(f[a].weight, f[b].weight, Sent(f, rank, served, lens, a), Sent(f, rank, served, lens, b))
  {
    var q := QueueOf(states[0], p);
    var evs := QueueTrace(states, rank, served, lens, p);
    var u :| SiblingRuns.Inv(u) && SiblingRuns.WrapAll(u) == q;
    assert q.entries[a] == q.entries[a] && q.entries[b] == q.entries[b];
    Fairness.FairFrom(u, evs, a, b);
  }

  ghost predicate SharedFairly(st: State, rank: map<Sid, nat>, served: seq<Sid>, lens: seq<nat>, a: Sid, b: Sid)
    requires TreeOk(st, rank) && |served| == |lens| && a in st && b in st
    requires forall i {:trigger served[i]} :: 0 <= i < |served| ==> served[i] in Tree(st)
  {
    var f := Tree(st);
    Fairness.Fair(f[a].weight, f[b].weight, Sent(f, rank, served, lens, a), Sent(f, rank, served, lens, b))
  }

  /** In a run from `st` any two queued siblings share fairly. */
  ghost predicate FairRun(st: State, rank: map<Sid, nat>, served: seq<Sid>, lens: seq<nat>) {
    && TreeOk(st, rank) && |served| == |lens| &&
       (forall i {:trigger served[i]} :: 0 <= i < |served| ==> served[i] in Tree(st))
    && forall p, a, b {:trigger a in st[p].obq, b in st[p].obq} ::
         p in st && a in st[p].obq && b in st[p].obq && a in st && b in st ==>
           SharedFairly(st, rank, served, lens, a, b)
  }

  lemma AllFair(states: seq<State>, rank: map<Sid, nat>, served: seq<Sid>, lens: seq<nat>)
    requires Rounds(states, rank, served, lens) && TreeOk(states[0], rank) && Entries(states[0]) &&
             Queues(states[0], {})
    requires forall x {:trigger QueueOf(states[0], x)} :: x in states[0] ==> Fits(QueueOf(states[0], x))
    ensures FairRun(states[0], rank, served, lens)
  {
    var st := states[0];
    ServedInTree(states, rank, served, lens);
    assert forall i {:trigger served[i]} :: 0 <= i < |served| ==> served[i] in Tree(st);
    forall p, a, b {:trigger a in st[p].obq, b in st[p].obq} |
        p in st && a in st[p].obq && b in st[p].obq && a in st && b in st
      ensures SharedFairly(st, rank, served, lens, a, b)
    {
      assert HoldsKids(st, p) && Fits(QueueOf(st, p));
      RunsAreFair(states, rank, served, lens, p, a, b);
    }
  }

  /** One more round. */
  lemma RoundsMore(states: seq<State>, rank: map<Sid, nat>, served: seq<Sid>, lens: seq<nat>, st: State, s: Sid,
                   len: nat)
    requires Rounds(states, rank, served, lens) && Round(states[|served|], st, rank, s, len)
    ensures Rounds(states + [st], rank, served + [s], lens + [len])
  {
    var states', served', lens' := states + [st], served + [s], lens + [len];
    forall i {:trigger RoundAt(states', rank, served', lens', i)} | 0 <= i < |served'|
      ensures RoundAt(states', rank, served', lens', i)
    {
      assert i < |served| ==> RoundAt(states, rank, served, lens, i);
    }
  }

  lemma RoundsNext(states: seq<State>, rank: map<Sid, nat>, served: seq<Sid>, lens: seq<nat>, i: nat, st: State, s: Sid)
    requires i < |lens| && Rounds(states, rank, served, lens[..i]) && Round(states[i], st, rank, s, lens[i])
    ensures Rounds(states + [st], rank, served + [s], lens[..i + 1])
    ensures (states + [st])[0] == states[0] && (states + [st])[i + 1] == st
  {
    RoundsMore(states, rank, served, lens[..i], st, s, lens[i]);
    assert lens[..i + 1] == lens[..i] + [lens[i]];
  }

  /** A root that sends is in no queue, so there is nothing to reschedule. */
  lemma RootRound(st0: State, st: State, rank: map<Sid, nat>, s: Sid, len: nat)
    requires TreeOk(st0, rank) && Queues(st0, {}) && s in st0 && st0[s].parent.Null? && len <= MAX_FRAME
    requires SameShape(st0, st) && Selected(st0, st, rank, s) && Queues(st, {}) && Entries(st)
    ensures Round(st0, st, rank, s, len)
  {
    forall p {:trigger RoundIn(st0, st, rank, s, len, p)} | p in st0
      ensures RoundIn(st0, st, rank, s, len, p)
    {
      assert Tree(st0)[s].parent.Null?;
    }
  }
}
