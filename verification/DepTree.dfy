/**
  * The dependency tree object: streams linked by pointers, with every `dep_*` operation of
  * lib/nghttp2_stream.c proved to make the matching edit of a well-formed forest.
  */
module DepTree {
  import opened DepForest
  import opened DepLinks

  /** Cutting a subtree off makes no new ancestors. */
  lemma {:induction false} UnderCut(f: Forest, rank: map<Id, nat>, s: Id, a: Id, x: Id)
    requires Wf(f, rank) && s in f && f[s].parent.At? && ParentAgrees(f, s) && x in f
    requires Wf(RemoveSubtree(f, s), rank) && Under(RemoveSubtree(f, s), rank, a, x)
    ensures Under(f, rank, a, x)
    decreases rank[x]
  {
    var g := RemoveSubtree(f, s);
    if x != a {
      assert ParentAgrees(g, x) && ParentAgrees(f, x) && g[x].parent == f[x].parent;
      UnderCut(f, rank, s, a, g[x].parent.id);
    }
  }

  /** Moving a stream out from under `s` puts nothing new under `s`. */
  lemma {:induction false} UnderKept(f: Forest, rank: map<Id, nat>, g: Forest, rank': map<Id, nat>, s: Id, dep: Id,
                                     x: Id)
    requires Wf(f, rank) && Wf(g, rank') && g.Keys == f.Keys && x in g && dep in g
    requires forall y {:trigger g[y]} :: y in g && y != dep ==> g[y].parent == f[y].parent
    requires !Under(g, rank', s, dep) && Under(g, rank', s, x)
    ensures Under(f, rank, s, x)
    decreases rank'[x]
  {
    if x != s {
      assert ParentAgrees(g, x) && ParentAgrees(f, x) && g[x].parent == f[x].parent;
      UnderKept(f, rank, g, rank', s, dep, g[x].parent.id);
    }
  }

  /** `s` with its subtree taken out of the tree. */
  ghost function CutOff(f: Forest, s: Id): (g: Forest)
    requires s in f
    ensures g.Keys == f.Keys
  {
    if f[s].parent.At? && ParentAgrees(f, s) then RemoveSubtree(f, s) else f
  }

  /** `dep` beside `s`. */
  ghost function Beside(f: Forest, s: Id, dep: Id): (g: Forest)
    requires s in f && dep in f
    ensures g.Keys == f.Keys
  {
    if f[s].parent.At? && f[s].parent.id in f then Add(CutOff(f, dep), f[s].parent.id, dep) else f
  }

  /** `s` with a new weight below `dep`. */
  ghost function Shift(f: Forest, s: Id, dep: Id, weight: nat, exclusive: bool): (g: Forest)
    requires s in f && dep in f
    ensures g.Keys == f.Keys
  {
    var g := CutOff(f, s);
    var h := g[s := g[s].(weight := weight)];
    if exclusive then Insert(h, dep, s) else Add(h, dep, s)
  }

  /** The tree after `nghttp2_session_reprioritize_stream`; `cycle` tells whether `dep` was below `s`. */
  ghost function Reprioritized(f: Forest, cycle: bool, s: Id, dep: Id, weight: nat, exclusive: bool): (g: Forest)
    requires s in f && dep in f
    ensures g.Keys == f.Keys
  {
    var f1 := if cycle then Beside(f, s, dep) else f;
    if f1[s].parent == At(dep) && !exclusive then f1[s := f1[s].(weight := weight)]
    else Shift(f1, s, dep, weight, exclusive)
  }

  /** A stream that is not below `dep` has the ancestors it had. */
  lemma {:induction false} UnderAlso(f: Forest, rank: map<Id, nat>, g: Forest, rank': map<Id, nat>, a: Id, dep: Id,
                                     x: Id)
    requires Wf(f, rank) && Wf(g, rank') && g.Keys == f.Keys && x in g
    requires forall y {:trigger g[y]} :: y in g && y != dep ==> g[y].parent == f[y].parent
    requires !Under(f, rank, dep, x) && Under(f, rank, a, x)
    ensures Under(g, rank', a, x)
    decreases rank[x]
  {
    if x != a {
      assert ParentAgrees(g, x) && ParentAgrees(f, x) && g[x].parent == f[x].parent;
      UnderAlso(f, rank, g, rank', a, dep, f[x].parent.id);
    }
  }

  /** What was below `dep` still is. */
  lemma {:induction false} BelowStays(f: Forest, rank: map<Id, nat>, g: Forest, rank': map<Id, nat>, dep: Id, x: Id)
    requires Wf(f, rank) && Wf(g, rank') && g.Keys == f.Keys && x in g
    requires forall y {:trigger g[y]} :: y in g && y != dep ==> g[y].parent == f[y].parent
    requires Under(f, rank, dep, x)
    ensures Under(g, rank', dep, x)
    decreases rank[x]
  {
    if x != dep {
      assert ParentAgrees(g, x) && ParentAgrees(f, x) && g[x].parent == f[x].parent;
      BelowStays(f, rank, g, rank', dep, f[x].parent.id);
    }
  }

  lemma {:induction false} UnderTrans(f: Forest, rank: map<Id, nat>, a: Id, b: Id, x: Id)
    requires Wf(f, rank) && b in f && x in f && Under(f, rank, a, b) && Under(f, rank, b, x)
    ensures Under(f, rank, a, x) && (a != b ==> a != x)
    decreases rank[x]
  {
    assert ParentAgrees(f, x);
    if x != b {
      UnderTrans(f, rank, a, b, f[x].parent.id);
    }
    UnderRank(f, rank, a, b);
    UnderRank(f, rank, b, x);
  }

  /** A stream below another one has a parent. */
  lemma HasParent(f: Forest, rank: map<Id, nat>, s: Id, dep: Id)
    requires Wf(f, rank) && dep in f && s != dep && Under(f, rank, s, dep)
    ensures f[dep].parent.At? && ParentAgrees(f, dep)
  {
    assert ParentAgrees(f, dep);
  }

  /** A stream below `s`, cut off, is not above the parent of `s`. */
  lemma CutAside(f: Forest, rank: map<Id, nat>, s: Id, dep: Id, p: Id)
    requires Wf(f, rank) && s in f && dep in f && p in f && f[s].parent == At(p) && Under(f, rank, s, dep)
    requires f[dep].parent.At? && ParentAgrees(f, dep)
    ensures Wf(RemoveSubtree(f, dep), rank) && !Under(RemoveSubtree(f, dep), rank, dep, p)
  {
    assert ParentAgrees(f, s);
    RemoveSubtreeWf(f, rank, dep);
    UnderRank(f, rank, s, dep);
    if Under(RemoveSubtree(f, dep), rank, dep, p) {
      UnderCut(f, rank, dep, dep, p);
      UnderRank(f, rank, dep, p);
    }
  }

  /** A stream is not above its own parent. */
  lemma NotAboveParent(f: Forest, rank: map<Id, nat>, s: Id, x: Id)
    requires Wf(f, rank) && s in f && x in f && f[s].parent == At(x)
    ensures !Under(f, rank, s, x)
  {
    if Under(f, rank, s, x) {
      UnderRank(f, rank, s, x);
    }
  }

  /**
    * All but `s` and `dep` keep weight and parent, except that an exclusive dependency hands the other
    * children of `dep` to `s`.
    */
  ghost predicate Elsewhere(f: Forest, g: Forest, s: Id, dep: Id, exclusive: bool) {
    g.Keys == f.Keys &&
    forall x {:trigger g[x]} :: x in g && x != s && x != dep ==>
      && g[x].weight == f[x].weight
      && g[x].parent == if exclusive && f[x].parent == At(dep) then At(s) else f[x].parent
  }

  lemma MovedElsewhere(f: Forest, rank: map<Id, nat>, s: Id, dep: Id, weight: nat, exclusive: bool, g: Forest)
    requires Wf(f, rank) && s in f && dep in f && s != dep && f[s].parent.At? && ParentAgrees(f, s)
    requires var f1 := RemoveSubtree(f, s);
             var f2 := f1[s := f1[s].(weight := weight)];
             g == if exclusive then Insert(f2, dep, s) else Add(f2, dep, s)
    ensures g[s].parent == At(dep) && g[s].weight == weight && (exclusive ==> g[dep].kids == [s])
    ensures g[dep].parent == f[dep].parent && g[dep].weight == f[dep].weight && Elsewhere(f, g, s, dep, exclusive)
  {
    assert f[dep].parent != At(dep) by {
      if f[dep].parent == At(dep) {
        NotAboveParent(f, rank, dep, dep);
      }
    }
  }

  lemma ElsewhereAfter(f: Forest, g: Forest, h: Forest, s: Id, dep: Id, exclusive: bool)
    requires Elsewhere(g, h, s, dep, exclusive) && g.Keys == f.Keys
    requires forall x {:trigger g[x]} :: x in g ==>
               g[x].weight == f[x].weight && (x != dep ==> g[x].parent == f[x].parent)
    ensures Elsewhere(f, h, s, dep, exclusive)
  {
    forall x {:trigger h[x]} | x in h && x != s && x != dep
      ensures h[x].weight == f[x].weight
      ensures h[x].parent == if exclusive && f[x].parent == At(dep) then At(s) else f[x].parent
    {
      assert g[x] == g[x];
    }
  }

  class Tree {
    var l: Heap
    ghost var f: Forest
    ghost var rank: map<Id, nat>

    /** The links show the well-formed forest `f`, and every sum is the sum of the children's weights. */
    ghost predicate Valid()
      reads this
    {
      Wf(f, rank) && Represents(l, f)
    }

    /** Only the root stream. */
    constructor (root: Id)
      ensures Valid() && f == map[root := Node(Null, [], 16)]
    {
      l := map[root := Links(Null, Null, Null, Null, 16, 0)];
      f := map[root := Node(Null, [], 16)];
      rank := map[root := 0];
      new;
      assert Shows(l, f, root);
      assert KidsAgree(f, root) && ParentAgrees(f, root);
    }

    /** `nghttp2_stream_init`: a stream outside the tree. */
    method Init(s: Id, weight: nat)
      requires Valid() && s !in f && 1 <= weight <= 256
      modifies this
      ensures Valid() && f == old(f)[s := Node(Null, [], weight)]
    {
      l := l[s := Links(Null, Null, Null, Null, weight, 0)];
      f := f[s := Node(Null, [], weight)];
      rank := rank[s := 0];
      InitShows(old(l), old(f), old(rank), s, weight);
    }

    /** `nghttp2_stream_dep_find_ancestor`. */
    method FindAncestor(stream: Id, target: Id) returns (found: bool)
      requires Valid() && stream in f
      ensures found == Under(f, rank, target, stream)
    {
      var x := stream;
      while true
        invariant x in f && Under(f, rank, target, stream) == Under(f, rank, target, x)
        decreases rank[x]
      {
        assert Shows(l, f, x) && ParentAgrees(f, x);
        if x == target {
          return true;
        }
        if l[x].depPrev.Null? {
          return false;
        }
        x := l[x].depPrev.id;
      }
    }

    /** `nghttp2_stream_dep_add` and `nghttp2_stream_dep_add_subtree`. */
    method Add(dep: Id, s: Id)
      requires Valid() && dep in f && s in f && f[s].parent.Null? && !Under(f, rank, s, dep)
      modifies this
      ensures Valid() && f == DepForest.Add(old(f), dep, s)
    {
      FirstKid(l, f, rank, dep);
      AddShows(l, f, rank, dep, s);
      AddWf(f, rank, dep, s);
      l := AddLinks(l, dep, s);
      f, rank := DepForest.Add(f, dep, s), AddRank(f, rank, dep, s);
    }

    /** `nghttp2_stream_dep_insert`. */
    method Insert(dep: Id, s: Id)
      requires Valid() && dep in f && s in f && dep != s && f[s].parent.Null? && f[s].kids == []
      modifies this
      ensures Valid() && f == DepForest.Insert(old(f), dep, s)
    {
      LeafAbove(f, rank, s, dep);
      CanInsert(l, f, rank, dep, s);
      InsertShows(l, f, rank, dep, s);
      InsertWf(f, rank, dep, s);
      assert Shows(l, f, s);
      l := InsertStream(l, dep, s, f[dep].kids);
      f, rank := DepForest.Insert(f, dep, s), InsertRank(f, rank, dep, s);
    }

    /** `nghttp2_stream_dep_insert_subtree`. */
    method InsertSubtree(dep: Id, s: Id)
      requires Valid() && dep in f && s in f && f[s].parent.Null? && !Under(f, rank, s, dep)
      modifies this
      ensures Valid() && f == DepForest.Insert(old(f), dep, s)
    {
      CanInsert(l, f, rank, dep, s);
      InsertShows(l, f, rank, dep, s);
      InsertWf(f, rank, dep, s);
      l := DepLinks.InsertSubtree(l, dep, s, f[s].kids, f[dep].kids);
      f, rank := DepForest.Insert(f, dep, s), InsertRank(f, rank, dep, s);
    }

    /** `nghttp2_stream_dep_remove`. */
    method Remove(s: Id)
      requires Valid() && s in f && f[s].parent.At?
      modifies this
      ensures ParentAgrees(old(f), s) && KidsAgree(old(f), s)
      ensures old(f)[s].kids != [] ==> SumWeights(old(f), old(f)[s].kids) > 0
      ensures Valid() && f == DepForest.Remove(old(f), s)
      ensures FairShares(old(f), f, s) && SharesAddUp(old(f), f, s)
    {
      assert ParentAgrees(f, s) && KidsAgree(f, s);
      SumPositive(f, rank, s);
      SharesExactly(f, rank, s);
      RemoveWf(f, rank, s);
      l := RemoveStream(l, s, f, rank);
      f := DepForest.Remove(f, s);
    }

    /** `nghttp2_stream_dep_remove_subtree`. */
    method RemoveSubtree(s: Id)
      requires Valid() && s in f && f[s].parent.At?
      modifies this
      ensures ParentAgrees(old(f), s)
      ensures Valid() && f == DepForest.RemoveSubtree(old(f), s) && rank == old(rank)
    {
      assert ParentAgrees(f, s);
      RemoveSubtreeWf(f, rank, s);
      ghost var gp, pre, post := Place(l, f, rank, s);
      BypassSplices(l, f, rank, s, gp, pre, post);
      CutShows(l, f, rank, s, gp, pre, post);
      var p := l[s].depPrev.id;
      l := CutLinks(Bypass(l, p, s), p, s);
      f := DepForest.RemoveSubtree(f, s);
    }

    /** The weights changed by `nghttp2_stream_change_weight`. */
    method ChangeWeight(s: Id, weight: nat)
      requires Valid() && s in f && 1 <= weight <= 256
      modifies this
      ensures Valid() && f == old(f)[s := old(f)[s].(weight := weight)] && rank == old(rank)
    {
      assert Shows(l, f, s) && ParentAgrees(f, s);
      WeightShows(l, f, rank, s, weight);
      WeightWf(f, rank, s, weight);
      l := WeightLinks(l, s, weight);
      f := f[s := f[s].(weight := weight)];
    }

    /** A dependency on a stream below `s`: that stream first takes a place beside `s`. */
    method BreakCycle(s: Id, dep: Id)
      requires Valid() && s in f && dep in f && s != dep && f[s].parent.At? && Under(f, rank, s, dep)
      modifies this
      ensures Valid() && f.Keys == old(f).Keys && !Under(f, rank, s, dep)
      ensures f[s].parent == old(f)[s].parent == f[dep].parent && f == Beside(old(f), s, dep)
      ensures forall x {:trigger f[x]} :: x in f ==>
                f[x].weight == old(f)[x].weight && (x != dep ==> f[x].parent == old(f)[x].parent)
    {
      assert Shows(l, f, s) && ParentAgrees(f, s);
      var p := l[s].depPrev.id;
      HasParent(f, rank, s, dep);
      CutAside(f, rank, s, dep, p);
      RemoveSubtree(dep);
      Add(p, dep);
      NotAboveParent(f, rank, s, p);
    }

    /** A new dependency on a stream that is not below `s`. */
    method Move(s: Id, dep: Id, weight: nat, exclusive: bool)
      requires Valid() && s in f && dep in f && f[s].parent.At? && !Under(f, rank, s, dep) && 1 <= weight <= 256
      modifies this
      ensures Valid() && f.Keys == old(f).Keys
      ensures f[s].parent == At(dep) && f[s].weight == weight && (exclusive ==> f[dep].kids == [s])
      ensures f[dep].parent == old(f)[dep].parent && f[dep].weight == old(f)[dep].weight
      ensures Elsewhere(old(f), f, s, dep, exclusive) && f == Shift(old(f), s, dep, weight, exclusive)
    {
      ghost var f0, rank0 := f, rank;
      RemoveSubtree(s);
      CutNotAbove(f0, rank, s, dep);
      WeightWf(f, rank, s, weight);
      WeightUnder(f, rank, s, weight, dep);
      ChangeWeight(s, weight);
      if exclusive {
        InsertSubtree(dep, s);
      } else {
        Add(dep, s);
      }
      MovedElsewhere(f0, rank0, s, dep, weight, exclusive, f);
    }

    /**
      * The tree part of `nghttp2_session_reprioritize_stream`: `s` becomes a child of `dep`, the only
      * one if `exclusive`, whatever the dependencies were before.
      */
    method Reprioritize(s: Id, dep: Id, weight: nat, exclusive: bool)
      requires Valid() && s in f && dep in f && s != dep && f[s].parent.At? && 1 <= weight <= 256
      modifies this
      ensures Valid() && f.Keys == old(f).Keys
      ensures f[s].parent == At(dep) && f[s].weight == weight && (exclusive ==> f[dep].kids == [s])
      ensures f[dep].parent == if old(Under(f, rank, s, dep)) then old(f)[s].parent else old(f)[dep].parent
      ensures f[dep].weight == old(f)[dep].weight && Elsewhere(old(f), f, s, dep, exclusive)
      ensures f == Reprioritized(old(f), old(Under(f, rank, s, dep)), s, dep, weight, exclusive)
    {
      var found := FindAncestor(dep, s);
      if found {
        BreakCycle(s, dep);
      }
      assert Shows(l, f, s);
      ghost var f1 := f;
      assert f1[dep] == f[dep];
      if At(dep) == l[s].depPrev && !exclusive {
        ChangeWeight(s, weight);
      } else {
        Move(s, dep, weight, exclusive);
      }
      ElsewhereAfter(old(f), f1, f, s, dep, exclusive);
    }
  }

  lemma InitShows(l: Heap, f: Forest, rank: map<Id, nat>, s: Id, weight: nat)
    requires Wf(f, rank) && Represents(l, f) && s !in f && 1 <= weight <= 256
    ensures Wf(f[s := Node(Null, [], weight)], rank[s := 0])
    ensures Represents(l[s := Links(Null, Null, Null, Null, weight, 0)], f[s := Node(Null, [], weight)])
  {
    var l', g, r := l[s := Links(Null, Null, Null, Null, weight, 0)], f[s := Node(Null, [], weight)], rank[s := 0];
    forall x | x in g
      ensures KidsAgree(g, x) && ParentAgrees(g, x) && Shows(l', g, x)
    {
      if x != s {
        assert KidsAgree(f, x) && ParentAgrees(f, x) && Shows(l, f, x);
        ShowsFrame(l, f, l', g, x);
      }
    }
    forall x {:trigger g[x]} | x in g
      ensures x in r && (g[x].parent.At? ==> g[x].parent.id in r && r[g[x].parent.id] < r[x])
    {
      assert x != s ==> ParentAgrees(f, x);
    }
  }

  lemma LeafAbove(f: Forest, rank: map<Id, nat>, s: Id, x: Id)
    requires Wf(f, rank) && s in f && x in f && x != s && f[s].kids == []
    ensures !Under(f, rank, s, x)
    decreases rank[x]
  {
    assert ParentAgrees(f, x);
    if f[x].parent.At? {
      KidsOf(f, rank, s, x);
      LeafAbove(f, rank, s, f[x].parent.id);
    }
  }

  function WeightLinks(l: Heap, s: Id, weight: nat): Heap
    requires s in l && (l[s].depPrev.At? ==> l[s].depPrev.id in l)
  {
    var l' := l[s := l[s].(weight := weight)];
    if l'[s].depPrev.At? then
      var p := l'[s].depPrev.id;
      l'[p := l'[p].(sum := l'[p].sum + (weight - l[s].weight))]
    else l'
  }

  /** A new weight changes the parent's sum by the difference. */
  lemma WeightSum(l: Heap, f: Forest, rank: map<Id, nat>, s: Id, weight: nat)
    requires Wf(f, rank) && Represents(l, f) && s in f && f[s].parent.At? && f[s].parent.id in f
    ensures var kids := f[f[s].parent.id].kids;
            SumWeights(f[s := f[s].(weight := weight)], kids) == SumWeights(f, kids) + weight - f[s].weight
  {
    var p, pre, post := Place(l, f, rank, s);
    var g := f[s := f[s].(weight := weight)];
    DistinctParts(pre, [s], post);
    assert s !in pre && s !in post by { assert [s][0] == s; }
    SumJoin(f, pre + [s], post);
    SumJoin(f, pre, [s]);
    SumJoin(g, pre + [s], post);
    SumJoin(g, pre, [s]);
    SumFrame(f, g, pre);
    SumFrame(f, g, post);
    assert [s][1..] == [];
  }

  lemma WeightWf(f: Forest, rank: map<Id, nat>, s: Id, weight: nat)
    requires Wf(f, rank) && s in f && 1 <= weight <= 256
    ensures Wf(f[s := f[s].(weight := weight)], rank)
  {
    var g := f[s := f[s].(weight := weight)];
    forall x | x in g
      ensures KidsAgree(g, x) && ParentAgrees(g, x)
    {
      assert KidsAgree(f, x) && ParentAgrees(f, x);
    }
  }

  lemma WeightShows(l: Heap, f: Forest, rank: map<Id, nat>, s: Id, weight: nat)
    requires Wf(f, rank) && Represents(l, f) && s in f && 1 <= weight <= 256
    requires l[s].depPrev.At? ==> l[s].depPrev.id in l
    ensures Represents(WeightLinks(l, s, weight), f[s := f[s].(weight := weight)])
  {
    var l', g := WeightLinks(l, s, weight), f[s := f[s].(weight := weight)];
    assert Shows(l, f, s) && ParentAgrees(f, s);
    forall x | x in g
      ensures Shows(l', g, x)
    {
      assert Shows(l, f, x) && KidsAgree(f, x) && KidsAgree(f, s);
      if f[s].parent == At(x) {
        WeightSum(l, f, rank, s, weight);
        ChainFrame(l, l', f[x].kids, Null, Null);
      } else {
        KidsOf(f, rank, x, s);
        ShowsFrame(l, f, l', g, x);
      }
    }
  }

  lemma CutNotAbove(f: Forest, rank: map<Id, nat>, s: Id, x: Id)
    requires Wf(f, rank) && s in f && x in f && f[s].parent.At? && ParentAgrees(f, s) && !Under(f, rank, s, x)
    ensures Wf(RemoveSubtree(f, s), rank) && !Under(RemoveSubtree(f, s), rank, s, x)
  {
    RemoveSubtreeWf(f, rank, s);
    if Under(RemoveSubtree(f, s), rank, s, x) {
      UnderCut(f, rank, s, s, x);
    }
  }

  lemma {:induction false} WeightUnder(f: Forest, rank: map<Id, nat>, s: Id, weight: nat, x: Id)
    requires Wf(f, rank) && s in f && x in f && Wf(f[s := f[s].(weight := weight)], rank)
    ensures Under(f[s := f[s].(weight := weight)], rank, s, x) == Under(f, rank, s, x)
    decreases rank[x]
  {
    assert ParentAgrees(f, x);
    if f[x].parent.At? {
      WeightUnder(f, rank, s, weight, f[x].parent.id);
    }
  }
}
