/**
  * The links between the streams of lib/nghttp2_stream.c.  Every stream points to its parent, its
  * first child and its neighbours; every operation that moves these pointers makes the matching
  * edit of module DepForest.
  */
module DepLinks {
  import opened DepForest

  /** `dep_prev`, `dep_next`, `sib_prev`, `sib_next`, `weight` and `sum_dep_weight`. */
  datatype Links = Links(depPrev: Ptr, depNext: Ptr, sibPrev: Ptr, sibNext: Ptr, weight: nat, sum: int)

  type Heap = map<Id, Links>

  function First(kids: seq<Id>, otherwise: Ptr): Ptr {
    if kids == [] then otherwise else At(kids[0])
  }

  function Last(kids: seq<Id>, otherwise: Ptr): Ptr {
    if kids == [] then otherwise else At(kids[|kids| - 1])
  }

  // ---------------------------------------------------------------------- sibling chains

  /** Position `i` of the chain `kids`, which has `prev` and `next` at its ends. */
  ghost predicate Linked(l: Heap, kids: seq<Id>, prev: Ptr, next: Ptr, i: nat)
    requires i < |kids|
  {
    && kids[i] in l
    && l[kids[i]].sibPrev == (if i == 0 then prev else At(kids[i - 1]))
    && l[kids[i]].sibNext == (if i + 1 == |kids| then next else At(kids[i + 1]))
  }

  ghost predicate Chain(l: Heap, kids: seq<Id>, prev: Ptr, next: Ptr) {
    forall i {:trigger Linked(l, kids, prev, next, i)} :: 0 <= i < |kids| ==> Linked(l, kids, prev, next, i)
  }

  /** A chain is two chains joined. */
  lemma ChainParts(l: Heap, a: seq<Id>, b: seq<Id>, prev: Ptr, next: Ptr)
    ensures Chain(l, a + b, prev, next) <==> Chain(l, a, prev, First(b, next)) && Chain(l, b, Last(a, prev), next)
  {
    var n := First(b, next);
    var p := Last(a, prev);
    forall i | 0 <= i < |a|
      ensures Linked(l, a + b, prev, next, i) <==> Linked(l, a, prev, n, i)
    {
      assert (a + b)[i] == a[i];
    }
    forall i | 0 <= i < |b|
      ensures Linked(l, a + b, prev, next, |a| + i) <==> Linked(l, b, p, next, i)
    {
      assert (a + b)[|a| + i] == b[i];
    }
    if Chain(l, a + b, prev, next) {
      forall i | 0 <= i < |b|
        ensures Linked(l, b, p, next, i)
      {
        assert Linked(l, a + b, prev, next, |a| + i);
      }
    }
    if Chain(l, a, prev, n) && Chain(l, b, p, next) {
      forall i | 0 <= i < |a + b|
        ensures Linked(l, a + b, prev, next, i)
      {
        if i < |a| {
          assert Linked(l, a, prev, n, i);
        } else {
          assert Linked(l, b, p, next, i - |a|);
        }
      }
    }
  }

  /** The chain depends on the sibling pointers of its members only. */
  lemma ChainFrame(l: Heap, l': Heap, kids: seq<Id>, prev: Ptr, next: Ptr)
    requires Chain(l, kids, prev, next)
    requires forall k {:trigger k in kids} :: k in kids && k in l ==>
               k in l' && l'[k].sibPrev == l[k].sibPrev && l'[k].sibNext == l[k].sibNext
    ensures Chain(l', kids, prev, next)
  {
    forall i | 0 <= i < |kids|
      ensures Linked(l', kids, prev, next, i)
    {
      assert Linked(l, kids, prev, next, i) && kids[i] in kids;
    }
  }

  // ---------------------------------------------------------- links that show a forest

  ghost predicate Shows(l: Heap, f: Forest, s: Id)
    requires s in l && s in f
  {
    && l[s].depPrev == f[s].parent
    && l[s].depNext == First(f[s].kids, Null)
    && l[s].weight == f[s].weight
    && l[s].sum == SumWeights(f, f[s].kids)
    && Chain(l, f[s].kids, Null, Null)
    && (f[s].parent.Null? ==> l[s].sibPrev.Null? && l[s].sibNext.Null?)
  }

  ghost predicate Represents(l: Heap, f: Forest) {
    l.Keys == f.Keys && forall s {:trigger Shows(l, f, s)} :: s in f ==> Shows(l, f, s)
  }

  lemma {:induction false} SumFrame(f: Forest, g: Forest, kids: seq<Id>)
    requires forall k {:trigger k in kids} :: k in kids ==> WeightOf(f, k) == WeightOf(g, k)
    ensures SumWeights(f, kids) == SumWeights(g, kids)
  {
    if kids != [] {
      assert kids[0] in kids && forall k :: k in kids[1..] ==> k in kids;
      SumFrame(f, g, kids[1..]);
    }
  }

  lemma {:induction false} SumJoin(f: Forest, a: seq<Id>, b: seq<Id>)
    ensures SumWeights(f, a + b) == SumWeights(f, a) + SumWeights(f, b)
  {
    if a == [] {
      assert a + b == b;
    } else {
      assert (a + b)[0] == a[0] && (a + b)[1..] == a[1..] + b;
      SumJoin(f, a[1..], b);
    }
  }

  /** A stream whose own links and whose children's places did not change. */
  lemma ShowsFrame(l: Heap, f: Forest, l': Heap, f': Forest, s: Id)
    requires s in l && s in f && s in l' && s in f' && Shows(l, f, s)
    requires f'[s].kids == f[s].kids
    requires l'[s].depPrev == f'[s].parent && l'[s].depNext == l[s].depNext && l'[s].sum == l[s].sum
    requires l'[s].weight == f'[s].weight
    requires f'[s].parent.Null? ==> l'[s].sibPrev.Null? && l'[s].sibNext.Null?
    requires forall k {:trigger k in f[s].kids} :: k in f[s].kids ==> WeightOf(f, k) == WeightOf(f', k)
    requires forall k {:trigger k in f[s].kids} :: k in f[s].kids && k in l ==>
               k in l' && l'[k].sibPrev == l[k].sibPrev && l'[k].sibNext == l[k].sibNext
    ensures Shows(l', f', s)
  {
    SumFrame(f, f', f[s].kids);
    ChainFrame(l, l', f[s].kids, Null, Null);
  }

  // ------------------------------------------------------------------ the pointer helpers

  /** `link_dep`. */
  function LinkDep(l: Heap, dep: Id, s: Ptr): Heap
    requires dep in l && (s.At? ==> s.id in l)
  {
    var l := l[dep := l[dep].(depNext := s)];
    if s.At? then l[s.id := l[s.id].(depPrev := At(dep))] else l
  }

  /** `link_sib`. */
  function LinkSib(l: Heap, a: Id, b: Ptr): Heap
    requires a in l && (b.At? ==> b.id in l)
  {
    var l := l[a := l[a].(sibNext := b)];
    if b.At? then l[b.id := l[b.id].(sibPrev := At(a))] else l
  }

  /** `insert_link_dep`. */
  function InsertLinkDep(l: Heap, dep: Id, s: Id): Heap
    requires dep in l && s in l && (l[dep].depNext.At? ==> l[dep].depNext.id in l)
  {
    LinkDep(LinkSib(l, s, l[dep].depNext), dep, At(s))
  }

  ghost function WithParent(l: Heap, kids: seq<Id>, dep: Ptr): Heap {
    map x | x in l :: if x in kids then l[x].(depPrev := dep) else l[x]
  }

  /** `set_dep_prev`. */
  method SetDepPrev(l0: Heap, start: Ptr, dep: Ptr, ghost kids: seq<Id>, ghost prev: Ptr) returns (l: Heap)
    requires Chain(l0, kids, prev, Null) && Distinct(kids) && start == First(kids, Null)
    ensures l == WithParent(l0, kids, dep)
  {
    l := l0;
    var s := start;
    ghost var i := 0;
    while s.At?
      invariant 0 <= i <= |kids| && s == (if i < |kids| then At(kids[i]) else Null)
      invariant l == WithParent(l0, kids[..i], dep)
      decreases |kids| - i
    {
      assert Linked(l0, kids, prev, Null, i);
      assert kids[..i + 1] == kids[..i] + [kids[i]];
      l := l[s.id := l[s.id].(depPrev := dep)];
      s := l[s.id].sibNext;
      i := i + 1;
    }
    assert kids[..i] == kids;
  }

  /** `stream_last_sib`. */
  method LastSib(l: Heap, start: Id, ghost kids: seq<Id>, ghost prev: Ptr) returns (s: Id)
    requires Chain(l, kids, prev, Null) && kids != [] && start == kids[0]
    ensures s == kids[|kids| - 1]
  {
    s := start;
    ghost var i := 0;
    assert Linked(l, kids, prev, Null, 0);
    while l[s].sibNext.At?
      invariant 0 <= i < |kids| && s == kids[i] && Linked(l, kids, prev, Null, i)
      decreases |kids| - i
    {
      s := l[s].sibNext.id;
      i := i + 1;
      assert Linked(l, kids, prev, Null, i);
    }
  }

  // ----------------------------------------------------------------------------- adding

  /** `nghttp2_stream_dep_add`, and `nghttp2_stream_dep_add_subtree` up to its queue. */
  function AddLinks(l: Heap, dep: Id, s: Id): Heap
    requires dep in l && s in l && (l[dep].depNext.At? ==> l[dep].depNext.id in l)
  {
    var l := l[dep := l[dep].(sum := l[dep].sum + l[s].weight)];
    if l[dep].depNext.At? then InsertLinkDep(l, dep, s) else LinkDep(l, dep, At(s))
  }

  lemma FirstKid(l: Heap, f: Forest, rank: map<Id, nat>, s: Id)
    requires Wf(f, rank) && Represents(l, f) && s in f
    ensures l[s].depNext == First(f[s].kids, Null) && l[s].depPrev == f[s].parent && l[s].weight == f[s].weight
    ensures l[s].depNext.At? ==> l[s].depNext.id in l && l[s].depNext.id in f[s].kids && l[s].depNext.id != s
    ensures s !in f[s].kids
  {
    assert Shows(l, f, s) && KidsAgree(f, s);
    if f[s].kids != [] {
      assert f[s].kids[0] in f[s].kids;
    }
  }

  lemma AddShowsDep(l: Heap, f: Forest, rank: map<Id, nat>, dep: Id, s: Id)
    requires Wf(f, rank) && Represents(l, f) && dep in f && s in f && f[s].parent.Null? && dep != s
    requires l[dep].depNext.At? ==> l[dep].depNext.id in l
    ensures Shows(AddLinks(l, dep, s), Add(f, dep, s), dep)
  {
    var l', f' := AddLinks(l, dep, s), Add(f, dep, s);
    var kids := f[dep].kids;
    FirstKid(l, f, rank, dep);
    assert Shows(l, f, dep) && Shows(l, f, s) && KidsAgree(f, dep);
    assert forall k :: k in kids ==> k != s && k in f;
    SumJoin(f', [s], kids);
    SumFrame(f, f', kids);
    AddedChain(l, dep, s, kids);
  }

  /** The new child heads the chain. */
  lemma AddedChain(l: Heap, dep: Id, s: Id, kids: seq<Id>)
    requires dep in l && s in l && dep != s && s !in kids && dep !in kids && Distinct(kids)
    requires Chain(l, kids, Null, Null) && l[dep].depNext == First(kids, Null) && l[s].sibPrev.Null? &&
             l[s].sibNext.Null?
    requires l[dep].depNext.At? ==> l[dep].depNext.id in l
    ensures Chain(AddLinks(l, dep, s), [s] + kids, Null, Null)
  {
    var l' := AddLinks(l, dep, s);
    forall i | 0 <= i < |kids|
      ensures Linked(l', kids, At(s), Null, i)
    {
      assert Linked(l, kids, Null, Null, i) && kids[i] in kids && kids[0] in kids;
    }
    assert Linked(l', [s], Null, First(kids, Null), 0);
    ChainParts(l', [s], kids, Null, Null);
  }

  lemma AddShows(l: Heap, f: Forest, rank: map<Id, nat>, dep: Id, s: Id)
    requires Wf(f, rank) && Represents(l, f) && dep in f && s in f && f[s].parent.Null? && dep != s
    requires l[dep].depNext.At? ==> l[dep].depNext.id in l
    ensures Represents(AddLinks(l, dep, s), Add(f, dep, s))
  {
    var l', f' := AddLinks(l, dep, s), Add(f, dep, s);
    FirstKid(l, f, rank, dep);
    forall x | x in f'
      ensures Shows(l', f', x)
    {
      if x == dep {
        AddShowsDep(l, f, rank, dep, s);
      } else {
        assert Shows(l, f, x) && KidsAgree(f, x) && KidsAgree(f, dep);
        ShowsFrame(l, f, l', f', x);
      }
    }
  }

  // -------------------------------------------------------------------------- splicing out

  /**
    * The links after `ks` has taken the place of `s` between `pre` and `post`, the other children
    * of `p`.
    */
  ghost function Spliced(l: Heap, p: Id, pre: seq<Id>, ks: seq<Id>, post: seq<Id>): Heap {
    map x | x in l ::
      l[x].(depPrev := if x in ks then At(p) else l[x].depPrev,
            depNext := if x == p then First(pre + ks + post, Null) else l[x].depNext,
            sibPrev := if First(ks, Null) == At(x) then Last(pre, Null)
                       else if First(post, Null) == At(x) then Last(pre + ks, Null)
                       else l[x].sibPrev,
            sibNext := if Last(pre, Null) == At(x) then First(ks + post, Null)
                       else if Last(ks, Null) == At(x) then First(post, Null)
                       else l[x].sibNext)
  }

  /** `l'` has new pointers at the ends of the chain `kids` and leaves the others. */
  ghost predicate Ends(l: Heap, l': Heap, kids: seq<Id>, prev: Ptr, next: Ptr) {
    forall i {:trigger kids[i]} :: 0 <= i < |kids| && kids[i] in l ==>
      && kids[i] in l'
      && l'[kids[i]].sibPrev == (if i == 0 then prev else l[kids[i]].sibPrev)
      && l'[kids[i]].sibNext == (if i + 1 == |kids| then next else l[kids[i]].sibNext)
  }

  lemma Rechain(l: Heap, l': Heap, kids: seq<Id>, prev: Ptr, next: Ptr, prev': Ptr, next': Ptr)
    requires Chain(l, kids, prev, next) && Ends(l, l', kids, prev', next')
    ensures Chain(l', kids, prev', next')
  {
    forall i | 0 <= i < |kids|
      ensures Linked(l', kids, prev', next', i)
    {
      assert Linked(l, kids, prev, next, i);
    }
  }

  ghost predicate Apart(a: seq<Id>, b: seq<Id>) {
    forall i, j {:trigger a[i], b[j]} :: 0 <= i < |a| && 0 <= j < |b| ==> a[i] != b[j]
  }

  lemma DistinctParts(a: seq<Id>, b: seq<Id>, c: seq<Id>)
    requires Distinct(a + b + c)
    ensures Distinct(a) && Distinct(b) && Distinct(c) && Apart(a, b) && Apart(a, c) && Apart(b, c)
  {
    var all := a + b + c;
    assert forall i :: 0 <= i < |a| ==> all[i] == a[i];
    assert forall i {:trigger b[i]} :: 0 <= i < |b| ==> all[|a| + i] == b[i];
    assert forall i {:trigger c[i]} :: 0 <= i < |c| ==> all[|a| + |b| + i] == c[i];
  }

  lemma SplicedPre(l: Heap, p: Id, pre: seq<Id>, ks: seq<Id>, post: seq<Id>)
    requires Distinct(pre) && Apart(pre, ks) && Apart(pre, post)
    requires pre != [] && pre[0] in l ==> l[pre[0]].sibPrev == Null
    ensures Ends(l, Spliced(l, p, pre, ks, post), pre, Null, First(ks + post, Null))
  {
  }

  lemma SplicedMid(l: Heap, p: Id, pre: seq<Id>, ks: seq<Id>, post: seq<Id>)
    requires Distinct(ks) && Apart(pre, ks) && Apart(ks, post)
    ensures Ends(l, Spliced(l, p, pre, ks, post), ks, Last(pre, Null), First(post, Null))
  {
  }

  lemma SplicedPost(l: Heap, p: Id, pre: seq<Id>, ks: seq<Id>, post: seq<Id>)
    requires Distinct(post) && Apart(pre, post) && Apart(ks, post)
    requires post != [] && post[|post| - 1] in l ==> l[post[|post| - 1]].sibNext == Null
    ensures Ends(l, Spliced(l, p, pre, ks, post), post, Last(pre + ks, Null), Null)
  {
  }

  lemma SplicedChain(l: Heap, p: Id, pre: seq<Id>, s: Id, post: seq<Id>, ks: seq<Id>)
    requires Chain(l, pre + [s] + post, Null, Null) && Chain(l, ks, Null, Null)
    requires Distinct(pre + ks + post)
    ensures Chain(Spliced(l, p, pre, ks, post), pre + ks + post, Null, Null)
  {
    var l' := Spliced(l, p, pre, ks, post);
    ChainParts(l, pre + [s], post, Null, Null);
    ChainParts(l, pre, [s], Null, First(post, Null));
    DistinctParts(pre, ks, post);
    assert pre != [] ==> Linked(l, pre, Null, At(s), 0);
    SplicedPre(l, p, pre, ks, post);
    SplicedMid(l, p, pre, ks, post);
    assert post != [] ==> Linked(l, post, At(s), Null, |post| - 1);
    SplicedPost(l, p, pre, ks, post);
    Rechain(l, l', pre, Null, At(s), Null, First(ks + post, Null));
    Rechain(l, l', ks, Null, Null, Last(pre, Null), First(post, Null));
    Rechain(l, l', post, At(s), Null, Last(pre + ks, Null), Null);
    ChainParts(l', pre, ks, Null, First(post, Null));
    ChainParts(l', pre + ks, post, Null, Null);
  }

  /** The place of `s` among the children of its parent, as its links show it. */
  lemma Place(l: Heap, f: Forest, rank: map<Id, nat>, s: Id) returns (p: Id, pre: seq<Id>, post: seq<Id>)
    requires Wf(f, rank) && Represents(l, f) && s in f && f[s].parent.At?
    ensures f[s].parent == l[s].depPrev == At(p) && p in f && p in l && p != s
    ensures f[p].kids == pre + [s] + post && s in f[p].kids && Distinct(pre + [s] + post)
    ensures forall ks :: Replace(f[p].kids, s, ks) == pre + ks + post
    ensures l[s].sibPrev == Last(pre, Null) && l[s].sibNext == First(post, Null)
    ensures l[p].depNext == First(pre + [s] + post, Null) && Chain(l, pre + [s] + post, Null, Null)
    ensures forall k {:trigger k in pre} :: k in pre ==> k in l && k in f && f[k].parent == At(p)
    ensures forall k {:trigger k in post} :: k in post ==> k in l && k in f && f[k].parent == At(p)
  {
    assert ParentAgrees(f, s);
    p := f[s].parent.id;
    assert KidsAgree(f, p) && Shows(l, f, s) && Shows(l, f, p);
    var i := IndexOf(f[p].kids, s);
    pre, post := f[p].kids[..i], f[p].kids[i + 1..];
    assert f[p].kids == pre + [s] + post;
    assert forall k :: k in pre || k in post ==> k in f[p].kids;
    assert Linked(l, f[p].kids, Null, Null, i);
  }

  /** The pointers that `nghttp2_stream_dep_remove_subtree` moves around the stream it takes out. */
  function Bypass(l: Heap, p: Id, s: Id): Heap
    requires p in l && s in l && (l[s].sibPrev.At? ==> l[s].sibPrev.id in l) &&
             (l[s].sibNext.At? ==> l[s].sibNext.id in l)
  {
    var next := l[s].sibNext;
    if l[s].sibPrev.At? then LinkSib(l, l[s].sibPrev.id, next)
    else
      var l' := LinkDep(l, p, next);
      if next.At? then l'[next.id := l'[next.id].(sibPrev := Null)] else l'
  }

  lemma BypassSplices(l: Heap, f: Forest, rank: map<Id, nat>, s: Id, p: Id, pre: seq<Id>, post: seq<Id>)
    requires Wf(f, rank) && Represents(l, f) && s in f && f[s].parent == At(p) && p in f && p in l
    requires l[s].sibPrev == Last(pre, Null) && l[s].sibNext == First(post, Null)
    requires l[p].depNext == First(pre + [s] + post, Null) && Distinct(pre + [s] + post)
    requires forall k {:trigger k in pre} :: k in pre ==> k in l && k in f && f[k].parent == At(p)
    requires forall k {:trigger k in post} :: k in post ==> k in l && k in f && f[k].parent == At(p)
    ensures l[s].sibPrev.At? ==> l[s].sibPrev.id in l
    ensures l[s].sibNext.At? ==> l[s].sibNext.id in l
    ensures Bypass(l, p, s) == Spliced(l, p, pre, [], post)
  {
    DistinctParts(pre, [s], post);
    assert pre != [] ==> pre[|pre| - 1] in pre;
    assert post != [] ==> post[0] in post;
    assert post != [] ==> Shows(l, f, post[0]);
    NoMiddle(pre, post);
  }

  lemma NoMiddle(pre: seq<Id>, post: seq<Id>)
    ensures pre + [] + post == pre + post && pre + [] == pre && [] + post == post
  {
  }

  /** The rest of `nghttp2_stream_dep_remove_subtree`. */
  function CutLinks(l: Heap, p: Id, s: Id): Heap
    requires p in l && s in l
  {
    var l := l[p := l[p].(sum := l[p].sum - l[s].weight)];
    l[s := l[s].(depPrev := Null, sibPrev := Null, sibNext := Null)]
  }

  /** `s` has the place between `pre` and `post` under `p`. */
  ghost predicate Placed(l: Heap, f: Forest, rank: map<Id, nat>, s: Id, p: Id, pre: seq<Id>, post: seq<Id>) {
    && Wf(f, rank) && Represents(l, f) && s in f && p in f && p != s && f[s].parent == At(p) && ParentAgrees(f, s)
    && f[p].kids == pre + [s] + post && Distinct(pre + [s] + post)
    && Chain(l, pre + [s] + post, Null, Null)
    && (forall k {:trigger k in pre} :: k in pre ==> k in l && k in f && f[k].parent == At(p))
    && (forall k {:trigger k in post} :: k in post ==> k in l && k in f && f[k].parent == At(p))
    && (forall ks :: Replace(f[p].kids, s, ks) == pre + ks + post)
  }

  lemma CutSum(f: Forest, rank: map<Id, nat>, s: Id, p: Id, pre: seq<Id>, post: seq<Id>)
    requires Wf(f, rank) && s in f && p in f && p != s && f[s].parent == At(p) && ParentAgrees(f, s)
    ensures SumWeights(f, pre + [s] + post) == SumWeights(RemoveSubtree(f, s), pre + post) + f[s].weight
  {
    var f' := RemoveSubtree(f, s);
    SumJoin(f, pre + [s], post);
    SumJoin(f, pre, [s]);
    SumJoin(f', pre, post);
    SumFrame(f, f', pre);
    SumFrame(f, f', post);
    assert [s][1..] == [];
  }

  lemma CutChain(l: Heap, s: Id, p: Id, pre: seq<Id>, post: seq<Id>)
    requires Distinct(pre + [s] + post) && Chain(l, pre + [s] + post, Null, Null) && s in l && p in l
    ensures Chain(CutLinks(Spliced(l, p, pre, [], post), p, s), pre + post, Null, Null)
    ensures s !in pre && s !in post
  {
    var l1 := Spliced(l, p, pre, [], post);
    DistinctParts(pre, [s], post);
    assert pre + [] + post == pre + post;
    SplicedChain(l, p, pre, s, post, []);
    assert s !in pre && s !in post by { assert [s][0] == s; }
    ChainFrame(l1, CutLinks(l1, p, s), pre + post, Null, Null);
  }

  lemma CutParent(l: Heap, f: Forest, rank: map<Id, nat>, s: Id, p: Id, pre: seq<Id>, post: seq<Id>)
    requires Placed(l, f, rank, s, p, pre, post)
    ensures Shows(CutLinks(Spliced(l, p, pre, [], post), p, s), RemoveSubtree(f, s), p)
  {
    CutSum(f, rank, s, p, pre, post);
    CutChain(l, s, p, pre, post);
    assert Shows(l, f, p) && Shows(l, f, s);
    assert f[p].parent != At(p);
    assert p !in pre && p !in post;
    CutAtParent(l, s, p, pre, post);
    NoMiddle(pre, post);
    assert RemoveSubtree(f, s)[p].kids == pre + post;
  }

  lemma CutAtParent(l: Heap, s: Id, p: Id, pre: seq<Id>, post: seq<Id>)
    requires s in l && p in l && p != s && p !in pre && p !in post
    ensures CutLinks(Spliced(l, p, pre, [], post), p, s)[p] ==
            l[p].(depNext := First(pre + post, Null), sum := l[p].sum - l[s].weight)
  {
    assert pre != [] ==> pre[|pre| - 1] in pre;
    assert post != [] ==> post[0] in post;
    NoMiddle(pre, post);
  }

  lemma CutShows(l: Heap, f: Forest, rank: map<Id, nat>, s: Id, p: Id, pre: seq<Id>, post: seq<Id>)
    requires Placed(l, f, rank, s, p, pre, post)
    ensures Represents(CutLinks(Spliced(l, p, pre, [], post), p, s), RemoveSubtree(f, s))
  {
    var l1 := Spliced(l, p, pre, [], post);
    var l', f' := CutLinks(l1, p, s), RemoveSubtree(f, s);
    forall x | x in f'
      ensures Shows(l', f', x)
    {
      if x == p {
        CutParent(l, f, rank, s, p, pre, post);
      } else {
        CutOther(l, f, rank, s, p, pre, post, l', x);
      }
    }
  }

  lemma CutOther(l: Heap, f: Forest, rank: map<Id, nat>, s: Id, p: Id, pre: seq<Id>, post: seq<Id>, l': Heap, x: Id)
    requires Placed(l, f, rank, s, p, pre, post) && x in f && x != p
    requires l' == CutLinks(Spliced(l, p, pre, [], post), p, s)
    ensures Shows(l', RemoveSubtree(f, s), x)
  {
    assert Shows(l, f, x) && KidsAgree(f, x);
    assert pre != [] ==> pre[|pre| - 1] in pre;
    assert post != [] ==> post[0] in post;
    ShowsFrame(l, f, l', RemoveSubtree(f, s), x);
  }

  // ---------------------------------------------------------------------- removing a stream

  /** `s` and its children `ks` lie between `pre` and `post` under `p`, all of them different. */
  ghost predicate Around(l: Heap, s: Id, p: Id, pre: seq<Id>, ks: seq<Id>, post: seq<Id>) {
    && s in l && p in l && p != s
    && Distinct(ks) && Distinct(pre) && Distinct(post) && Apart(pre, ks) && Apart(pre, post) && Apart(ks, post)
    && (forall k {:trigger k in pre} :: k in pre ==> k in l && k != p && k != s)
    && (forall k {:trigger k in post} :: k in post ==> k in l && k != p && k != s && l[k].depPrev == At(p))
    && (forall k {:trigger k in ks} :: k in ks ==> k in l && k != p && k != s)
    && l[s].depPrev == At(p) && l[s].depNext == First(ks, Null)
    && l[s].sibPrev == Last(pre, Null) && l[s].sibNext == First(post, Null)
    && l[p].depNext == First(pre + [s] + post, Null)
    && Chain(l, ks, Null, Null)
  }

  /** The links after the children of a stream have been put in its place. */
  lemma SplicedByHand(l: Heap, s: Id, p: Id, pre: seq<Id>, ks: seq<Id>, post: seq<Id>)
    requires Around(l, s, p, pre, ks, post) && ks != []
    ensures ks[0] in l && ks[|ks| - 1] in l
    ensures pre != [] ==> pre[|pre| - 1] in l
    ensures post != [] ==> post[0] in l
    ensures var l1 := if pre != [] then LinkSib(l, pre[|pre| - 1], At(ks[0])) else LinkDep(l, p, At(ks[0]));
            var l2 := WithParent(l1, ks, At(p));
            var l3 := if post != [] then LinkSib(l2, ks[|ks| - 1], At(post[0])) else l2;
            l3 == Spliced(l, p, pre, ks, post)
  {
    assert ks[0] in ks && ks[|ks| - 1] in ks;
    assert pre != [] ==> pre[|pre| - 1] in pre;
    assert post != [] ==> post[0] in post;
    assert Linked(l, ks, Null, Null, 0) && Linked(l, ks, Null, Null, |ks| - 1);
  }

  /** The first child of the removed stream has been linked to what was before the stream. */
  lemma HeadLinked(l: Heap, s: Id, p: Id, pre: seq<Id>, ks: seq<Id>, post: seq<Id>)
    requires Around(l, s, p, pre, ks, post) && ks != [] && ks[0] in l && (pre != [] ==> pre[|pre| - 1] in l)
    ensures var l1 := if pre != [] then LinkSib(l, pre[|pre| - 1], At(ks[0])) else LinkDep(l, p, At(ks[0]));
            Chain(l1, ks, Last(pre, Null), Null)
  {
    var l1 := if pre != [] then LinkSib(l, pre[|pre| - 1], At(ks[0])) else LinkDep(l, p, At(ks[0]));
    forall i | 0 <= i < |ks|
      ensures Linked(l1, ks, Last(pre, Null), Null, i)
    {
      assert Linked(l, ks, Null, Null, i) && ks[i] in ks;
    }
  }

  /** `unlink_sib` and `unlink_dep`. */
  method Unlink(l0: Heap, s: Id, p: Id, ghost pre: seq<Id>, ghost ks: seq<Id>, ghost post: seq<Id>) returns (l: Heap)
    requires Around(l0, s, p, pre, ks, post)
    ensures l == Spliced(l0, p, pre, ks, post)
  {
    var depNext, next := l0[s].depNext, l0[s].sibNext;
    if depNext.At? {
      SplicedByHand(l0, s, p, pre, ks, post);
      l := if l0[s].sibPrev.At? then LinkSib(l0, l0[s].sibPrev.id, depNext) else LinkDep(l0, p, depNext);
      HeadLinked(l0, s, p, pre, ks, post);
      ghost var l1 := l;
      l := SetDepPrev(l, depNext, At(p), ks, Last(pre, Null));
      if next.At? {
        ChainFrame(l1, l, ks, Last(pre, Null), Null);
        var last := LastSib(l, depNext.id, ks, Last(pre, Null));
        l := LinkSib(l, last, next);
      }
    } else {
      l := UnlinkLeaf(l0, s, p, pre, post);
    }
  }

  /** The case of `unlink_sib` and `unlink_dep` without children. */
  method UnlinkLeaf(l0: Heap, s: Id, p: Id, ghost pre: seq<Id>, ghost post: seq<Id>) returns (l: Heap)
    requires Around(l0, s, p, pre, [], post)
    ensures l == Spliced(l0, p, pre, [], post)
  {
    var next := l0[s].sibNext;
    assert pre != [] ==> pre[|pre| - 1] in pre;
    assert post != [] ==> post[0] in post;
    assert pre + [] + post == pre + post && pre + [] == pre && [] + post == post;
    l := l0;
    if l0[s].sibPrev.At? {
      var prev := l0[s].sibPrev.id;
      l := l[prev := l[prev].(sibNext := next)];
      if next.At? {
        l := l[next.id := l[next.id].(sibPrev := At(prev))];
      }
    } else if next.At? {
      l := l[next.id := l[next.id].(sibPrev := Null)];
      l := LinkDep(l, p, next);
    } else {
      l := l[p := l[p].(depNext := Null)];
    }
  }

  ghost function Shared(l: Heap, kids: seq<Id>, weight: nat, sum: int): Heap
    requires kids != [] ==> sum > 0
  {
    map x | x in l :: if x in kids then l[x].(weight := Distributed(weight, l[x].weight, sum)) else l[x]
  }

  /** The loop of `nghttp2_stream_dep_remove` that gives the stream's weight to its children. */
  method ShareWeight(l0: Heap, s: Id, ghost kids: seq<Id>, ghost g: Forest) returns (l: Heap, delta: int)
    requires s in l0 && s !in kids && (kids != [] ==> l0[s].sum > 0)
    requires Chain(l0, kids, Null, Null) && Distinct(kids) && l0[s].depNext == First(kids, Null)
    requires forall k {:trigger k in kids} :: k in kids ==>
               k in l0 && WeightOf(g, k) == Distributed(l0[s].weight, l0[k].weight, l0[s].sum)
    ensures l == Shared(l0, kids, l0[s].weight, l0[s].sum)
    ensures delta == SumWeights(g, kids) - l0[s].weight
  {
    l, delta := l0, -(l0[s].weight as int);
    var si := l0[s].depNext;
    ghost var i := 0;
    while si.At?
      invariant 0 <= i <= |kids| && si == (if i < |kids| then At(kids[i]) else Null)
      invariant l == Shared(l0, kids[..i], l0[s].weight, l0[s].sum)
      invariant delta == SumWeights(g, kids[..i]) - l0[s].weight
      decreases |kids| - i
    {
      assert Linked(l0, kids, Null, Null, i) && kids[i] in kids;
      assert kids[..i + 1] == kids[..i] + [kids[i]];
      SumJoin(g, kids[..i], [kids[i]]);
      assert [kids[i]][1..] == [];
      l := l[si.id := l[si.id].(weight := Distributed(l[s].weight, l[si.id].weight, l[s].sum))];
      delta := delta + l[si.id].weight;
      si := l[si.id].sibNext;
      i := i + 1;
    }
    assert kids[..i] == kids;
  }

  /** The end of `nghttp2_stream_dep_remove`. */
  function Isolated(l: Heap, s: Id): Heap
    requires s in l
  {
    l[s := l[s].(sum := 0, depPrev := Null, depNext := Null, sibPrev := Null, sibNext := Null)]
  }

  /** The parent's weight sum corrected by `delta`. */
  function Summed(l: Heap, p: Id, delta: int): Heap
    requires p in l
  {
    l[p := l[p].(sum := l[p].sum + delta)]
  }

  /** The links after `nghttp2_stream_dep_remove`. */
  ghost function Removed(l: Heap, s: Id, p: Id, pre: seq<Id>, ks: seq<Id>, post: seq<Id>, delta: int): Heap
    requires s in l && p in l && (ks != [] ==> l[s].sum > 0)
  {
    var l1 := Summed(Shared(l, ks, l[s].weight, l[s].sum), p, delta);
    Isolated(Spliced(l1, p, pre, ks, post), s)
  }

  lemma RemovedSum(f: Forest, rank: map<Id, nat>, s: Id, p: Id, pre: seq<Id>, post: seq<Id>)
    requires Wf(f, rank) && s in f && p in f && p != s && f[s].parent == At(p) && ParentAgrees(f, s) && KidsAgree(f, s)
    requires f[s].kids != [] ==> SumWeights(f, f[s].kids) > 0
    requires forall k {:trigger k in pre} :: k in pre ==> k !in f[s].kids
    requires forall k {:trigger k in post} :: k in post ==> k !in f[s].kids
    ensures var g := Remove(f, s);
            SumWeights(f, pre + [s] + post) - f[s].weight + SumWeights(g, f[s].kids) ==
            SumWeights(g, pre + f[s].kids + post)
  {
    var g := Remove(f, s);
    SumJoin(f, pre + [s], post);
    SumJoin(f, pre, [s]);
    SumJoin(g, pre + f[s].kids, post);
    SumJoin(g, pre, f[s].kids);
    SumFrame(f, g, pre);
    SumFrame(f, g, post);
    assert [s][1..] == [];
  }

  lemma RemovedChain(l: Heap, s: Id, p: Id, pre: seq<Id>, ks: seq<Id>, post: seq<Id>, delta: int)
    requires s in l && p in l && (ks != [] ==> l[s].sum > 0)
    requires Chain(l, pre + [s] + post, Null, Null) && Chain(l, ks, Null, Null) && Distinct(pre + ks + post)
    requires s !in pre && s !in ks && s !in post
    ensures Chain(Removed(l, s, p, pre, ks, post, delta), pre + ks + post, Null, Null)
  {
    var l1 := Shared(l, ks, l[s].weight, l[s].sum);
    var l2 := Summed(l1, p, delta);
    ChainFrame(l, l2, pre + [s] + post, Null, Null);
    ChainFrame(l, l2, ks, Null, Null);
    SplicedChain(l2, p, pre, s, post, ks);
    ChainFrame(Spliced(l2, p, pre, ks, post), Removed(l, s, p, pre, ks, post, delta), pre + ks + post, Null, Null);
  }

  /** A stream to be removed, with its children and their places. */
  ghost predicate Removable(l: Heap, f: Forest, rank: map<Id, nat>, s: Id, p: Id, pre: seq<Id>, post: seq<Id>) {
    && Placed(l, f, rank, s, p, pre, post) && KidsAgree(f, s)
    && (f[s].kids != [] ==> SumWeights(f, f[s].kids) > 0)
    && Around(l, s, p, pre, f[s].kids, post) && Distinct(pre + f[s].kids + post)
    && l[s].sum == SumWeights(f, f[s].kids) && l[s].weight == f[s].weight
  }

  /** The parent's own links after the removal. */
  lemma RemovedAtParent(l: Heap, s: Id, p: Id, pre: seq<Id>, ks: seq<Id>, post: seq<Id>, delta: int)
    requires Around(l, s, p, pre, ks, post) && (ks != [] ==> l[s].sum > 0)
    ensures var l' := Removed(l, s, p, pre, ks, post, delta);
            && l'.Keys == l.Keys
            && l'[p] == l[p].(depNext := First(pre + ks + post, Null), sum := l[p].sum + delta)
  {
    var l1 := Summed(Shared(l, ks, l[s].weight, l[s].sum), p, delta);
    assert p !in pre && p !in ks && p !in post;
    SplicedAtParent(l1, p, pre, ks, post);
  }

  lemma SplicedAtParent(l: Heap, p: Id, pre: seq<Id>, ks: seq<Id>, post: seq<Id>)
    requires p in l && p !in pre && p !in ks && p !in post
    ensures Spliced(l, p, pre, ks, post)[p] == l[p].(depNext := First(pre + ks + post, Null))
  {
    assert pre != [] ==> pre[|pre| - 1] in pre;
    assert post != [] ==> post[0] in post;
    assert ks != [] ==> ks[0] in ks && ks[|ks| - 1] in ks;
  }

  /** The links of a stream elsewhere after the removal. */
  lemma RemovedElsewhere(l: Heap, s: Id, p: Id, pre: seq<Id>, ks: seq<Id>, post: seq<Id>, delta: int, x: Id)
    requires Around(l, s, p, pre, ks, post) && (ks != [] ==> l[s].sum > 0) && x in l && x != p && x != s
    ensures var l' := Removed(l, s, p, pre, ks, post, delta);
            && x in l' && l'[x].depNext == l[x].depNext && l'[x].sum == l[x].sum
            && l'[x].depPrev == (if x in ks then At(p) else l[x].depPrev)
            && l'[x].weight == (if x in ks then Distributed(l[s].weight, l[x].weight, l[s].sum) else l[x].weight)
            && (x !in pre && x !in ks && x !in post ==> l'[x].sibPrev == l[x].sibPrev && l'[x].sibNext == l[x].sibNext)
  {
    assert pre != [] ==> pre[|pre| - 1] in pre;
    assert post != [] ==> post[0] in post;
    assert ks != [] ==> ks[0] in ks && ks[|ks| - 1] in ks;
  }

  lemma RemovedParent(l: Heap, f: Forest, rank: map<Id, nat>, s: Id, p: Id, pre: seq<Id>, post: seq<Id>, delta: int,
                      l': Heap)
    requires Removable(l, f, rank, s, p, pre, post) && l'.Keys == l.Keys
    requires l'[p] == l[p].(depNext := First(pre + f[s].kids + post, Null), sum := l[p].sum + delta)
    requires Chain(l', pre + f[s].kids + post, Null, Null)
    requires delta == SumWeights(Remove(f, s), f[s].kids) - f[s].weight
    ensures Shows(l', Remove(f, s), p)
  {
    assert Shows(l, f, p);
    RemovedSum(f, rank, s, p, pre, post);
  }

  /** `l'` has moved the children of `s` and nothing else. */
  ghost predicate MovedKids(l: Heap, f: Forest, s: Id, p: Id, pre: seq<Id>, post: seq<Id>, l': Heap)
    requires s in l && s in f && (f[s].kids != [] ==> l[s].sum > 0)
  {
    forall x {:trigger l'[x]} :: x in l && x != p && x != s ==> MovedKid(l, f, s, p, pre, post, l', x)
  }

  ghost predicate MovedKid(l: Heap, f: Forest, s: Id, p: Id, pre: seq<Id>, post: seq<Id>, l': Heap, x: Id)
    requires s in l && s in f && (f[s].kids != [] ==> l[s].sum > 0) && x in l
  {
    && x in l' && l'[x].depNext == l[x].depNext && l'[x].sum == l[x].sum
    && l'[x].depPrev == (if x in f[s].kids then At(p) else l[x].depPrev)
    && l'[x].weight == (if x in f[s].kids then Distributed(l[s].weight, l[x].weight, l[s].sum) else l[x].weight)
    && (x !in pre && x !in f[s].kids && x !in post ==> l'[x].sibPrev == l[x].sibPrev && l'[x].sibNext == l[x].sibNext)
  }

  lemma RemovedOther(l: Heap, f: Forest, rank: map<Id, nat>, s: Id, p: Id, pre: seq<Id>, post: seq<Id>, l': Heap, x: Id)
    requires Removable(l, f, rank, s, p, pre, post) && x in f && x != p && x != s && l'.Keys == l.Keys
    requires MovedKids(l, f, s, p, pre, post, l') && l'[p].sibPrev == l[p].sibPrev && l'[p].sibNext == l[p].sibNext
    ensures Shows(l', Remove(f, s), x)
  {
    assert Shows(l, f, x) && KidsAgree(f, x);
    forall k | k in f[x].kids && k in l
      ensures l'[k].sibPrev == l[k].sibPrev && l'[k].sibNext == l[k].sibNext
    {
      KidStays(l, f, rank, s, p, pre, post, l', x, k);
    }
    OwnLinksStay(l, f, rank, s, p, pre, post, l', x);
    ShowsFrame(l, f, l', Remove(f, s), x);
  }

  /** What the frame needs of another stream's own links. */
  lemma OwnLinksStay(l: Heap, f: Forest, rank: map<Id, nat>, s: Id, p: Id, pre: seq<Id>, post: seq<Id>, l': Heap, x: Id)
    requires Removable(l, f, rank, s, p, pre, post) && x in f && x != p && x != s && l'.Keys == l.Keys
    requires MovedKids(l, f, s, p, pre, post, l')
    ensures var f' := Remove(f, s);
            && f'[x].kids == f[x].kids && l'[x].depPrev == f'[x].parent
            && l'[x].depNext == l[x].depNext && l'[x].sum == l[x].sum && l'[x].weight == f'[x].weight
            && (f'[x].parent.Null? ==> l'[x].sibPrev.Null? && l'[x].sibNext.Null?)
            && forall k {:trigger k in f[x].kids} :: k in f[x].kids ==> WeightOf(f, k) == WeightOf(f', k)
  {
    assert Shows(l, f, x) && KidsAgree(f, x);
  }

  /** A child of another stream keeps its place. */
  lemma KidStays(l: Heap, f: Forest, rank: map<Id, nat>, s: Id, p: Id, pre: seq<Id>, post: seq<Id>, l': Heap, x: Id,
                 k: Id)
    requires Removable(l, f, rank, s, p, pre, post) && x in f && x != p && x != s && l'.Keys == l.Keys
    requires MovedKids(l, f, s, p, pre, post, l') && l'[p].sibPrev == l[p].sibPrev && l'[p].sibNext == l[p].sibNext
    requires KidsAgree(f, x) && k in f[x].kids && k in l
    ensures l'[k].sibPrev == l[k].sibPrev && l'[k].sibNext == l[k].sibNext
  {
    assert k == p || (k !in pre && k !in f[s].kids && k !in post);
  }

  lemma RemoveShows(l: Heap, f: Forest, rank: map<Id, nat>, s: Id, p: Id, pre: seq<Id>, post: seq<Id>, delta: int)
    requires Removable(l, f, rank, s, p, pre, post)
    requires delta == SumWeights(Remove(f, s), f[s].kids) - f[s].weight
    ensures Represents(Removed(l, s, p, pre, f[s].kids, post, delta), Remove(f, s))
  {
    var l' := Removed(l, s, p, pre, f[s].kids, post, delta);
    RemovedAtParent(l, s, p, pre, f[s].kids, post, delta);
    RemovedMoves(l, f, rank, s, p, pre, post, delta, l');
    RemovedChain(l, s, p, pre, f[s].kids, post, delta);
    RemovedParent(l, f, rank, s, p, pre, post, delta, l');
    RemovedSelf(l, f, rank, s, p, pre, post, delta, l');
    RemovedOthers(l, f, rank, s, p, pre, post, l');
    ShownAll(l', Remove(f, s), p, s);
  }

  lemma ShownAll(l: Heap, f: Forest, p: Id, s: Id)
    requires l.Keys == f.Keys && p in f && s in f && Shows(l, f, p) && Shows(l, f, s)
    requires forall x {:trigger Shows(l, f, x)} :: x in f && x != p && x != s ==> Shows(l, f, x)
    ensures Represents(l, f)
  {
  }

  lemma RemovedOthers(l: Heap, f: Forest, rank: map<Id, nat>, s: Id, p: Id, pre: seq<Id>, post: seq<Id>, l': Heap)
    requires Removable(l, f, rank, s, p, pre, post) && l'.Keys == l.Keys
    requires MovedKids(l, f, s, p, pre, post, l') && l'[p].sibPrev == l[p].sibPrev && l'[p].sibNext == l[p].sibNext
    ensures forall x {:trigger Shows(l', Remove(f, s), x)} :: x in f && x != p && x != s ==> Shows(l', Remove(f, s), x)
  {
    forall x | x in f && x != p && x != s {
      RemovedOther(l, f, rank, s, p, pre, post, l', x);
    }
  }

  lemma RemovedMoves(l: Heap, f: Forest, rank: map<Id, nat>, s: Id, p: Id, pre: seq<Id>, post: seq<Id>, delta: int,
                     l': Heap)
    requires Removable(l, f, rank, s, p, pre, post)
    requires l' == Removed(l, s, p, pre, f[s].kids, post, delta)
    ensures MovedKids(l, f, s, p, pre, post, l')
  {
    forall x | x in l && x != p && x != s
      ensures MovedKid(l, f, s, p, pre, post, l', x)
    {
      RemovedElsewhere(l, s, p, pre, f[s].kids, post, delta, x);
    }
  }

  lemma RemovedSelf(l: Heap, f: Forest, rank: map<Id, nat>, s: Id, p: Id, pre: seq<Id>, post: seq<Id>, delta: int,
                    l': Heap)
    requires Removable(l, f, rank, s, p, pre, post)
    requires l' == Removed(l, s, p, pre, f[s].kids, post, delta)
    ensures s in l' && Shows(l', Remove(f, s), s)
  {
    assert Shows(l, f, s);
  }

  lemma PlacedApart(l: Heap, f: Forest, rank: map<Id, nat>, s: Id, p: Id, pre: seq<Id>, post: seq<Id>)
    requires Placed(l, f, rank, s, p, pre, post)
    ensures var ks := f[s].kids;
            && Distinct(pre + ks + post) && Distinct(ks) && Distinct(pre) && Distinct(post)
            && Apart(pre, ks) && Apart(pre, post) && Apart(ks, post) && s !in pre && s !in post
  {
    var ks := f[s].kids;
    assert KidsAgree(f, s) && KidsAgree(f, p);
    DistinctParts(pre, [s], post);
    assert [s][0] == s && s in f[p].kids;
    ReplaceIn(f[p].kids, s, ks);
    assert Replace(f[p].kids, s, ks) == pre + ks + post;
    DistinctParts(pre, ks, post);
  }

  lemma PlacedAround(l: Heap, f: Forest, rank: map<Id, nat>, s: Id, p: Id, pre: seq<Id>, post: seq<Id>)
    requires Placed(l, f, rank, s, p, pre, post)
    requires l[s].sibPrev == Last(pre, Null) && l[s].sibNext == First(post, Null)
    ensures Around(l, s, p, pre, f[s].kids, post)
  {
    PlacedApart(l, f, rank, s, p, pre, post);
    assert KidsAgree(f, s) && KidsAgree(f, p) && Shows(l, f, s) && Shows(l, f, p);
    assert forall k :: k in post ==> Shows(l, f, k);
  }

  lemma CanRemove(l: Heap, f: Forest, rank: map<Id, nat>, s: Id) returns (p: Id, pre: seq<Id>, post: seq<Id>)
    requires Wf(f, rank) && Represents(l, f) && s in f && f[s].parent.At?
    ensures Removable(l, f, rank, s, p, pre, post)
  {
    p, pre, post := Place(l, f, rank, s);
    assert KidsAgree(f, s) && ParentAgrees(f, s) && Shows(l, f, s);
    SumPositive(f, rank, s);
    PlacedApart(l, f, rank, s, p, pre, post);
    PlacedAround(l, f, rank, s, p, pre, post);
  }

  lemma SharedWeights(l: Heap, f: Forest, rank: map<Id, nat>, s: Id, p: Id, pre: seq<Id>, post: seq<Id>)
    requires Removable(l, f, rank, s, p, pre, post)
    ensures s !in f[s].kids
    ensures forall k {:trigger k in f[s].kids} :: k in f[s].kids ==>
              k in l && WeightOf(Remove(f, s), k) == Distributed(l[s].weight, l[k].weight, l[s].sum)
  {
    forall k | k in f[s].kids
      ensures k in l && WeightOf(Remove(f, s), k) == Distributed(l[s].weight, l[k].weight, l[s].sum)
    {
      assert Shows(l, f, k);
    }
  }

  /** The pointer part of `nghttp2_stream_dep_remove`. */
  method TakeOut(l0: Heap, s: Id, p: Id, ghost pre: seq<Id>, ghost ks: seq<Id>, ghost post: seq<Id>, ghost g: Forest)
    returns (l: Heap, delta: int)
    requires Around(l0, s, p, pre, ks, post) && s !in ks && (ks != [] ==> l0[s].sum > 0)
    requires forall k {:trigger k in ks} :: k in ks ==>
               k in l0 && WeightOf(g, k) == Distributed(l0[s].weight, l0[k].weight, l0[s].sum)
    ensures delta == SumWeights(g, ks) - l0[s].weight
    ensures l == Removed(l0, s, p, pre, ks, post, delta)
  {
    l, delta := ShareWeight(l0, s, ks, g);
    SharedAround(l0, l, s, p, pre, ks, post, delta);
    l := Summed(l, p, delta);
    l := Unlink(l, s, p, pre, ks, post);
    l := Isolated(l, s);
  }

  lemma SharedAround(l: Heap, l': Heap, s: Id, p: Id, pre: seq<Id>, ks: seq<Id>, post: seq<Id>, delta: int)
    requires Around(l, s, p, pre, ks, post) && (ks != [] ==> l[s].sum > 0)
    requires l' == Shared(l, ks, l[s].weight, l[s].sum)
    ensures p in l' && Around(Summed(l', p, delta), s, p, pre, ks, post)
  {
    AroundFrame(l, Summed(l', p, delta), s, p, pre, ks, post);
  }

  /** `nghttp2_stream_dep_remove`, without the queues. */
  method RemoveStream(l0: Heap, s: Id, ghost f: Forest, ghost rank: map<Id, nat>) returns (l: Heap)
    requires Wf(f, rank) && Represents(l0, f) && s in f && f[s].parent.At? && ParentAgrees(f, s) && KidsAgree(f, s)
    requires f[s].kids != [] ==> SumWeights(f, f[s].kids) > 0
    ensures Represents(l, Remove(f, s))
  {
    ghost var p, pre, post := CanRemove(l0, f, rank, s);
    SharedWeights(l0, f, rank, s, p, pre, post);
    var delta;
    l, delta := TakeOut(l0, s, l0[s].depPrev.id, pre, f[s].kids, post, Remove(f, s));
    RemoveShows(l0, f, rank, s, p, pre, post, delta);
  }

  lemma AroundFrame(l: Heap, l': Heap, s: Id, p: Id, pre: seq<Id>, ks: seq<Id>, post: seq<Id>)
    requires Around(l, s, p, pre, ks, post) && l'.Keys == l.Keys
    requires forall x {:trigger l'[x]} :: x in l ==> l'[x] == l[x].(weight := l'[x].weight, sum := l'[x].sum)
    ensures Around(l', s, p, pre, ks, post)
  {
    ChainFrame(l, l', ks, Null, Null);
  }

  // ---------------------------------------------------------------------------- inserting

  /** `s` is a root with children `ks`, and `ds` are the children of `dep`. */
  ghost predicate Apex(l: Heap, dep: Id, s: Id, ks: seq<Id>, ds: seq<Id>) {
    && dep in l && s in l && dep != s && Distinct(ks) && Distinct(ds) && Apart(ks, ds)
    && (forall k {:trigger k in ks} :: k in ks ==> k in l && k != s && k != dep)
    && (forall k {:trigger k in ds} :: k in ds ==> k in l && k != s && k != dep)
    && l[s].depNext == First(ks, Null) && l[dep].depNext == First(ds, Null)
    && l[s].sibPrev == l[s].sibNext == Null
    && Chain(l, ks, Null, Null) && Chain(l, ds, Null, Null)
  }

  /** The links after `s` has come between `dep` and its children. */
  ghost function Inserted(l: Heap, dep: Id, s: Id, ks: seq<Id>, ds: seq<Id>): Heap
    requires dep in l && s in l
  {
    map x | x in l ::
      if x == dep then l[x].(depNext := At(s), sum := l[s].weight)
      else if x == s then l[x].(depPrev := At(dep), depNext := First(ks + ds, Null), sum := l[s].sum + l[dep].sum)
      else if x in ds then l[x].(depPrev := At(s), sibPrev := if x == ds[0] then Last(ks, Null) else l[x].sibPrev)
      else if Last(ks, Null) == At(x) then l[x].(sibNext := First(ds, Null))
      else l[x]
  }

  /** `nghttp2_stream_dep_insert`, without the queues. */
  method InsertStream(l0: Heap, dep: Id, s: Id, ghost ds: seq<Id>) returns (l: Heap)
    requires Apex(l0, dep, s, [], ds) && l0[s].sum == 0
    ensures l == Inserted(l0, dep, s, [], ds)
  {
    l := l0[s := l0[s].(sum := l0[dep].sum)];
    l := l[dep := l[dep].(sum := l[s].weight)];
    if l[dep].depNext.At? {
      ChainFrame(l0, l, ds, Null, Null);
      l := SetDepPrev(l, l[dep].depNext, At(s), ds, Null);
      l := l[s := l[s].(depNext := l[dep].depNext)];
    }
    l := l[dep := l[dep].(depNext := At(s))];
    l := l[s := l[s].(depPrev := At(dep))];
    assert ds != [] ==> Linked(l0, ds, Null, Null, 0);
    assert [] + ds == ds;
  }

  /** `nghttp2_stream_dep_insert_subtree`, without the queues. */
  method InsertSubtree(l0: Heap, dep: Id, s: Id, ghost ks: seq<Id>, ghost ds: seq<Id>) returns (l: Heap)
    requires Apex(l0, dep, s, ks, ds)
    ensures l == Inserted(l0, dep, s, ks, ds)
  {
    assert ks != [] ==> ks[0] in ks && ks[|ks| - 1] in ks && Linked(l0, ks, Null, Null, |ks| - 1);
    l := l0[s := l0[s].(sum := l0[s].sum + l0[dep].sum)];
    l := l[dep := l[dep].(sum := l[s].weight)];
    if l[dep].depNext.At? {
      var depNext := l[dep].depNext;
      assert ds[0] in ds && Linked(l0, ds, Null, Null, 0);
      l := LinkDep(l, dep, At(s));
      if l[s].depNext.At? {
        ChainFrame(l0, l, ks, Null, Null);
        var last := LastSib(l, l[s].depNext.id, ks, Null);
        l := LinkSib(l, last, depNext);
      } else {
        l := LinkDep(l, s, depNext);
      }
      TailLinked(l0, l, ds, Last(ks, Null));
      l := SetDepPrev(l, depNext, At(s), ds, Last(ks, Null));
    } else {
      l := LinkDep(l, dep, At(s));
      assert ks + ds == ks;
    }
  }

  lemma TailLinked(l: Heap, l': Heap, ds: seq<Id>, prev: Ptr)
    requires Chain(l, ds, Null, Null) && ds != [] && Distinct(ds) && l'.Keys == l.Keys
    requires forall k {:trigger k in ds} :: k in ds && k in l ==>
               l'[k].sibNext == l[k].sibNext && l'[k].sibPrev == (if k == ds[0] then prev else l[k].sibPrev)
    ensures Chain(l', ds, prev, Null)
  {
    forall i | 0 <= i < |ds|
      ensures Linked(l', ds, prev, Null, i)
    {
      assert Linked(l, ds, Null, Null, i) && ds[i] in ds;
    }
  }

  lemma CanInsert(l: Heap, f: Forest, rank: map<Id, nat>, dep: Id, s: Id)
    requires Wf(f, rank) && Represents(l, f) && dep in f && s in f && f[s].parent.Null? && !Under(f, rank, s, dep)
    ensures Apex(l, dep, s, f[s].kids, f[dep].kids)
  {
    var ks, ds := f[s].kids, f[dep].kids;
    assert KidsAgree(f, s) && KidsAgree(f, dep) && Shows(l, f, s) && Shows(l, f, dep) && ParentAgrees(f, dep);
    assert forall i :: 0 <= i < |ks| ==> ks[i] in ks;
    assert forall i :: 0 <= i < |ds| ==> ds[i] in ds;
    assert f[dep].parent != At(s) by {
      if f[dep].parent == At(s) {
        assert Under(f, rank, s, s);
      }
    }
  }

  lemma InsertedChain(l: Heap, dep: Id, s: Id, ks: seq<Id>, ds: seq<Id>)
    requires Apex(l, dep, s, ks, ds)
    ensures Chain(Inserted(l, dep, s, ks, ds), ks + ds, Null, Null)
    ensures Chain(Inserted(l, dep, s, ks, ds), [s], Null, Null)
  {
    var l' := Inserted(l, dep, s, ks, ds);
    forall i | 0 <= i < |ks|
      ensures Linked(l', ks, Null, First(ds, Null), i)
    {
      assert Linked(l, ks, Null, Null, i) && ks[i] in ks;
    }
    forall i | 0 <= i < |ds|
      ensures Linked(l', ds, Last(ks, Null), Null, i)
    {
      assert Linked(l, ds, Null, Null, i) && ds[i] in ds;
    }
    ChainParts(l', ks, ds, Null, Null);
    assert Linked(l', [s], Null, Null, 0);
  }

  lemma InsertShows(l: Heap, f: Forest, rank: map<Id, nat>, dep: Id, s: Id)
    requires Wf(f, rank) && Represents(l, f) && dep in f && s in f && f[s].parent.Null?
    requires Apex(l, dep, s, f[s].kids, f[dep].kids)
    ensures Represents(Inserted(l, dep, s, f[s].kids, f[dep].kids), Insert(f, dep, s))
  {
    var ks, ds := f[s].kids, f[dep].kids;
    var l', g := Inserted(l, dep, s, ks, ds), Insert(f, dep, s);
    InsertedChain(l, dep, s, ks, ds);
    forall x | x in g
      ensures Shows(l', g, x)
    {
      assert Shows(l, f, x) && KidsAgree(f, x);
      if x == s {
        assert Shows(l, f, dep);
        SumJoin(g, ks, ds);
        SumFrame(f, g, ks);
        SumFrame(f, g, ds);
      } else if x == dep {
        assert Shows(l, f, s) && [s][1..] == [];
      } else {
        InsertedOther(l, f, rank, dep, s, x);
      }
    }
  }

  lemma InsertedOther(l: Heap, f: Forest, rank: map<Id, nat>, dep: Id, s: Id, x: Id)
    requires Wf(f, rank) && Represents(l, f) && dep in f && s in f && f[s].parent.Null? && x in f && x != dep && x != s
    requires Apex(l, dep, s, f[s].kids, f[dep].kids)
    ensures Shows(Inserted(l, dep, s, f[s].kids, f[dep].kids), Insert(f, dep, s), x)
  {
    var ks, ds := f[s].kids, f[dep].kids;
    assert Shows(l, f, x) && KidsAgree(f, x) && KidsAgree(f, s) && KidsAgree(f, dep);
    assert ks != [] ==> ks[|ks| - 1] in ks;
    KidsOf(f, rank, dep, x);
    ShowsFrame(l, f, Inserted(l, dep, s, ks, ds), Insert(f, dep, s), x);
  }
}
