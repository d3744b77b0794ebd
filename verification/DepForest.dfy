/**
  * Dependency trees as values: every stream has a parent or none, a list of children and a weight.
  * The edits are those of RFC 7540 section 5.3, made by the `dep_*` functions of
  * lib/nghttp2_stream.c.
  */
module DepForest {
  import Bytes

  type Id = nat

  datatype Ptr = Null | At(id: Id)

  datatype Node = Node(parent: Ptr, kids: seq<Id>, weight: nat)

  type Forest = map<Id, Node>

  // -------------------------------------------------------------------- well-formed forests

  ghost predicate Distinct(s: seq<Id>) {
    forall i, j {:trigger s[i], s[j]} :: 0 <= i < j < |s| ==> s[i] != s[j]
  }

  /** The children of `s` name it as their parent. */
  ghost predicate KidsAgree(f: Forest, s: Id)
    requires s in f
  {
    Distinct(f[s].kids) && forall k {:trigger k in f[s].kids} :: k in f[s].kids ==> k in f && f[k].parent == At(s)
  }

  /** The parent of `s` lists it. */
  ghost predicate ParentAgrees(f: Forest, s: Id)
    requires s in f
  {
    f[s].parent.At? ==> f[s].parent.id in f && s in f[f[s].parent.id].kids
  }

  /** Every parent has a smaller rank: there is no cycle. */
  ghost predicate Ranked(f: Forest, rank: map<Id, nat>) {
    forall s {:trigger f[s]} :: s in f ==>
      s in rank && (f[s].parent.At? ==> f[s].parent.id in rank && rank[f[s].parent.id] < rank[s])
  }

  ghost predicate Weighted(f: Forest) {
    forall s {:trigger f[s]} :: s in f ==> 1 <= f[s].weight <= 256
  }

  ghost predicate Wf(f: Forest, rank: map<Id, nat>) {
    && (forall s {:trigger KidsAgree(f, s)} :: s in f ==> KidsAgree(f, s))
    && (forall s {:trigger ParentAgrees(f, s)} :: s in f ==> ParentAgrees(f, s))
    && Ranked(f, rank)
    && Weighted(f)
  }

  lemma KidsOf(f: Forest, rank: map<Id, nat>, p: Id, k: Id)
    requires Wf(f, rank) && p in f && k in f
    ensures k in f[p].kids <==> f[k].parent == At(p)
  {
    assert KidsAgree(f, p) && ParentAgrees(f, k);
  }

  /** `nghttp2_stream_dep_find_ancestor`: `a` is `x` or one of its ancestors. */
  ghost predicate Under(f: Forest, rank: map<Id, nat>, a: Id, x: Id)
    requires Wf(f, rank) && x in f
    decreases rank[x]
  {
    x == a || (f[x].parent.At? && assert ParentAgrees(f, x); Under(f, rank, a, f[x].parent.id))
  }

  lemma {:induction false} UnderRank(f: Forest, rank: map<Id, nat>, a: Id, x: Id)
    requires Wf(f, rank) && x in f && Under(f, rank, a, x)
    ensures a in f && rank[a] <= rank[x] && (x != a ==> rank[a] < rank[x])
    decreases rank[x]
  {
    if x != a {
      assert ParentAgrees(f, x);
      UnderRank(f, rank, a, f[x].parent.id);
    }
  }

  // ------------------------------------------------------------------------------ edits

  /**
    * `nghttp2_stream_dep_insert` and `nghttp2_stream_dep_insert_subtree`: `s` becomes the only child
    * of `dep`, and the former children of `dep` follow those of `s`.
    */
  function Insert(f: Forest, dep: Id, s: Id): Forest
    requires dep in f && s in f
  {
    map x | x in f ::
      if x == dep then f[x].(kids := [s])
      else if x == s then f[x].(parent := At(dep), kids := f[s].kids + f[dep].kids)
      else if f[x].parent == At(dep) then f[x].(parent := At(s))
      else f[x]
  }

  /** `nghttp2_stream_dep_add` and `nghttp2_stream_dep_add_subtree`: `s` becomes the first child of `dep`. */
  function Add(f: Forest, dep: Id, s: Id): Forest
    requires dep in f && s in f
  {
    map x | x in f ::
      if x == dep then f[x].(kids := [s] + f[dep].kids)
      else if x == s then f[x].(parent := At(dep))
      else f[x]
  }

  function IndexOf(s: seq<Id>, x: Id): (i: nat)
    requires x in s
    ensures i < |s| && s[i] == x
  {
    if s[0] == x then 0 else 1 + IndexOf(s[1..], x)
  }

  /** `subst` in the place of `x`. */
  function Replace(s: seq<Id>, x: Id, subst: seq<Id>): seq<Id>
    requires x in s
  {
    s[..IndexOf(s, x)] + subst + s[IndexOf(s, x) + 1..]
  }

  /** `nghttp2_stream_dep_remove_subtree`. */
  function RemoveSubtree(f: Forest, s: Id): Forest
    requires s in f && f[s].parent.At? && ParentAgrees(f, s)
  {
    map x | x in f ::
      if At(x) == f[s].parent then f[x].(kids := Replace(f[x].kids, s, []))
      else if x == s then f[x].(parent := Null)
      else f[x]
  }

  function WeightOf(f: Forest, x: Id): nat {
    if x in f then f[x].weight else 0
  }

  /** The sum of the weights of the streams in `kids`. */
  function SumWeights(f: Forest, kids: seq<Id>): nat {
    if kids == [] then 0 else WeightOf(f, kids[0]) + SumWeights(f, kids[1..])
  }

  /** `nghttp2_stream_dep_distributed_weight`. */
  function Distributed(weight: nat, share: nat, sum: nat): (r: nat)
    requires sum > 0
    ensures r >= 1
  {
    if weight * share / sum < 1 then 1 else weight * share / sum
  }

  lemma DistributedRange(weight: nat, share: nat, sum: nat)
    requires 1 <= weight <= 256 && 1 <= share <= sum
    ensures 1 <= Distributed(weight, share, sum) <= weight
  {
    Bytes.MulMonotone(weight, share, sum);
    Bytes.DivAtMost(weight * share, sum, weight);
  }

  /**
    * `nghttp2_stream_dep_remove`: the children of `s` take its place, and share its weight.
    */
  function Remove(f: Forest, s: Id): Forest
    requires s in f && f[s].parent.At? && ParentAgrees(f, s) && KidsAgree(f, s)
    requires f[s].kids != [] ==> SumWeights(f, f[s].kids) > 0
  {
    map x | x in f ::
      if At(x) == f[s].parent then f[x].(kids := Replace(f[x].kids, s, f[s].kids))
      else if x == s then f[x].(parent := Null, kids := [])
      else if x in f[s].kids then
        f[x].(parent := f[s].parent, weight := Distributed(f[s].weight, f[x].weight, SumWeights(f, f[s].kids)))
      else f[x]
  }

  // --------------------------------------------------------- the edits keep forests well-formed

  ghost function AddRank(f: Forest, rank: map<Id, nat>, dep: Id, s: Id): map<Id, nat>
    requires Wf(f, rank) && dep in f && s in f
  {
    map x | x in f :: if Under(f, rank, s, x) then rank[x] + rank[dep] + 1 else rank[x]
  }

  lemma AddKids(f: Forest, rank: map<Id, nat>, dep: Id, s: Id, x: Id)
    requires Wf(f, rank) && dep in f && s in f && f[s].parent.Null? && dep != s && x in f
    ensures KidsAgree(Add(f, dep, s), x)
  {
    assert KidsAgree(f, x);
    if x == dep {
      KidsOf(f, rank, dep, s);
    }
  }

  lemma AddParent(f: Forest, rank: map<Id, nat>, dep: Id, s: Id, x: Id)
    requires Wf(f, rank) && dep in f && s in f && f[s].parent.Null? && dep != s && x in f
    ensures ParentAgrees(Add(f, dep, s), x)
  {
    assert ParentAgrees(f, x);
  }

  lemma AddRanked(f: Forest, rank: map<Id, nat>, dep: Id, s: Id, x: Id)
    requires Wf(f, rank) && dep in f && s in f && f[s].parent.Null? && !Under(f, rank, s, dep) && x in f
    ensures var g, r := Add(f, dep, s), AddRank(f, rank, dep, s);
            g[x].parent.At? ==> g[x].parent.id in r && r[g[x].parent.id] < r[x]
  {
    assert ParentAgrees(f, x);
  }

  /** A tree is put under a stream outside of it. */
  lemma AddWf(f: Forest, rank: map<Id, nat>, dep: Id, s: Id)
    requires Wf(f, rank) && dep in f && s in f && f[s].parent.Null? && !Under(f, rank, s, dep)
    ensures Wf(Add(f, dep, s), AddRank(f, rank, dep, s))
  {
    forall x | x in f
      ensures KidsAgree(Add(f, dep, s), x)
    {
      AddKids(f, rank, dep, s, x);
    }
    forall x | x in f
      ensures ParentAgrees(Add(f, dep, s), x)
    {
      AddParent(f, rank, dep, s, x);
    }
    var g, r := Add(f, dep, s), AddRank(f, rank, dep, s);
    forall x {:trigger g[x]} | x in g
      ensures x in r && (g[x].parent.At? ==> g[x].parent.id in r && r[g[x].parent.id] < r[x])
    {
      AddRanked(f, rank, dep, s, x);
    }
  }

  ghost function InsertRank(f: Forest, rank: map<Id, nat>, dep: Id, s: Id): map<Id, nat>
    requires Wf(f, rank) && dep in f && s in f
  {
    map x | x in f ::
      if Under(f, rank, s, x) then rank[x] + rank[dep] + 1
      else if x != dep && Under(f, rank, dep, x) then rank[x] + rank[dep] + rank[s] + 2
      else rank[x]
  }

  /** A child of `dep` other than `s` now hangs below `s`. */
  lemma InsertRankedBelow(f: Forest, rank: map<Id, nat>, dep: Id, s: Id, x: Id)
    requires Wf(f, rank) && dep in f && s in f && !Under(f, rank, s, dep)
    requires x in f && x != s && f[x].parent == At(dep)
    ensures var r := InsertRank(f, rank, dep, s); r[s] < r[x]
  {
    assert ParentAgrees(f, x);
    assert Under(f, rank, dep, dep) && Under(f, rank, dep, x) && x != dep;
    assert !Under(f, rank, s, x) && Under(f, rank, s, s);
  }

  /** A stream that keeps its parent. */
  lemma InsertRankedElsewhere(f: Forest, rank: map<Id, nat>, dep: Id, s: Id, x: Id)
    requires Wf(f, rank) && dep in f && s in f && !Under(f, rank, s, dep)
    requires x in f && x != s && f[x].parent.At? && f[x].parent.id != dep && f[x].parent.id in f
    ensures var r := InsertRank(f, rank, dep, s); r[f[x].parent.id] < r[x]
  {
    var y := f[x].parent.id;
    assert ParentAgrees(f, x);
    assert Under(f, rank, s, x) <==> Under(f, rank, s, y);
    if x == dep {
      if Under(f, rank, dep, y) {
        UnderRank(f, rank, dep, y);
      }
    } else {
      assert Under(f, rank, dep, x) <==> Under(f, rank, dep, y);
    }
  }

  lemma InsertRanked(f: Forest, rank: map<Id, nat>, dep: Id, s: Id, x: Id)
    requires Wf(f, rank) && dep in f && s in f && f[s].parent.Null? && !Under(f, rank, s, dep) && x in f
    ensures var g, r := Insert(f, dep, s), InsertRank(f, rank, dep, s);
            g[x].parent.At? ==> g[x].parent.id in r && r[g[x].parent.id] < r[x]
  {
    assert ParentAgrees(f, x);
    if x == s {
      assert Under(f, rank, s, s);
    } else if f[x].parent == At(dep) {
      InsertRankedBelow(f, rank, dep, s, x);
    } else if f[x].parent.At? {
      InsertRankedElsewhere(f, rank, dep, s, x);
    }
  }

  lemma BothKids(f: Forest, rank: map<Id, nat>, dep: Id, s: Id)
    requires Wf(f, rank) && dep in f && s in f && dep != s
    ensures Distinct(f[s].kids + f[dep].kids)
  {
    assert KidsAgree(f, s) && KidsAgree(f, dep);
    var both := f[s].kids + f[dep].kids;
    forall i, j | 0 <= i < j < |both|
      ensures both[i] != both[j]
    {
      if i < |f[s].kids| <= j {
        assert both[i] in f[s].kids && both[j] in f[dep].kids;
      }
    }
  }

  lemma InsertKids(f: Forest, rank: map<Id, nat>, dep: Id, s: Id, x: Id)
    requires Wf(f, rank) && dep in f && s in f && f[s].parent.Null? && dep != s && x in f
    ensures KidsAgree(Insert(f, dep, s), x)
  {
    assert KidsAgree(f, x) && KidsAgree(f, dep);
    if x == s {
      BothKids(f, rank, dep, s);
    }
  }

  lemma InsertParent(f: Forest, rank: map<Id, nat>, dep: Id, s: Id, x: Id)
    requires Wf(f, rank) && dep in f && s in f && f[s].parent.Null? && dep != s && x in f
    ensures ParentAgrees(Insert(f, dep, s), x)
  {
    assert ParentAgrees(f, x);
  }

  lemma InsertWf(f: Forest, rank: map<Id, nat>, dep: Id, s: Id)
    requires Wf(f, rank) && dep in f && s in f && f[s].parent.Null? && !Under(f, rank, s, dep)
    ensures Wf(Insert(f, dep, s), InsertRank(f, rank, dep, s))
  {
    forall x | x in f
      ensures KidsAgree(Insert(f, dep, s), x)
    {
      InsertKids(f, rank, dep, s, x);
    }
    forall x | x in f
      ensures ParentAgrees(Insert(f, dep, s), x)
    {
      InsertParent(f, rank, dep, s, x);
    }
    InsertAcyclic(f, rank, dep, s);
  }

  lemma InsertAcyclic(f: Forest, rank: map<Id, nat>, dep: Id, s: Id)
    requires Wf(f, rank) && dep in f && s in f && f[s].parent.Null? && !Under(f, rank, s, dep)
    ensures Ranked(Insert(f, dep, s), InsertRank(f, rank, dep, s))
  {
    var g, r := Insert(f, dep, s), InsertRank(f, rank, dep, s);
    forall x {:trigger g[x]} | x in g
      ensures x in r && (g[x].parent.At? ==> g[x].parent.id in r && r[g[x].parent.id] < r[x])
    {
      InsertRanked(f, rank, dep, s, x);
    }
  }

  lemma RemoveSubtreeWf(f: Forest, rank: map<Id, nat>, s: Id)
    requires Wf(f, rank) && s in f && f[s].parent.At? && ParentAgrees(f, s)
    ensures Wf(RemoveSubtree(f, s), rank)
  {
    var g, p := RemoveSubtree(f, s), f[s].parent.id;
    assert KidsAgree(f, p);
    ReplaceIn(f[p].kids, s, []);
    forall x | x in g
      ensures KidsAgree(g, x) && ParentAgrees(g, x)
    {
      assert KidsAgree(f, x) && ParentAgrees(f, x);
    }
  }

  /** What is in a list after a replacement. */
  lemma ReplaceIn(kids: seq<Id>, x: Id, subst: seq<Id>)
    requires x in kids && Distinct(kids)
    ensures forall k :: k in Replace(kids, x, subst) <==> (k in kids && k != x) || k in subst
    ensures Distinct(subst) && (forall k :: k in subst ==> k !in kids) ==> Distinct(Replace(kids, x, subst))
  {
    var i := IndexOf(kids, x);
    var r := Replace(kids, x, subst);
    assert kids == kids[..i] + [x] + kids[i + 1..];
    assert forall k :: k in r <==> k in kids[..i] || k in subst || k in kids[i + 1..];
    if Distinct(subst) && (forall k :: k in subst ==> k !in kids) {
      forall a, b | 0 <= a < b < |r|
        ensures r[a] != r[b]
      {
        ReplaceApart(kids, i, subst, a, b);
      }
    }
  }

  lemma ReplaceApart(kids: seq<Id>, i: nat, subst: seq<Id>, a: nat, b: nat)
    requires i < |kids| && Distinct(kids) && Distinct(subst) && (forall k :: k in subst ==> k !in kids)
    requires a < b < |kids[..i] + subst + kids[i + 1..]|
    ensures (kids[..i] + subst + kids[i + 1..])[a] != (kids[..i] + subst + kids[i + 1..])[b]
  {
    var r := kids[..i] + subst + kids[i + 1..];
    assert forall j :: 0 <= j < |r| ==>
      r[j] == if j < i then kids[j] else if j < i + |subst| then subst[j - i] else kids[j - |subst| + 1];
    assert i <= a < i + |subst| ==> r[a] in subst;
    assert i <= b < i + |subst| ==> r[b] in subst;
    assert a < i || a >= i + |subst| ==> r[a] in kids;
    assert b < i || b >= i + |subst| ==> r[b] in kids;
  }

  lemma {:induction false} ShareInSum(f: Forest, kids: seq<Id>, k: Id)
    requires k in kids
    ensures WeightOf(f, k) <= SumWeights(f, kids)
  {
    if kids[0] != k {
      ShareInSum(f, kids[1..], k);
    }
  }

  /** A stream with children has a positive sum of weights. */
  lemma SumPositive(f: Forest, rank: map<Id, nat>, s: Id)
    requires Wf(f, rank) && s in f
    ensures f[s].kids != [] ==> SumWeights(f, f[s].kids) > 0
  {
    if f[s].kids != [] {
      assert KidsAgree(f, s) && f[s].kids[0] in f[s].kids;
      ShareInSum(f, f[s].kids, f[s].kids[0]);
    }
  }

  /** The weight of `s` goes to its children in proportion to theirs, rounded down but to 1 at least. */
  ghost predicate FairShares(f: Forest, g: Forest, s: Id)
    requires s in f
  {
    var kids := f[s].kids;
    forall k {:trigger k in kids} :: k in kids ==>
      k in f && k in g && ShareOk(g[k].weight, f[s].weight, f[k].weight, SumWeights(f, kids))
  }

  /** `w` is `weight * share / sum` rounded down, or 1. */
  ghost predicate ShareOk(w: nat, weight: nat, share: nat, sum: nat) {
    1 <= w && (w == 1 || w * sum <= weight * share) && weight * share < (w + 1) * sum
  }

  /** Together the children have the weight of `s`, up to one for each of them. */
  ghost predicate SharesAddUp(f: Forest, g: Forest, s: Id)
    requires s in f
  {
    var kids := f[s].kids;
    && SumWeights(g, kids) <= f[s].weight + |kids|
    && (kids != [] ==> f[s].weight < SumWeights(g, kids) + |kids|)
  }

  lemma DistributedExactly(weight: nat, share: nat, sum: nat)
    requires sum > 0
    ensures ShareOk(Distributed(weight, share, sum), weight, share, sum)
  {
    var q := weight * share / sum;
    Bytes.Decomposed(weight * share, sum);
    assert (q + 1) * sum == q * sum + sum;
    assert q < 1 ==> weight * share < sum <= 2 * sum;
  }

  lemma ShareBounds(w: nat, weight: nat, share: nat, sum: nat)
    requires ShareOk(w, weight, share, sum)
    ensures w * sum <= weight * share + sum && weight * share < w * sum + sum
  {
    assert (w + 1) * sum == w * sum + sum;
  }

  lemma {:induction false} SharesTotal(f: Forest, g: Forest, kids: seq<Id>, weight: nat, sum: nat)
    requires forall k {:trigger k in kids} :: k in kids ==>
               k in f && k in g && ShareOk(g[k].weight, weight, f[k].weight, sum)
    ensures SumWeights(g, kids) * sum <= weight * SumWeights(f, kids) + |kids| * sum
    ensures weight * SumWeights(f, kids) <= SumWeights(g, kids) * sum + |kids| * sum
    ensures kids != [] ==> weight * SumWeights(f, kids) < SumWeights(g, kids) * sum + |kids| * sum
  {
    if kids != [] {
      var k, rest := kids[0], kids[1..];
      assert k in kids && forall x :: x in rest ==> x in kids;
      SharesTotal(f, g, rest, weight, sum);
      ShareBounds(g[k].weight, weight, f[k].weight, sum);
      Distribute(weight, f[k].weight, SumWeights(f, rest));
      Distribute(sum, g[k].weight, SumWeights(g, rest));
      Distribute(sum, 1, |rest|);
    }
  }

  lemma Distribute(a: nat, b: nat, c: nat)
    ensures a * (b + c) == a * b + a * c && (b + c) * a == b * a + c * a
  {
  }

  lemma CancelSum(a: nat, b: nat, sum: nat)
    requires sum > 0
    ensures a * sum <= b * sum ==> a <= b
    ensures a * sum < b * sum ==> a < b
  {
    if a > b {
      Bytes.MulMonotone(sum, b, a);
    }
  }

  /** What the children of a removed stream get. */
  lemma SharesExactly(f: Forest, rank: map<Id, nat>, s: Id)
    requires Wf(f, rank) && s in f && f[s].parent.At? && ParentAgrees(f, s) && KidsAgree(f, s)
    requires f[s].kids != [] ==> SumWeights(f, f[s].kids) > 0
    ensures FairShares(f, Remove(f, s), s) && SharesAddUp(f, Remove(f, s), s)
  {
    var g, kids, sum := Remove(f, s), f[s].kids, SumWeights(f, f[s].kids);
    forall k {:trigger k in kids} | k in kids
      ensures k in f && k in g && ShareOk(g[k].weight, f[s].weight, f[k].weight, sum)
    {
      KidsOf(f, rank, s, k);
      DistributedExactly(f[s].weight, f[k].weight, sum);
    }
    SharesTotal(f, g, kids, f[s].weight, sum);
    if kids != [] {
      Distribute(sum, f[s].weight, |kids|);
      Distribute(sum, SumWeights(g, kids), |kids|);
      CancelSum(SumWeights(g, kids), f[s].weight + |kids|, sum);
      CancelSum(f[s].weight, SumWeights(g, kids) + |kids|, sum);
    }
  }

  lemma RemoveKids(f: Forest, rank: map<Id, nat>, s: Id, x: Id)
    requires Wf(f, rank) && s in f && f[s].parent.At? && ParentAgrees(f, s) && KidsAgree(f, s) && x in f
    requires f[s].kids != [] ==> SumWeights(f, f[s].kids) > 0
    ensures KidsAgree(Remove(f, s), x)
  {
    assert KidsAgree(f, x);
    if At(x) == f[s].parent {
      assert forall k :: k in f[s].kids ==> k !in f[x].kids;
      ReplaceIn(f[x].kids, s, f[s].kids);
      assert x !in f[s].kids by { KidsOf(f, rank, s, x); }
    }
  }

  lemma RemoveParent(f: Forest, rank: map<Id, nat>, s: Id, x: Id)
    requires Wf(f, rank) && s in f && f[s].parent.At? && ParentAgrees(f, s) && KidsAgree(f, s) && x in f
    requires f[s].kids != [] ==> SumWeights(f, f[s].kids) > 0
    ensures ParentAgrees(Remove(f, s), x)
  {
    var p := f[s].parent.id;
    assert ParentAgrees(f, x) && KidsAgree(f, p);
    ReplaceIn(f[p].kids, s, f[s].kids);
    KidsOf(f, rank, s, x);
  }

  lemma RemoveWf(f: Forest, rank: map<Id, nat>, s: Id)
    requires Wf(f, rank) && s in f && f[s].parent.At? && ParentAgrees(f, s) && KidsAgree(f, s)
    requires f[s].kids != [] ==> SumWeights(f, f[s].kids) > 0
    ensures Wf(Remove(f, s), rank)
  {
    var g := Remove(f, s);
    forall x | x in f
      ensures KidsAgree(g, x)
    {
      RemoveKids(f, rank, s, x);
    }
    forall x | x in f
      ensures ParentAgrees(g, x)
    {
      RemoveParent(f, rank, s, x);
    }
    forall x {:trigger g[x]} | x in g
      ensures 1 <= g[x].weight <= 256
    {
      if x in f[s].kids {
        ShareInSum(f, f[s].kids, x);
        DistributedRange(f[s].weight, f[x].weight, SumWeights(f, f[s].kids));
      }
    }
    forall x {:trigger g[x]} | x in g
      ensures x in rank && (g[x].parent.At? ==> g[x].parent.id in rank && rank[g[x].parent.id] < rank[x])
    {
      KidsOf(f, rank, s, x);
    }
  }
}
