/**
  * The binary heap of lib/nghttp2_pq.c.  Entries are distinct objects, each of which knows its
  * position; the array grows by doubling.  Keys live outside the heap, so every operation is given
  * the order that holds when it runs.
  */
module Pq {

  /** A strict weak order on the elements of `s`. */
  ghost predicate WeakOrder<T(!new)>(less: (T, T) -> bool, s: set<T>) {
    && (forall a, b :: a in s && b in s && less(a, b) ==> !less(b, a))
    && (forall a, b, c :: a in s && b in s && c in s && less(a, c) ==> less(a, b) || less(b, c))
  }

  function Parent(i: nat): nat
    requires i > 0
  {
    (i - 1) / 2
  }

  /** Position `j` is not before its parent. */
  ghost predicate Ordered<T(!new)>(less: (T, T) -> bool, q: seq<T>, j: nat)
    requires 0 < j < |q|
  {
    !less(q[j], q[Parent(j)])
  }

  /** Heap order below the positions from `lo` on, except between `hole` and its children. */
  ghost predicate HeapBut<T(!new)>(less: (T, T) -> bool, q: seq<T>, lo: nat, hole: int) {
    forall j {:trigger Ordered(less, q, j)} ::
      0 < j < |q| && lo <= Parent(j) && Parent(j) != hole ==> Ordered(less, q, j)
  }

  /** Heap order except between `hole` and its parent. */
  ghost predicate HeapUnder<T(!new)>(less: (T, T) -> bool, q: seq<T>, hole: nat) {
    forall j {:trigger Ordered(less, q, j)} :: 0 < j < |q| && j != hole ==> Ordered(less, q, j)
  }

  ghost predicate HeapFrom<T(!new)>(less: (T, T) -> bool, q: seq<T>, lo: nat) {
    forall j {:trigger Ordered(less, q, j)} :: 0 < j < |q| && lo <= Parent(j) ==> Ordered(less, q, j)
  }

  /** The children of `hole` are not before its parent. */
  ghost predicate Bridged<T(!new)>(less: (T, T) -> bool, q: seq<T>, lo: nat, hole: nat) {
    hole < |q| && 0 < hole && lo <= Parent(hole) ==>
      forall j {:trigger q[j]} :: 0 < j < |q| && Parent(j) == hole ==> !less(q[j], q[Parent(hole)])
  }

  /** Every position is recorded in the entry that is there. */
  ghost predicate Indexed<T>(q: seq<T>, index: map<T, nat>) {
    && (forall i {:trigger q[i]} :: 0 <= i < |q| ==> q[i] in index && index[q[i]] == i)
    && (forall e {:trigger index[e]} :: e in index ==> index[e] < |q| && q[index[e]] == e)
  }

  /** The first position holds an entry that no other is before. */
  lemma {:induction false} TopFirst<T(!new)>(less: (T, T) -> bool, q: seq<T>, s: set<T>, i: nat)
    requires HeapFrom(less, q, 0) && i < |q| && WeakOrder(less, s) && forall e :: e in q ==> e in s
    ensures !less(q[i], q[0])
  {
    if i > 0 {
      TopFirst(less, q, s, Parent(i));
      assert Ordered(less, q, i);
      assert q[i] in s && q[Parent(i)] in s && q[0] in s;
    }
  }

  function Exchanged<T>(q: seq<T>, i: nat, j: nat): seq<T>
    requires i < |q| && j < |q|
  {
    q[i := q[j]][j := q[i]]
  }

  /** One step of `bubble_up`. */
  lemma UpStep<T(!new)>(less: (T, T) -> bool, q: seq<T>, s: set<T>, i: nat)
    requires 0 < i < |q| && WeakOrder(less, s) && forall e :: e in q ==> e in s
    requires HeapUnder(less, q, i)
    requires Bridged(less, q, 0, i) && less(q[i], q[Parent(i)])
    ensures var q' := Exchanged(q, Parent(i), i);
            HeapUnder(less, q', Parent(i)) && Bridged(less, q', 0, Parent(i))
  {
    var p := Parent(i);
    var q' := Exchanged(q, p, i);
    forall j {:trigger Ordered(less, q', j)} | 0 < j < |q'| && j != p
      ensures Ordered(less, q', j)
    {
      assert q[j] in s && q[i] in s && q[p] in s;
      if j != i {
        assert Ordered(less, q, j);
      }
    }
    if p > 0 {
      forall j {:trigger q'[j]} | 0 < j < |q'| && Parent(j) == p
        ensures !less(q'[j], q'[Parent(p)])
      {
        assert q[j] in s && q[i] in s && q[p] in s && q[Parent(p)] in s;
        assert Ordered(less, q, p);
        if j != i {
          assert Ordered(less, q, j);
        }
      }
    }
  }

  /** One step of `bubble_down`: `m` is the first of `i` and its children. */
  lemma DownStep<T(!new)>(less: (T, T) -> bool, q: seq<T>, s: set<T>, lo: nat, i: nat, m: nat)
    requires 0 < m < |q| && Parent(m) == i && lo <= i && WeakOrder(less, s) && forall e :: e in q ==> e in s
    requires HeapBut(less, q, lo, i) && Bridged(less, q, lo, i)
    requires less(q[m], q[i])
    requires forall j :: 0 < j < |q| && Parent(j) == i ==> !less(q[j], q[m])
    ensures var q' := Exchanged(q, i, m); HeapBut(less, q', lo, m) && Bridged(less, q', lo, m)
  {
    var q' := Exchanged(q, i, m);
    forall j {:trigger Ordered(less, q', j)} | 0 < j < |q'| && lo <= Parent(j) && Parent(j) != m
      ensures Ordered(less, q', j)
    {
      assert q[j] in s && q[i] in s && q[m] in s;
      if Parent(j) != i && j != i {
        assert Ordered(less, q, j);
      }
    }
    forall j {:trigger q'[j]} | 0 < j < |q'| && Parent(j) == m
      ensures !less(q'[j], q'[Parent(m)])
    {
      assert Ordered(less, q, j);
    }
  }

  lemma AppendHeap<T(!new)>(less: (T, T) -> bool, q: seq<T>, item: T)
    requires HeapFrom(less, q, 0)
    ensures var q' := q + [item];
            HeapUnder(less, q', |q|) && Bridged(less, q', 0, |q|)
  {
    var q' := q + [item];
    forall j {:trigger Ordered(less, q', j)} | 0 < j < |q'| && j != |q|
      ensures Ordered(less, q', j)
    {
      assert Ordered(less, q, j);
    }
  }

  /** The sequence with the last element in the place of the one at `i`. */
  function Replaced<T>(q: seq<T>, i: nat): seq<T>
    requires i < |q|
  {
    q[i := q[|q| - 1]][..|q| - 1]
  }

  /** Replacing the first element leaves a heap below it. */
  lemma ReplacedFirst<T(!new)>(less: (T, T) -> bool, q: seq<T>)
    requires HeapFrom(less, q, 0) && 0 < |q|
    ensures HeapBut(less, Replaced(q, 0), 0, 0)
  {
    var q' := Replaced(q, 0);
    forall j {:trigger Ordered(less, q', j)} | 0 < j < |q'| && Parent(j) != 0
      ensures Ordered(less, q', j)
    {
      assert Ordered(less, q, j);
    }
  }

  /** Replacing any other element leaves a heap above or below it. */
  lemma ReplacedInside<T(!new)>(less: (T, T) -> bool, q: seq<T>, s: set<T>, i: nat)
    requires HeapFrom(less, q, 0) && 0 < i < |q| - 1 && WeakOrder(less, s) && forall e :: e in q ==> e in s
    ensures Bridged(less, Replaced(q, i), 0, i)
    ensures if less(q[i], Replaced(q, i)[i]) then HeapBut(less, Replaced(q, i), 0, i)
            else HeapUnder(less, Replaced(q, i), i)
  {
    var q' := Replaced(q, i);
    forall j {:trigger Ordered(less, q', j)} | 0 < j < |q'|
      ensures j != i && Parent(j) != i ==> Ordered(less, q', j)
      ensures j == i && less(q[i], q'[i]) ==> Ordered(less, q', j)
      ensures Parent(j) == i && !less(q[i], q'[i]) ==> Ordered(less, q', j)
    {
      assert Ordered(less, q, j) && Ordered(less, q, i);
      assert q[i] in s && q[j] in s && q[Parent(i)] in s && q[|q| - 1] in s;
    }
    forall j {:trigger q'[j]} | 0 < j < |q'| && Parent(j) == i
      ensures !less(q'[j], q'[Parent(i)])
    {
      assert Ordered(less, q, j) && Ordered(less, q, i);
      assert q[i] in s && q[j] in s && q[Parent(i)] in s;
    }
  }

  lemma PrefixHeap<T(!new)>(less: (T, T) -> bool, q: seq<T>, n: nat)
    requires HeapFrom(less, q, 0) && n <= |q|
    ensures HeapFrom(less, q[..n], 0)
  {
    forall j {:trigger Ordered(less, q[..n], j)} | 0 < j < n
      ensures Ordered(less, q[..n], j)
    {
      assert Ordered(less, q, j);
    }
  }

  // --------------------------------------------------------------------- operations on values

  /** No element is there twice. */
  ghost predicate NoDup<T(!new)>(q: seq<T>) {
    forall i, j {:trigger q[i], q[j]} :: 0 <= i < j < |q| ==> q[i] != q[j]
  }

  ghost predicate SameElements<T(!new)>(q: seq<T>, r: seq<T>) {
    && |r| == |q| && (NoDup(q) ==> NoDup(r))
    && forall x {:trigger x in r} {:trigger x in q} :: x in r <==> x in q
  }

  lemma ExchangedElements<T(!new)>(q: seq<T>, i: nat, j: nat)
    requires i < |q| && j < |q|
    ensures SameElements(q, Exchanged(q, i, j))
  {
    var r := Exchanged(q, i, j);
    assert forall k {:trigger r[k]} :: 0 <= k < |q| ==> r[k] == q[if k == i then j else if k == j then i else k];
    forall x | x in q
      ensures x in r
    {
      var k :| 0 <= k < |q| && q[k] == x;
      assert r[if k == i then j else if k == j then i else k] == x;
    }
  }

  lemma SameElementsTrans<T(!new)>(a: seq<T>, b: seq<T>, c: seq<T>)
    requires SameElements(a, b) && SameElements(b, c)
    ensures SameElements(a, c)
  {
    forall x
      ensures x in c <==> x in a
    {
      assert x in b <==> x in a;
    }
  }

  /** `bubble_up`. */
  function Up<T(!new)>(less: (T, T) -> bool, q: seq<T>, i: nat): (r: seq<T>)
    requires i < |q|
    ensures SameElements(q, r)
    decreases i
  {
    if i == 0 || !less(q[i], q[Parent(i)]) then q
    else
      ExchangedElements(q, Parent(i), i);
      var r := Up(less, Exchanged(q, Parent(i), i), Parent(i));
      SameElementsTrans(q, Exchanged(q, Parent(i), i), r);
      r
  }

  /** The inner loop of `bubble_down`: the first of `i` and its children. */
  function FirstOf<T>(less: (T, T) -> bool, q: seq<T>, i: nat): (m: nat)
    requires i < |q|
    ensures m == i || (i < m < |q| && Parent(m) == i)
  {
    var m := if 2 * i + 1 < |q| && less(q[2 * i + 1], q[i]) then 2 * i + 1 else i;
    if 2 * i + 2 < |q| && less(q[2 * i + 2], q[m]) then 2 * i + 2 else m
  }

  /** `bubble_down`. */
  function Down<T(!new)>(less: (T, T) -> bool, q: seq<T>, i: nat): (r: seq<T>)
    ensures SameElements(q, r)
    decreases |q| - i
  {
    if i >= |q| || FirstOf(less, q, i) == i then q
    else
      var m := FirstOf(less, q, i);
      ExchangedElements(q, i, m);
      var r := Down(less, Exchanged(q, i, m), m);
      SameElementsTrans(q, Exchanged(q, i, m), r);
      r
  }

  /** `nghttp2_pq_push`. */
  function Pushed<T(!new)>(less: (T, T) -> bool, q: seq<T>, item: T): (r: seq<T>)
    ensures |r| == |q| + 1 && (NoDup(q) && item !in q ==> NoDup(r))
    ensures forall x {:trigger x in r} {:trigger x in q} :: x in r <==> x in q || x == item
  {
    Up(less, q + [item], |q|)
  }

  /** `nghttp2_pq_remove` of the entry at `i`. */
  function RemovedAt<T(!new)>(less: (T, T) -> bool, q: seq<T>, i: nat): seq<T>
    requires i < |q|
  {
    var r := Replaced(q, i);
    if i == 0 then Down(less, r, 0)
    else if i == |q| - 1 then r
    else if less(q[i], r[i]) then Down(less, r, i)
    else Up(less, r, i)
  }

  function Find<T(==)>(q: seq<T>, item: T): (i: nat)
    requires item in q
    ensures i < |q| && q[i] == item
  {
    if q[0] == item then 0 else 1 + Find(q[1..], item)
  }

  lemma ReplacedElements<T(!new)>(q: seq<T>, i: nat)
    requires i < |q| && NoDup(q)
    ensures NoDup(Replaced(q, i)) && forall x :: x in Replaced(q, i) <==> x in q && x != q[i]
  {
    var r := Replaced(q, i);
    assert forall k {:trigger r[k]} :: 0 <= k < |r| ==> r[k] == q[if k == i then |q| - 1 else k];
    forall x | x in q && x != q[i]
      ensures x in r
    {
      var k :| 0 <= k < |q| && q[k] == x;
      assert r[if k == |q| - 1 then i else k] == x;
    }
  }

  /** `nghttp2_pq_remove` of `item`, if it is there. */
  function Removed<T(==,!new)>(less: (T, T) -> bool, q: seq<T>, item: T): (r: seq<T>)
    ensures NoDup(q) ==> NoDup(r) && forall x {:trigger x in r} {:trigger x in q} :: x in r <==> x in q && x != item
  {
    if item !in q then q
    else
      RemovedElements(less, q, item);
      RemovedAt(less, q, Find(q, item))
  }

  lemma RemovedElements<T(!new)>(less: (T, T) -> bool, q: seq<T>, item: T)
    requires item in q
    ensures NoDup(q) ==>
              var r := RemovedAt(less, q, Find(q, item));
              NoDup(r) && forall x :: x in r <==> x in q && x != item
  {
    if NoDup(q) {
      ReplacedElements(q, Find(q, item));
    }
  }

  // ---------------------------------------------------------------------- heap order is kept

  /** All elements of `q` are in `s`. */
  ghost predicate Within<T(!new)>(q: seq<T>, s: set<T>) {
    forall e {:trigger e in q} :: e in q ==> e in s
  }

  lemma {:induction false} UpHeap<T(!new)>(less: (T, T) -> bool, q: seq<T>, s: set<T>, i: nat)
    requires i < |q| && WeakOrder(less, s) && Within(q, s) && HeapUnder(less, q, i) && Bridged(less, q, 0, i)
    ensures HeapFrom(less, Up(less, q, i), 0)
    decreases i
  {
    if i > 0 && less(q[i], q[Parent(i)]) {
      UpStep(less, q, s, i);
      ExchangedElements(q, Parent(i), i);
      UpHeap(less, Exchanged(q, Parent(i), i), s, Parent(i));
    }
  }

  lemma FirstIsFirst<T(!new)>(less: (T, T) -> bool, q: seq<T>, s: set<T>, i: nat)
    requires i < |q| && WeakOrder(less, s) && Within(q, s)
    ensures var m := FirstOf(less, q, i);
            && (m != i ==> less(q[m], q[i]))
            && forall j :: 0 < j < |q| && Parent(j) == i ==> !less(q[j], q[m])
  {
    var m := FirstOf(less, q, i);
    assert q[i] in q && q[m] in q;
    forall j | 0 < j < |q| && Parent(j) == i
      ensures !less(q[j], q[m])
    {
      assert j == 2 * i + 1 || j == 2 * i + 2;
      assert q[j] in q && q[2 * i + 1] in q;
    }
    if m == 2 * i + 2 {
      assert q[2 * i + 1] in q;
    }
  }

  lemma {:induction false} DownHeap<T(!new)>(less: (T, T) -> bool, q: seq<T>, s: set<T>, lo: nat, i: nat)
    requires WeakOrder(less, s) && Within(q, s) && lo <= i && HeapBut(less, q, lo, i) && Bridged(less, q, lo, i)
    ensures HeapFrom(less, Down(less, q, i), lo)
    decreases |q| - i
  {
    if i < |q| {
      FirstIsFirst(less, q, s, i);
      var m := FirstOf(less, q, i);
      if m != i {
        DownStep(less, q, s, lo, i, m);
        ExchangedElements(q, i, m);
        DownHeap(less, Exchanged(q, i, m), s, lo, m);
      } else {
        forall j {:trigger Ordered(less, q, j)} | 0 < j < |q| && lo <= Parent(j)
          ensures Ordered(less, q, j)
        {
        }
      }
    }
  }

  lemma PushedHeap<T(!new)>(less: (T, T) -> bool, q: seq<T>, s: set<T>, item: T)
    requires HeapFrom(less, q, 0) && WeakOrder(less, s) && Within(q, s) && item in s
    ensures HeapFrom(less, Pushed(less, q, item), 0)
  {
    AppendHeap(less, q, item);
    UpHeap(less, q + [item], s, |q|);
  }

  lemma RemovedAtHeap<T(!new)>(less: (T, T) -> bool, q: seq<T>, s: set<T>, i: nat)
    requires HeapFrom(less, q, 0) && WeakOrder(less, s) && Within(q, s) && i < |q|
    ensures HeapFrom(less, RemovedAt(less, q, i), 0)
  {
    var r := Replaced(q, i);
    assert forall k {:trigger r[k]} :: 0 <= k < |r| ==> r[k] in q;
    if i == 0 {
      ReplacedFirst(less, q);
      DownHeap(less, r, s, 0, 0);
    } else if i == |q| - 1 {
      assert r == q[..i];
      PrefixHeap(less, q, i);
    } else {
      ReplacedInside(less, q, s, i);
      if less(q[i], r[i]) {
        DownHeap(less, r, s, 0, i);
      } else {
        UpHeap(less, r, s, i);
      }
    }
  }

  lemma RemovedHeap<T(!new)>(less: (T, T) -> bool, q: seq<T>, s: set<T>, item: T)
    requires HeapFrom(less, q, 0) && WeakOrder(less, s) && Within(q, s)
    ensures HeapFrom(less, Removed(less, q, item), 0)
  {
    if item in q {
      RemovedAtHeap(less, q, s, Find(q, item));
    }
  }

  // ---------------------------------------------------- only the entries' own order matters

  /** The two comparisons agree on the elements of `q`. */
  ghost predicate Agree<T(!new)>(less: (T, T) -> bool, less': (T, T) -> bool, q: seq<T>) {
    forall x, y {:trigger less(x, y)} {:trigger less'(x, y)} :: x in q && y in q ==> less(x, y) == less'(x, y)
  }

  lemma AgreeSame<T(!new)>(less: (T, T) -> bool, less': (T, T) -> bool, q: seq<T>, r: seq<T>)
    requires Agree(less, less', q) && forall x {:trigger x in r} :: x in r ==> x in q
    ensures Agree(less, less', r)
  {
  }

  lemma AgreeHeap<T(!new)>(less: (T, T) -> bool, less': (T, T) -> bool, q: seq<T>)
    requires Agree(less, less', q) && HeapFrom(less, q, 0)
    ensures HeapFrom(less', q, 0)
  {
    forall j {:trigger Ordered(less', q, j)} | 0 < j < |q|
      ensures Ordered(less', q, j)
    {
      assert Ordered(less, q, j);
      assert q[j] in q && q[Parent(j)] in q;
    }
  }

  lemma {:induction false} UpSame<T(!new)>(less: (T, T) -> bool, less': (T, T) -> bool, q: seq<T>, i: nat)
    requires i < |q| && Agree(less, less', q)
    ensures Up(less, q, i) == Up(less', q, i)
    decreases i
  {
    if i > 0 {
      assert q[i] in q && q[Parent(i)] in q;
      if less(q[i], q[Parent(i)]) {
        ExchangedElements(q, Parent(i), i);
        AgreeSame(less, less', q, Exchanged(q, Parent(i), i));
        UpSame(less, less', Exchanged(q, Parent(i), i), Parent(i));
      }
    }
  }

  lemma FirstSame<T(!new)>(less: (T, T) -> bool, less': (T, T) -> bool, q: seq<T>, i: nat)
    requires i < |q| && Agree(less, less', q)
    ensures FirstOf(less, q, i) == FirstOf(less', q, i)
  {
    assert q[i] in q;
    if 2 * i + 1 < |q| {
      assert q[2 * i + 1] in q;
    }
    if 2 * i + 2 < |q| {
      assert q[2 * i + 2] in q;
    }
  }

  lemma {:induction false} DownSame<T(!new)>(less: (T, T) -> bool, less': (T, T) -> bool, q: seq<T>, i: nat)
    requires Agree(less, less', q)
    ensures Down(less, q, i) == Down(less', q, i)
    decreases |q| - i
  {
    if i < |q| {
      FirstSame(less, less', q, i);
      var m := FirstOf(less, q, i);
      if m != i {
        ExchangedElements(q, i, m);
        AgreeSame(less, less', q, Exchanged(q, i, m));
        DownSame(less, less', Exchanged(q, i, m), m);
      }
    }
  }

  lemma PushedSame<T(!new)>(less: (T, T) -> bool, less': (T, T) -> bool, q: seq<T>, item: T)
    requires Agree(less, less', q + [item])
    ensures Pushed(less, q, item) == Pushed(less', q, item)
  {
    UpSame(less, less', q + [item], |q|);
  }

  lemma RemovedSame<T(!new)>(less: (T, T) -> bool, less': (T, T) -> bool, q: seq<T>, item: T)
    requires Agree(less, less', q)
    ensures Removed(less, q, item) == Removed(less', q, item)
  {
    if item in q {
      var i := Find(q, item);
      var r := Replaced(q, i);
      assert forall k {:trigger r[k]} :: 0 <= k < |r| ==> r[k] in q;
      AgreeSame(less, less', q, r);
      assert q[i] in q;
      if i == 0 {
        DownSame(less, less', r, 0);
      } else if i < |q| - 1 {
        DownSame(less, less', r, i);
        UpSame(less, less', r, i);
      }
    }
  }

  datatype Option<T> = None | Some(value: T)

  /** `nghttp2_pq`, with the `index` fields of the entries it holds. */
  class Queue<T(0,==,!new)> {
    var q: array<T>
    var length: nat
    var index: map<T, nat>

    /** The entries in the heap; they are distinct, so the set says it all. */
    ghost function Entries(): set<T>
      reads this
    {
      index.Keys
    }

    ghost predicate Wf()
      reads this, q
    {
      length <= q.Length && |index| == length && Indexed(q[..length], index)
    }

    /** The heap is ordered by `less`. */
    ghost predicate Valid(less: (T, T) -> bool)
      reads this, q
    {
      Wf() && HeapFrom(less, q[..length], 0)
    }

    /** `nghttp2_pq_init`. */
    constructor ()
      ensures Wf() && Entries() == {} && fresh(q)
    {
      q := new T[0];
      length := 0;
      index := map[];
    }

    method Swap(i: nat, j: nat)
      requires Wf() && i < length && j < length
      modifies this`index, q
      ensures Wf() && Entries() == old(Entries())
      ensures q[..length] == Exchanged(old(q[..length]), i, j)
    {
      var a, b := q[i], q[j];
      q[i] := b;
      index := index[b := i];
      q[j] := a;
      index := index[a := j];
      assert q[..length] == Exchanged(old(q[..length]), i, j);
    }

    /** `bubble_up`. */
    method BubbleUp(less: (T, T) -> bool, i0: nat)
      requires Wf() && i0 < length
      modifies this`index, q
      ensures Wf() && Entries() == old(Entries()) && q[..length] == Up(less, old(q[..length]), i0)
    {
      var i: nat := i0;
      while i != 0
        invariant i < length && Wf() && Entries() == old(Entries())
        invariant Up(less, q[..length], i) == Up(less, old(q[..length]), i0)
        decreases i
      {
        var parent := (i - 1) / 2;
        if !less(q[i], q[parent]) {
          return;
        }
        Swap(parent, i);
        i := parent;
      }
    }

    /** `bubble_down`. */
    method BubbleDown(less: (T, T) -> bool, i0: nat)
      requires Wf()
      modifies this`index, q
      ensures Wf() && Entries() == old(Entries()) && q[..length] == Down(less, old(q[..length]), i0)
    {
      var i: nat := i0;
      while true
        invariant Wf() && Entries() == old(Entries())
        invariant Down(less, q[..length], i) == Down(less, old(q[..length]), i0)
        decreases length - i
      {
        var m := FirstOfThree(less, i);
        if m == i {
          return;
        }
        Swap(i, m);
        i := m;
      }
    }

    /** The inner loop of `bubble_down`. */
    method FirstOfThree(less: (T, T) -> bool, i: nat) returns (m: nat)
      requires Wf()
      ensures m == if i < length then FirstOf(less, q[..length], i) else i
    {
      m := i;
      var j := 2 * i + 1;
      for k := 0 to 2
        invariant j == 2 * i + 1 + k && (k > 0 ==> i < length)
        invariant k == 0 ==> m == i
        invariant k == 1 ==> 2 * i + 1 < length && m == if less(q[2 * i + 1], q[i]) then 2 * i + 1 else i
        invariant k == 2 ==> m == FirstOf(less, q[..length], i)
      {
        if j >= length {
          break;
        }
        if less(q[j], q[m]) {
          m := j;
        }
        j := j + 1;
      }
    }

    /** `nghttp2_pq_push`. */
    method Push(less: (T, T) -> bool, item: T)
      requires Wf() && item !in Entries()
      modifies this, q
      ensures Wf() && Entries() == old(Entries()) + {item} && (q == old(q) || fresh(q))
      ensures q[..length] == Pushed(less, old(q[..length]), item)
      ensures old(Valid(less)) && WeakOrder(less, Entries()) ==> Valid(less)
    {
      if q.Length <= length {
        Grow();
      }
      Append(item);
      BubbleUp(less, length - 1);
      ghost var before := old(q[..length]);
      assert old(Wf()) && Within(before, Entries());
      if HeapFrom(less, before, 0) && WeakOrder(less, Entries()) {
        PushedHeap(less, before, Entries(), item);
      }
    }

    method Append(item: T)
      requires Wf() && length < q.Length && item !in Entries()
      modifies this`length, this`index, q
      ensures Wf() && length == old(length) + 1 && q[..length] == old(q[..length]) + [item]
      ensures Entries() == old(Entries()) + {item}
    {
      q[length] := item;
      index := index[item := length];
      length := length + 1;
      assert q[..length] == old(q[..length]) + [item];
    }

    method Grow()
      requires Wf() && q.Length <= length
      modifies this`q
      ensures fresh(q) && q.Length > length && Wf() && q[..length] == old(q[..length])
    {
      var ncapacity := if q.Length * 2 < 4 then 4 else q.Length * 2;
      var nq := new T[ncapacity];
      for i := 0 to length
        invariant nq[..i] == q[..i]
        modifies nq
      {
        nq[i] := q[i];
      }
      q := nq;
    }

    /** `nghttp2_pq_top`: for a weak order, no entry is before the one returned. */
    method Top(less: (T, T) -> bool) returns (r: Option<T>)
      requires Wf()
      ensures r.None? <==> Entries() == {}
      ensures r.Some? ==> length > 0 && r.value == q[0] && r.value in Entries()
      ensures r.Some? && Valid(less) && WeakOrder(less, Entries()) ==> forall e :: e in Entries() ==> !less(e, r.value)
    {
      ghost var s := q[..length];
      if length == 0 {
        return None;
      }
      r := Some(q[0]);
      assert s[0] in Entries();
      if Valid(less) && WeakOrder(less, Entries()) {
        forall e | e in Entries()
          ensures !less(e, r.value)
        {
          TopFirst(less, s, Entries(), index[e]);
        }
      }
    }

    /** `nghttp2_pq_pop`. */
    method Pop(less: (T, T) -> bool)
      requires Wf()
      modifies this`length, this`index, q
      ensures Wf()
      ensures old(length) > 0 ==> Entries() == old(Entries()) - {old(q[0])}
      ensures old(length) > 0 ==> q[..length] == RemovedAt(less, old(q[..length]), 0)
      ensures old(length) == 0 ==> Entries() == {}
      ensures old(Valid(less)) && WeakOrder(less, old(Entries())) ==> Valid(less)
    {
      if length > 0 {
        ReplaceByLast(0);
        BubbleDown(less, 0);
        ghost var before, entries := old(q[..length]), old(Entries());
        assert Within(before, entries);
        if HeapFrom(less, before, 0) && WeakOrder(less, entries) {
          RemovedAtHeap(less, before, entries, 0);
        }
      }
    }

    /** The last entry takes the place of the one at `i`. */
    method ReplaceByLast(i: nat)
      requires Wf() && i < length
      modifies this`length, this`index, q
      ensures Wf() && q[..length] == Replaced(old(q[..length]), i)
      ensures Entries() == old(Entries()) - {old(q[i])}
    {
      var item, last := q[i], q[length - 1];
      q[i] := last;
      index := index[last := i] - {item};
      length := length - 1;
      assert q[..length] == Replaced(old(q[..length]), i);
    }

    /** `nghttp2_pq_remove`, of an entry anywhere in the heap. */
    method Remove(less: (T, T) -> bool, item: T)
      requires Wf() && item in Entries()
      modifies this`length, this`index, q
      ensures Wf() && Entries() == old(Entries()) - {item}
      ensures q[..length] == Removed(less, old(q[..length]), item)
      ensures old(Valid(less)) && WeakOrder(less, old(Entries())) ==> Valid(less)
    {
      ghost var before, entries := q[..length], Entries();
      var i := index[item];
      assert before[i] == item && Within(before, entries);
      assert Find(before, item) == i;
      RemoveInside(less, i);
      if HeapFrom(less, before, 0) && WeakOrder(less, entries) {
        RemovedHeap(less, before, entries, item);
      }
    }

    /** The branches of `nghttp2_pq_remove`, on the place of the entry. */
    method RemoveInside(less: (T, T) -> bool, i: nat)
      requires Wf() && i < length
      modifies this`length, this`index, q
      ensures Wf() && Entries() == old(Entries()) - {old(q[i])}
      ensures q[..length] == RemovedAt(less, old(q[..length]), i)
    {
      if i == 0 {
        Pop(less);
        return;
      }
      var item := q[i];
      ReplaceByLast(i);
      if i == length {
        return;
      }
      if less(item, q[i]) {
        BubbleDown(less, i);
      } else {
        BubbleUp(less, i);
      }
    }

    /**
      * `nghttp2_pq_update`, where `fun` tells of each entry whether its key has been changed: if any
      * has, the heap is ordered by `less` again whatever the order was before.
      */
    method Update(less: (T, T) -> bool, fun: T -> bool)
      requires Wf()
      modifies this`index, q
      ensures Wf() && Entries() == old(Entries())
      ensures (forall e :: e in Entries() ==> !fun(e)) ==> q[..length] == old(q[..length])
      ensures WeakOrder(less, Entries()) && (old(Valid(less)) || exists e :: e in Entries() && fun(e)) ==> Valid(less)
    {
      if length == 0 {
        return;
      }
      var rv := AnyChanged(fun);
      if !rv {
        return;
      }
      var i: nat := length;
      while i > 0
        invariant i <= length && Wf() && Entries() == old(Entries())
        invariant WeakOrder(less, Entries()) ==> HeapFrom(less, q[..length], i)
      {
        assert Within(q[..length], Entries());
        if WeakOrder(less, Entries()) {
          DownHeap(less, q[..length], Entries(), i - 1, i - 1);
        }
        BubbleDown(less, i - 1);
        i := i - 1;
      }
    }

    /** The loop over the entries in `nghttp2_pq_update`. */
    method AnyChanged(fun: T -> bool) returns (rv: bool)
      requires Wf()
      ensures rv <==> exists e :: e in Entries() && fun(e)
    {
      rv := false;
      for i := 0 to length
        invariant rv <==> exists j :: 0 <= j < i && fun(q[j])
      {
        rv := rv || fun(q[i]);
      }
      ghost var s := q[..length];
      if rv {
        var j :| 0 <= j < length && fun(q[j]);
        assert s[j] in Entries();
      } else {
        forall e | e in Entries()
          ensures !fun(e)
        {
          assert s[index[e]] == e;
        }
      }
    }
  }
}
