/**
  * Runs of the operations of lib/nghttp2_stream.c on the queued children of one stream: cycles stay
  * in the window, the wrap-around order is the true order, and service is fair.
  */
module SiblingRuns {
  import opened Bytes
  import opened VirtualTime
  import Pq

  datatype Event =
    | Join(id: Id, e: Entry)          // stream_obq_push
    | Leave(id: Id)                   // nghttp2_pq_remove
    | Select(id: Id)                  // nghttp2_stream_next_outbound_item takes the first child
    | Reschedule(id: Id, len: nat)    // nghttp2_stream_reschedule after `len` octets
    | ChangeWeight(id: Id, weight: nat)
    | Idle                            // the parent leaves the queue it is in itself

  const EMPTY: Siblings := Siblings(0, 0, map[], [])

  /** The heap holds every child once. */
  ghost predicate Listed(q: Siblings) {
    && Pq.NoDup(q.heap)
    && forall id {:trigger id in q.heap} {:trigger id in q.entries} :: id in q.heap <==> id in q.entries
  }

  ghost predicate WfQueue(q: Siblings) {
    Listed(q) && forall id {:trigger q.entries[id]} :: id in q.entries ==> WfEntry(q.entries[id])
  }

  /** The order the heap is given, `stream_less`. */
  function Order(a: Arith, entries: map<Id, Entry>): (Id, Id) -> bool {
    (x, y) => x in entries && y in entries && Less(a, entries[x], entries[y])
  }

  /** `id` is before every other child. */
  ghost predicate Earliest(a: Arith, q: Siblings, id: Id) {
    id in q.entries &&
    forall other {:trigger q.entries[other]} ::
      other in q.entries && other != id ==> Less(a, q.entries[id], q.entries[other])
  }

  /** The event can happen in state `q` of the program; the child selected is the front of the heap. */
  ghost predicate Legal(q: Siblings, ev: Event) {
    match ev
    case Join(id, e) => id !in q.entries && WfEntry(e)
    case Leave(id) => id in q.entries
    case Select(id) => q.heap != [] && id == q.heap[0]
    case Reschedule(id, len) => id in q.entries && len <= MAX_FRAME
    case ChangeWeight(id, weight) => id in q.entries && 1 <= weight <= MAX_WEIGHT
    case Idle => q.entries == map[]
  }

  /** `nghttp2_pq_push` of a child with the scheduling fields `r`. */
  function Put(a: Arith, q: Siblings, id: Id, r: Entry): (q': Siblings)
    requires WfQueue(q) && id !in q.entries && WfEntry(r)
    ensures WfQueue(q')
  {
    var entries := q.entries[id := r];
    q.(entries := entries, heap := Pq.Pushed(Order(a, entries), q.heap, id))
  }

  /** `nghttp2_pq_remove`. */
  function Without(a: Arith, q: Siblings, id: Id): (r: Siblings)
    requires WfQueue(q)
    ensures WfQueue(r)
  {
    q.(entries := q.entries - {id}, heap := Pq.Removed(Order(a, q.entries), q.heap, id))
  }

  /** `stream_next_cycle`, a new sequence number, and `nghttp2_pq_push`. */
  function Queue(a: Arith, q: Siblings, id: Id, e: Entry): (r: Siblings)
    requires WfQueue(q) && id !in q.entries && WfEntry(e)
    ensures WfQueue(r)
  {
    Put(a, q.(nextTurn := q.nextTurn + 1), id, NextCycle(a, e, q.last).(turn := q.nextTurn))
  }

  /** `nghttp2_pq_remove` and `nghttp2_pq_push`, with new scheduling fields in between. */
  function Reput(a: Arith, q: Siblings, id: Id, r: Entry): (q': Siblings)
    requires WfQueue(q) && WfEntry(r)
    ensures WfQueue(q')
  {
    Put(a, Without(a, q, id), id, r)
  }

  /** A sequence number is taken. */
  function Counted(q: Siblings): Siblings {
    q.(nextTurn := q.nextTurn + 1)
  }

  /** The scheduling fields of a child that has sent `len` octets. */
  function NextEntry(a: Arith, q: Siblings, id: Id, len: nat): (r: Entry)
    requires id in q.entries && WfEntry(q.entries[id]) && len <= MAX_FRAME
    ensures WfEntry(r)
  {
    NextCycle(a, q.entries[id].(lastlen := len), q.last).(turn := q.nextTurn)
  }

  function Apply(a: Arith, q: Siblings, ev: Event): (r: Siblings)
    requires WfQueue(q)
    requires ev.Join? ==> ev.id !in q.entries && WfEntry(ev.e)
    requires !ev.Join? && !ev.Idle? ==> ev.id in q.entries
    requires ev.Reschedule? ==> ev.len <= MAX_FRAME
    requires ev.ChangeWeight? ==> 1 <= ev.weight <= MAX_WEIGHT
    ensures WfQueue(r)
  {
    match ev
    case Join(id, e) => Queue(a, q, id, e)
    case Leave(id) => Without(a, q, id)
    case Select(id) => q.(last := q.entries[id].cycle)
    case Reschedule(id, len) => Reput(a, Counted(q), id, NextEntry(a, q, id, len))
    case ChangeWeight(id, weight) => Reput(a, q, id, Reweighed(a, q.entries[id], weight, q.last))
    case Idle => q.(last := 0)
  }

  /** What an event does to one child. */
  lemma EntryAfter(a: Arith, q: Siblings, ev: Event, id: Id)
    requires WfQueue(q) && id in q.entries
    requires ev.Join? ==> ev.id !in q.entries && WfEntry(ev.e)
    requires !ev.Join? && !ev.Idle? ==> ev.id in q.entries
    requires ev.Reschedule? ==> ev.len <= MAX_FRAME
    requires ev.ChangeWeight? ==> 1 <= ev.weight <= MAX_WEIGHT && ev.id != id
    requires ev.Leave? ==> ev.id != id
    ensures id in Apply(a, q, ev).entries
    ensures Apply(a, q, ev).entries[id] ==
            if ev.Reschedule? && ev.id == id then NextEntry(a, q, id, ev.len) else q.entries[id]
  {
  }

  lemma RescheduleIs(q: Siblings, id: Id, len: nat, q1: Siblings, r: Entry)
    requires WfQueue(q) && id in q.entries && len <= MAX_FRAME && WfQueue(q1) && q1 == q.(nextTurn := q.nextTurn + 1)
    requires r == NextEntry(Word, q, id, len)
    ensures WfEntry(r) && Apply(Word, q, Reschedule(id, len)) == Reput(Word, q1, id, r)
  {
  }

  lemma ChangeWeightIs(q: Siblings, id: Id, weight: nat, r: Entry)
    requires WfQueue(q) && id in q.entries && 1 <= weight <= MAX_WEIGHT
    requires r == Reweighed(Word, q.entries[id], weight, q.last)
    ensures WfEntry(r) && Apply(Word, q, ChangeWeight(id, weight)) == Reput(Word, q, id, r)
  {
  }

  // ------------------------------------------------------------------------- one step

  /** In exact integers: every child is in the window, and no two share a sequence number. */
  ghost predicate Timely(u: Siblings) {
    && (forall id {:trigger u.entries[id]} ::
          id in u.entries ==> InWindow(u.entries[id], u.last) && u.entries[id].turn < u.nextTurn)
    && (forall x, y {:trigger u.entries[x], u.entries[y]} ::
          x in u.entries && y in u.entries && x != y ==> u.entries[x].turn != u.entries[y].turn)
  }

  /** And the heap is in heap order. */
  ghost predicate Inv(u: Siblings) {
    Timely(u) && Listed(u) && Pq.HeapFrom(Order(Exact, u.entries), u.heap, 0)
  }

  ghost function WrapAll(u: Siblings): Siblings {
    Siblings(u.last % WRAP, u.nextTurn, map id | id in u.entries :: Wrapped(u.entries[id]), u.heap)
  }

  lemma WrapAllWf(u: Siblings)
    requires Timely(u) && Listed(u)
    ensures WfQueue(WrapAll(u)) && WfQueue(u)
  {
    var q := WrapAll(u);
    forall id {:trigger q.entries[id]} | id in q.entries
      ensures WfEntry(q.entries[id])
    {
      assert InWindow(u.entries[id], u.last);
    }
  }

  /** Exact cycles and sequence numbers are ordered. */
  lemma ExactOrder(entries: map<Id, Entry>)
    ensures Pq.WeakOrder(Order(Exact, entries), entries.Keys)
  {
  }

  /** In the window the wrap-around order is the order of the exact cycles. */
  lemma OrderAgrees(u: Siblings, heap: seq<Id>)
    requires Timely(u) && Pq.Within(heap, u.entries.Keys)
    ensures Pq.Agree(Order(Word, WrapAll(u).entries), Order(Exact, u.entries), heap)
  {
    forall x, y | x in heap && y in heap
      ensures Order(Word, WrapAll(u).entries)(x, y) == Order(Exact, u.entries)(x, y)
    {
      LessWraps(u.entries[x], u.entries[y], u.last);
    }
  }

  /** Entries that are not in the heap do not matter to it. */
  lemma OrderFrame(a: Arith, entries: map<Id, Entry>, entries': map<Id, Entry>, heap: seq<Id>)
    requires forall id {:trigger id in heap} :: id in heap ==>
               id in entries && id in entries' && entries'[id] == entries[id]
    ensures Pq.Agree(Order(a, entries), Order(a, entries'), heap)
  {
  }

  /** A child with a new sequence number. */
  lemma PutTimely(u: Siblings, id: Id, r: Entry)
    requires Timely(u) && id !in u.entries && InWindow(r, u.last) && r.turn < u.nextTurn
    requires forall x {:trigger u.entries[x]} :: x in u.entries ==> u.entries[x].turn != r.turn
    ensures Timely(u.(entries := u.entries[id := r]))
  {
  }

  lemma PutKeeps(u: Siblings, id: Id, r: Entry)
    requires Inv(u) && WfQueue(u) && WfQueue(WrapAll(u)) && id !in u.entries
    requires InWindow(r, u.last) && r.turn < u.nextTurn
    requires forall x {:trigger u.entries[x]} :: x in u.entries ==> u.entries[x].turn != r.turn
    ensures WfEntry(r) && WfEntry(Wrapped(r)) && Inv(Put(Exact, u, id, r))
    ensures Put(Word, WrapAll(u), id, Wrapped(r)) == WrapAll(Put(Exact, u, id, r))
  {
    var v := u.(entries := u.entries[id := r]);
    PutTimely(u, id, r);
    assert WrapAll(v).entries == WrapAll(u).entries[id := Wrapped(r)];
    OrderAgrees(v, u.heap + [id]);
    Pq.PushedSame(Order(Word, WrapAll(v).entries), Order(Exact, v.entries), u.heap, id);
    OrderFrame(Exact, u.entries, v.entries, u.heap);
    Pq.AgreeHeap(Order(Exact, u.entries), Order(Exact, v.entries), u.heap);
    ExactOrder(v.entries);
    Pq.PushedHeap(Order(Exact, v.entries), u.heap, v.entries.Keys, id);
    assert Timely(Put(Exact, u, id, r));
  }

  lemma WithoutKeeps(u: Siblings, id: Id)
    requires Inv(u) && WfQueue(u) && WfQueue(WrapAll(u))
    ensures Inv(Without(Exact, u, id)) && Without(Word, WrapAll(u), id) == WrapAll(Without(Exact, u, id))
  {
    var v := Without(Exact, u, id);
    assert WrapAll(u).entries - {id} == WrapAll(v).entries;
    OrderAgrees(u, u.heap);
    Pq.RemovedSame(Order(Word, WrapAll(u).entries), Order(Exact, u.entries), u.heap, id);
    ExactOrder(u.entries);
    Pq.RemovedHeap(Order(Exact, u.entries), u.heap, u.entries.Keys, id);
    OrderFrame(Exact, u.entries, v.entries, v.heap);
    Pq.AgreeHeap(Order(Exact, u.entries), Order(Exact, v.entries), v.heap);
  }

  /** `stream_next_cycle` does not look at the old cycle. */
  lemma NextAnyCycle(a: Arith, e: Entry, e': Entry, last: int)
    requires WfEntry(e) && e' == e.(cycle := e'.cycle)
    ensures NextCycle(a, e', last) == NextCycle(a, e, last)
  {
  }

  lemma NewEntry(e: Entry, last: int, turn: nat)
    requires WfEntry(e)
    ensures InWindow(NextCycle(Exact, e, last).(turn := turn), last)
    ensures NextCycle(Word, e, last % WRAP).(turn := turn) == Wrapped(NextCycle(Exact, e, last).(turn := turn))
  {
    NextInWindow(e, last);
    TurnInWindow(NextCycle(Exact, e, last), last, turn);
    NextWraps(e, last);
    NextAnyCycle(Word, e, Wrapped(e), last % WRAP);
  }

  lemma TurnInWindow(e: Entry, last: int, turn: nat)
    requires InWindow(e, last)
    ensures InWindow(e.(turn := turn), last)
  {
  }

  /** A new sequence number. */
  lemma NextTurn(u: Siblings)
    requires Inv(u) && WfQueue(u)
    ensures var v := u.(nextTurn := u.nextTurn + 1);
            Inv(v) && WfQueue(v) && WrapAll(v) == WrapAll(u).(nextTurn := u.nextTurn + 1) && WfQueue(WrapAll(v))
  {
    var v := u.(nextTurn := u.nextTurn + 1);
    assert Timely(v) && Listed(v);
    WrapAllWf(v);
  }

  lemma QueueKeeps(u: Siblings, id: Id, e: Entry)
    requires Inv(u) && WfQueue(u) && WfQueue(WrapAll(u)) && id !in u.entries && WfEntry(e)
    ensures Inv(Queue(Exact, u, id, e))
    ensures Queue(Word, WrapAll(u), id, e) == WrapAll(Queue(Exact, u, id, e))
  {
    NextTurn(u);
    NewEntry(e, u.last, u.nextTurn);
    PutKeeps(u.(nextTurn := u.nextTurn + 1), id, NextCycle(Exact, e, u.last).(turn := u.nextTurn));
  }

  lemma ReputKeeps(u: Siblings, id: Id, r: Entry)
    requires Inv(u) && WfQueue(u) && WfQueue(WrapAll(u)) && InWindow(r, u.last) && r.turn < u.nextTurn
    requires forall x {:trigger u.entries[x]} :: x in u.entries && x != id ==> u.entries[x].turn != r.turn
    ensures WfEntry(r) && WfEntry(Wrapped(r)) && Inv(Reput(Exact, u, id, r))
    ensures Reput(Word, WrapAll(u), id, Wrapped(r)) == WrapAll(Reput(Exact, u, id, r))
  {
    WithoutKeeps(u, id);
    var v := Without(Exact, u, id);
    WrapAllWf(v);
    PutKeeps(v, id, r);
  }

  /** The first child by wrap-around comparison is the one with the smallest exact cycle. */
  lemma EarliestWraps(u: Siblings, id: Id)
    requires Timely(u)
    ensures Earliest(Word, WrapAll(u), id) <==> Earliest(Exact, u, id)
  {
    var q := WrapAll(u);
    if id in u.entries {
      forall other | other in u.entries
        ensures Less(Word, q.entries[id], q.entries[other]) == Less(Exact, u.entries[id], u.entries[other])
      {
        LessWraps(u.entries[id], u.entries[other], u.last);
      }
      assert forall other :: other in u.entries <==> other in q.entries;
    }
  }

  /** The front of the heap is the child with the smallest exact cycle and sequence number. */
  lemma TopIsEarliest(u: Siblings, id: Id)
    requires Inv(u) && u.heap != []
    ensures id == u.heap[0] <==> Earliest(Exact, u, id)
    ensures id == u.heap[0] <==> ServedFirst(WrapAll(u), id)
  {
    var front, less := u.heap[0], Order(Exact, u.entries);
    ExactOrder(u.entries);
    assert front in u.heap;
    forall other {:trigger u.entries[other]} | other in u.entries && other != front
      ensures Less(Exact, u.entries[front], u.entries[other])
    {
      assert other in u.heap;
      var i :| 0 <= i < |u.heap| && u.heap[i] == other;
      Pq.TopFirst(less, u.heap, u.entries.Keys, i);
    }
    assert Earliest(Exact, u, front);
    if id in u.entries {
      AheadExactly(u, id);
    }
  }

  /** How far the turn of `id` lies ahead of the last cycle, around the wrap. */
  ghost function Ahead(q: Siblings, id: Id): int
    requires id in q.entries
  {
    (q.entries[id].cycle - q.last) % WRAP
  }

  /** The turn of `id` is nearest, and of those in the same cycle it was queued first. */
  ghost predicate ServedFirst(q: Siblings, id: Id) {
    id in q.entries &&
    forall other {:trigger Nearer(q, id, other)} :: other in q.entries && other != id ==> Nearer(q, id, other)
  }

  ghost predicate Nearer(q: Siblings, x: Id, y: Id)
    requires x in q.entries && y in q.entries
  {
    Ahead(q, x) < Ahead(q, y) || (Ahead(q, x) == Ahead(q, y) && q.entries[x].turn < q.entries[y].turn)
  }

  lemma NearerExactly(u: Siblings, x: Id, y: Id)
    requires Timely(u) && x in u.entries && y in u.entries
    ensures x in WrapAll(u).entries && y in WrapAll(u).entries
    ensures Nearer(WrapAll(u), x, y) <==> Less(Exact, u.entries[x], u.entries[y])
  {
    AheadAt(u, x);
    AheadAt(u, y);
  }

  lemma AheadAt(u: Siblings, x: Id)
    requires Timely(u) && x in u.entries
    ensures x in WrapAll(u).entries && WrapAll(u).entries[x].turn == u.entries[x].turn
    ensures Ahead(WrapAll(u), x) == u.entries[x].cycle - u.last
  {
    var e := u.entries[x];
    assert InWindow(e, u.last);
    WrapDifference(e.cycle, u.last);
  }

  lemma AheadExactly(u: Siblings, id: Id)
    requires Timely(u) && id in u.entries
    ensures ServedFirst(WrapAll(u), id) <==> Earliest(Exact, u, id)
  {
    forall other | other in u.entries {
      NearerExactly(u, id, other);
    }
    assert WrapAll(u).entries.Keys == u.entries.Keys;
  }

  lemma WrapDifference(x: int, y: int)
    requires y <= x <= y + MAX_DISTANCE
    ensures (x % WRAP - y % WRAP) % WRAP == x - y
  {
    assert (x % WRAP - y % WRAP) % WRAP == (x - y) % WRAP;
  }

  ghost predicate Keeps(u: Siblings, ev: Event)
    requires Inv(u) && WfQueue(u) && WfQueue(WrapAll(u)) && Legal(WrapAll(u), ev)
  {
    LegalExact(u, ev);
    Inv(Apply(Exact, u, ev)) && Apply(Word, WrapAll(u), ev) == WrapAll(Apply(Exact, u, ev))
  }

  lemma LegalExact(u: Siblings, ev: Event)
    requires Listed(u) && Legal(WrapAll(u), ev)
    ensures ev.Join? ==> ev.id !in u.entries
    ensures !ev.Join? && !ev.Idle? ==> ev.id in u.entries && ev.id in WrapAll(u).entries
  {
    if ev.Select? {
      assert ev.id in u.heap;
    }
  }

  lemma SelectKeeps(u: Siblings, id: Id)
    requires Inv(u) && WfQueue(u) && WfQueue(WrapAll(u)) && Legal(WrapAll(u), Select(id))
    ensures Keeps(u, Select(id))
  {
    TopIsEarliest(u, id);
    var last := u.entries[id].cycle;
    forall other | other in u.entries
      ensures InWindow(u.entries[other], last)
    {
      assert other == id || Less(Exact, u.entries[id], u.entries[other]);
      WindowMoves(u.entries[other], u.last, last);
    }
    assert Timely(u.(last := last));
  }

  lemma RescheduleKeeps(u: Siblings, id: Id, len: nat)
    requires Inv(u) && WfQueue(u) && WfQueue(WrapAll(u)) && Legal(WrapAll(u), Reschedule(id, len))
    ensures Keeps(u, Reschedule(id, len))
  {
    var e := u.entries[id].(lastlen := len);
    NextTurn(u);
    NewEntry(e, u.last, u.nextTurn);
    NextAnyCycle(Word, e, Wrapped(e), u.last % WRAP);
    ReputKeeps(u.(nextTurn := u.nextTurn + 1), id, NextCycle(Exact, e, u.last).(turn := u.nextTurn));
  }

  lemma ChangeWeightKeeps(u: Siblings, id: Id, weight: nat)
    requires Inv(u) && WfQueue(u) && WfQueue(WrapAll(u)) && Legal(WrapAll(u), ChangeWeight(id, weight))
    ensures Keeps(u, ChangeWeight(id, weight))
  {
    ReweighedInWindow(u.entries[id], weight, u.last);
    ReweighedWraps(u.entries[id], weight, u.last);
    ReputKeeps(u, id, Reweighed(Exact, u.entries[id], weight, u.last));
  }

  /** Every event keeps window and heap order, and does to words what it does to exact integers. */
  lemma StepKeeps(u: Siblings, ev: Event)
    requires Inv(u) && Legal(WrapAll(u), ev)
    ensures WfQueue(u) && WfQueue(WrapAll(u)) && Keeps(u, ev)
  {
    WrapAllWf(u);
    match ev {
      case Join(id, e) => QueueKeeps(u, id, e);
      case Leave(id) => WithoutKeeps(u, id);
      case Select(id) => SelectKeeps(u, id);
      case Reschedule(id, len) => RescheduleKeeps(u, id, len);
      case ChangeWeight(id, weight) => ChangeWeightKeeps(u, id, weight);
      case Idle =>
        assert forall id :: id in u.entries ==> id in WrapAll(u).entries;
        assert u.entries == map[];
    }
  }

  // ------------------------------------------------------------------------- whole runs

  /** A sequence of events that can happen one after the other. */
  ghost predicate Possible(q: Siblings, evs: seq<Event>)
    requires WfQueue(q)
    decreases |evs|
  {
    evs != [] ==> Legal(q, evs[0]) && Possible(Apply(Word, q, evs[0]), evs[1..])
  }

  /** The state of the program after the events. */
  ghost function After(q: Siblings, evs: seq<Event>): (r: Siblings)
    requires WfQueue(q) && Possible(q, evs)
    decreases |evs|
  {
    if evs == [] then q else After(Apply(Word, q, evs[0]), evs[1..])
  }

  /** The same events on exact integers. */
  ghost function Exactly(u: Siblings, evs: seq<Event>): (r: Siblings)
    requires Inv(u) && Possible(WrapAll(u), evs)
    decreases |evs|
  {
    if evs == [] then u
    else
      StepKeeps(u, evs[0]);
      Exactly(Apply(Exact, u, evs[0]), evs[1..])
  }

  /** The first event of a run, in exact integers. */
  lemma RunNext(u: Siblings, evs: seq<Event>) returns (u': Siblings)
    requires Inv(u) && Possible(WrapAll(u), evs) && evs != []
    ensures WfQueue(u) && (!evs[0].Join? && !evs[0].Idle? ==> evs[0].id in u.entries && evs[0].id in WrapAll(u).entries)
    ensures evs[0].Join? ==> evs[0].id !in u.entries && evs[0].id !in WrapAll(u).entries
    ensures u' == Apply(Exact, u, evs[0]) && Apply(Word, WrapAll(u), evs[0]) == WrapAll(u')
    ensures Inv(u') && WfQueue(WrapAll(u')) && Possible(WrapAll(u'), evs[1..])
    ensures Exactly(u, evs) == Exactly(u', evs[1..])
  {
    StepKeeps(u, evs[0]);
    LegalExact(u, evs[0]);
    u' := Apply(Exact, u, evs[0]);
  }

  /** In any run the program does what the exact scheduler does, and every child is in the window. */
  lemma {:induction false} RunKeeps(u: Siblings, evs: seq<Event>)
    requires Inv(u) && Possible(WrapAll(u), evs)
    ensures Inv(Exactly(u, evs)) && After(WrapAll(u), evs) == WrapAll(Exactly(u, evs))
    decreases |evs|
  {
    if evs != [] {
      var u' := RunNext(u, evs);
      RunKeeps(u', evs[1..]);
    }
  }

  /** `stream_less` is a strict total order on the queued children of a stream. */
  lemma StrictTotalOrder(u: Siblings)
    requires Timely(u)
    ensures Pq.WeakOrder(Order(Word, WrapAll(u).entries), u.entries.Keys)
    ensures forall x, y {:trigger Order(Word, WrapAll(u).entries)(x, y)} ::
              x in u.entries && y in u.entries && x != y ==>
              Order(Word, WrapAll(u).entries)(x, y) != Order(Word, WrapAll(u).entries)(y, x)
  {
    var less := Order(Word, WrapAll(u).entries);
    forall x, y {:trigger less(x, y)} | x in u.entries && y in u.entries
      ensures less(x, y) == Less(Exact, u.entries[x], u.entries[y])
    {
      LessWraps(u.entries[x], u.entries[y], u.last);
    }
  }

  /** The program's state `q` stands for the exact state `u`. */
  ghost predicate Sound(q: Siblings, u: Siblings) {
    && Inv(u) && q == WrapAll(u)
    && (forall id {:trigger q.entries[id]} ::
          id in q.entries ==> (q.entries[id].cycle - q.last) % WRAP <= MAX_DISTANCE)
    && (forall id :: Earliest(Word, q, id) <==> Earliest(Exact, u, id))
    && (q.heap != [] ==> Earliest(Exact, u, q.heap[0]))
  }

  lemma InWindowWraps(u: Siblings, id: Id)
    requires Inv(u) && id in u.entries
    ensures (u.entries[id].cycle % WRAP - u.last % WRAP) % WRAP <= MAX_DISTANCE
  {
    NotAfterWraps(u.last, u.entries[id].cycle);
  }

  lemma InvSound(u: Siblings)
    requires Inv(u)
    ensures Sound(WrapAll(u), u)
  {
    forall id | id in u.entries
      ensures (WrapAll(u).entries[id].cycle - WrapAll(u).last) % WRAP <= MAX_DISTANCE
    {
      InWindowWraps(u, id);
    }
    forall id
      ensures Earliest(Word, WrapAll(u), id) <==> Earliest(Exact, u, id)
    {
      EarliestWraps(u, id);
    }
    if u.heap != [] {
      TopIsEarliest(u, u.heap[0]);
    }
  }

  lemma EmptyWraps()
    ensures Inv(EMPTY) && WrapAll(EMPTY) == EMPTY
  {
    assert WrapAll(EMPTY).entries == map[];
  }

  /**
    * In every run that starts with an empty queue, cycles lie modulo 2^64 in the window that begins
    * at the parent's last cycle, comparing them with wrap-around is comparing exact cycles, and the
    * front of the heap is the earliest child.
    */
  lemma AlwaysInWindow(evs: seq<Event>)
    requires Possible(EMPTY, evs)
    ensures Inv(EMPTY) && Possible(WrapAll(EMPTY), evs)
    ensures Sound(After(EMPTY, evs), Exactly(EMPTY, evs))
  {
    EmptyWraps();
    RunKeeps(EMPTY, evs);
    InvSound(Exactly(EMPTY, evs));
  }

  // ------------------------------------------------------- a last cycle that is set to zero

  /**
    * `nghttp2_stream_dep_remove_subtree` sets the last cycle of the stream it removes to zero, even if
    * children of that stream are queued.
    */
  function Zeroed(q: Siblings): Siblings {
    q.(last := 0)
  }

  /** The cycle of a child is in the window that begins at zero, and would be after any change of weight. */
  ghost predicate SafeChild(e: Entry) {
    WfEntry(e) && e.cycle <= MAX_DISTANCE && Base(Exact, e) + Carry(e) <= 255
  }

  ghost predicate ZeroSafe(q: Siblings) {
    forall id {:trigger q.entries[id]} :: id in q.entries ==> SafeChild(q.entries[id])
  }

  lemma ShiftedWindow(e: Entry, last: int, c: int)
    requires InWindow(e, last)
    ensures InWindow(e.(cycle := e.cycle + c), last + c)
  {
    assert Carry(e.(cycle := e.cycle + c)) == Carry(e);
  }

  lemma WrapTwice(u: Siblings)
    ensures WrapAll(Zeroed(WrapAll(u))) == Zeroed(WrapAll(u))
  {
    var q := WrapAll(u);
    forall id | id in q.entries
      ensures Wrapped(q.entries[id]) == q.entries[id]
    {
    }
    assert WrapAll(Zeroed(q)).entries == q.entries;
  }

  lemma SafeEntry(e: Entry, last: int)
    requires InWindow(e, last) && Wrapped(e).cycle <= MAX_DISTANCE
    requires Base(Exact, Wrapped(e)) + Carry(Wrapped(e)) <= 255
    ensures InWindow(Wrapped(e), 0)
  {
  }

  lemma SafeCycles(x: int, y: int)
    requires x - MAX_DISTANCE <= y <= x + MAX_DISTANCE && x % WRAP <= MAX_DISTANCE && y % WRAP <= MAX_DISTANCE
    ensures (x % WRAP == y % WRAP <==> x == y) && (x % WRAP <= y % WRAP <==> x <= y)
  {
    NotAfterWraps(x, y);
    NotAfterWraps(x % WRAP, y % WRAP);
    WrapAdd(x, 0);
    WrapAdd(y, 0);
  }

  lemma SafeLess(x: Entry, y: Entry, last: int)
    requires InWindow(x, last) && InWindow(y, last)
    requires Wrapped(x).cycle <= MAX_DISTANCE && Wrapped(y).cycle <= MAX_DISTANCE
    ensures Less(Exact, Wrapped(x), Wrapped(y)) == Less(Exact, x, y)
  {
    SafeCycles(x.cycle, y.cycle);
  }

  lemma ZeroSafeTimely(u: Siblings)
    requires Timely(u) && ZeroSafe(WrapAll(u))
    ensures Timely(Zeroed(WrapAll(u)))
  {
    var q := WrapAll(u);
    forall id {:trigger q.entries[id]} | id in q.entries
      ensures InWindow(q.entries[id], 0) && q.entries[id].turn == u.entries[id].turn
    {
      assert q.entries[id] == Wrapped(u.entries[id]);
      SafeEntry(u.entries[id], u.last);
    }
  }

  lemma ZeroSafeSound(u: Siblings)
    requires Inv(u) && ZeroSafe(WrapAll(u))
    ensures Inv(Zeroed(WrapAll(u))) && WrapAll(Zeroed(WrapAll(u))) == Zeroed(WrapAll(u))
  {
    var q := WrapAll(u);
    WrapTwice(u);
    ZeroSafeTimely(u);
    var z := Zeroed(q);
    forall x, y | x in u.heap && y in u.heap
      ensures Order(Exact, u.entries)(x, y) == Order(Exact, z.entries)(x, y)
    {
      assert z.entries[x] == Wrapped(u.entries[x]) && z.entries[y] == Wrapped(u.entries[y]);
      SafeLess(u.entries[x], u.entries[y], u.last);
    }
    Pq.AgreeHeap(Order(Exact, u.entries), Order(Exact, z.entries), u.heap);
  }

  lemma WrapsNear(c: int, last: int)
    requires last % WRAP == 0 && last <= c <= last + MAX_DISTANCE
    ensures c % WRAP == c - last
  {
  }

  lemma WindowAtZero(e: Entry, last: int)
    requires InWindow(e, last) && last % WRAP == 0
    ensures InWindow(Wrapped(e), 0)
  {
    WrapsNear(e.cycle, last);
    ShiftedWindow(e, last, -last);
  }

  /** An exact queue with a last cycle that wraps to zero. */
  lemma ZeroSafeNeeded(u: Siblings)
    requires Timely(u) && u.last % WRAP == 0
    ensures ZeroSafe(WrapAll(u))
  {
    var q := WrapAll(u);
    forall id {:trigger q.entries[id]} | id in q.entries
      ensures InWindow(q.entries[id], 0)
    {
      WindowAtZero(u.entries[id], u.last);
    }
  }
}
