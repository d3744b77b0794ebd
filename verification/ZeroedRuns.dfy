/**
  * What becomes of a queue of lib/nghttp2_stream.c whose last cycle has been set to zero while it was
  * not empty: the order of its children is lost, and the heap does not recover with the window.
  */
module ZeroedRuns {
  import opened VirtualTime
  import opened SiblingRuns
  import Pq

  /** The events can happen in `q` and lead to `q'`. */
  ghost predicate RunsTo(q: Siblings, evs: seq<Event>, q': Siblings) {
    WfQueue(q) && Possible(q, evs) && After(q, evs) == q'
  }

  ghost predicate Reaches(q: Siblings, q': Siblings) {
    exists evs {:trigger RunsTo(q, evs, q')} :: RunsTo(q, evs, q')
  }

  lemma {:induction false} RunsOn(q: Siblings, evs: seq<Event>, q1: Siblings, more: seq<Event>, q2: Siblings)
    requires RunsTo(q, evs, q1) && RunsTo(q1, more, q2)
    ensures RunsTo(q, evs + more, q2)
    decreases |evs|
  {
    if evs == [] {
      assert evs + more == more;
    } else {
      assert (evs + more)[1..] == evs[1..] + more;
      RunsOn(Apply(Word, q, evs[0]), evs[1..], q1, more, q2);
    }
  }

  lemma ReachesOn(q: Siblings, q1: Siblings, q2: Siblings)
    requires Reaches(q, q1) && Reaches(q1, q2)
    ensures Reaches(q, q2)
  {
    var evs, more :| RunsTo(q, evs, q1) && RunsTo(q1, more, q2);
    RunsOn(q, evs, q1, more, q2);
  }

  lemma OneEvent(q: Siblings, ev: Event)
    requires WfQueue(q) && Legal(q, ev) && (!ev.Join? && !ev.Idle? ==> ev.id in q.entries)
    ensures Reaches(q, Apply(Word, q, ev))
  {
    var evs, q1 := [ev], Apply(Word, q, ev);
    assert evs[1..] == [] && Possible(q1, []) && After(q1, []) == q1;
    assert RunsTo(q, evs, q1);
  }

  /** A child is in front, sends, and is rescheduled. */
  lemma Turn(q: Siblings, id: Id, len: nat)
    requires WfQueue(q) && id in q.entries && q.heap != [] && id == q.heap[0] && len <= MAX_FRAME
    ensures var q1 := q.(last := q.entries[id].cycle);
            WfQueue(q1) && Reaches(q, Apply(Word, q1, Reschedule(id, len)))
  {
    var q1 := q.(last := q.entries[id].cycle);
    OneEvent(q, Select(id));
    OneEvent(q1, Reschedule(id, len));
    ReachesOn(q, q1, Apply(Word, q1, Reschedule(id, len)));
  }

  /** Heaps of up to three entries. */
  lemma SmallPushes(less: (Id, Id) -> bool, a: Id, b: Id, c: Id)
    ensures Pq.Pushed(less, [], a) == [a]
    ensures !less(b, a) ==> Pq.Pushed(less, [a], b) == [a, b]
    ensures Pq.Pushed(less, [a, b], c) == if less(c, a) then [c, b, a] else [a, b, c]
  {
    assert [] + [a] == [a] && [a] + [b] == [a, b] && [a, b] + [c] == [a, b, c];
    assert Pq.Parent(1) == 0 && Pq.Parent(2) == 0;
    var q := Pq.Exchanged([a, b, c], 0, 2);
    assert q == [c, b, a] && Pq.Up(less, q, 0) == q;
  }

  lemma SmallRemovals(less: (Id, Id) -> bool, a: Id, b: Id, c: Id)
    requires a != b && b != c && a != c
    ensures Pq.Removed(less, [a], a) == []
    ensures Pq.Removed(less, [a, b, c], a) == if less(b, c) then [b, c] else [c, b]
    ensures Pq.Removed(less, [a, b, c], c) == [a, b]
  {
    assert Pq.Replaced([a], 0) == [] && Pq.Replaced([a, b, c], 0) == [c, b] && Pq.Replaced([a, b, c], 2) == [a, b];
    assert Pq.Find([a], a) == 0 && Pq.Find([a, b, c], a) == 0;
    assert [a, b, c][1..] == [b, c] && [b, c][1..] == [c] && Pq.Find([a, b, c], c) == 2;
    assert Pq.Parent(1) == 0;
    var q := Pq.Exchanged([c, b], 0, 1);
    assert q == [b, c] && Pq.Down(less, q, 1) == q;
  }

  function Queued(e: Entry, last: int, turn: nat): Entry
    requires WfEntry(e)
  {
    NextCycle(Word, e, last).(turn := turn)
  }

  /** A child alone in its queue. */
  lemma AloneQueued(last: int, turn: nat, id: Id, e: Entry)
    requires WfEntry(e) && WfQueue(Siblings(last, turn, map[], []))
    ensures Queue(Word, Siblings(last, turn, map[], []), id, e) ==
            Siblings(last, turn + 1, map[id := Queued(e, last, turn)], [id])
  {
    var r := Queued(e, last, turn);
    SmallPushes(Order(Word, map[id := r]), id, id, id);
    assert map[][id := r] == map[id := r];
  }

  lemma AloneLeaves(last: int, turn: nat, id: Id, e: Entry)
    requires WfQueue(Siblings(last, turn, map[id := e], [id]))
    ensures Without(Word, Siblings(last, turn, map[id := e], [id]), id) == Siblings(last, turn, map[], [])
  {
    SmallRemovals(Order(Word, map[id := e]), id, id + 1, id + 2);
    assert map[id := e] - {id} == map[];
  }

  lemma JoinAlone(last: int, turn: nat, id: Id, e: Entry)
    requires WfEntry(e)
    ensures Reaches(Siblings(last, turn, map[], []),
                    Siblings(last, turn + 1, map[id := Queued(e, last, turn)], [id]))
  {
    AloneQueued(last, turn, id, e);
    OneEvent(Siblings(last, turn, map[], []), Join(id, e));
  }

  lemma TurnAlone(last: int, turn: nat, id: Id, e: Entry, len: nat)
    requires WfEntry(e) && len <= MAX_FRAME
    ensures Reaches(Siblings(last, turn, map[id := e], [id]),
                    Siblings(e.cycle, turn + 1, map[id := Queued(e.(lastlen := len), e.cycle, turn)], [id]))
  {
    var q := Siblings(last, turn, map[id := e], [id]);
    assert WfQueue(q);
    Turn(q, id, len);
    AloneLeaves(e.cycle, turn, id, e);
    AloneQueued(e.cycle, turn, id, e.(lastlen := len));
  }

  /** Stream 1 sends a full frame and another one, at weight 1. */
  const NEW: Entry := Entry(1, 0, 0, 0, 0)
  const FULL: Entry := Entry(1, MAX_FRAME * 256, 0, MAX_FRAME, 1)
  const LATE: Entry := Entry(1, MAX_FRAME * 256 + 16384 * 256, 0, 16384, 2)

  const AT_REMOVAL: Siblings := Siblings(MAX_FRAME * 256, 3, map[1 := LATE], [1])

  lemma BeforeRun()
    ensures Reaches(EMPTY, AT_REMOVAL)
  {
    BeforeValues();
    JoinAlone(0, 0, 1, NEW);
    TurnAlone(0, 1, 1, NEW, MAX_FRAME);
    TurnAlone(0, 2, 1, FULL, 16384);
    var q1 := Siblings(0, 1, map[1 := NEW], [1]);
    var q2 := Siblings(0, 2, map[1 := FULL], [1]);
    ReachesOn(EMPTY, q1, q2);
    ReachesOn(EMPTY, q2, AT_REMOVAL);
  }

  lemma BeforeValues()
    ensures WfEntry(NEW) && WfEntry(FULL) && Queued(NEW, 0, 0) == NEW
    ensures Queued(NEW.(lastlen := MAX_FRAME), 0, 1) == FULL
    ensures Queued(FULL.(lastlen := 16384), FULL.cycle, 2) == LATE
  {
  }

  /**
    * `nghttp2_stream_dep_remove_subtree` of the parent, which sets its last cycle to zero: a child
    * queued after it is neither before nor after stream 1.
    */
  lemma ZeroedOrderFails()
    ensures Reaches(EMPTY, AT_REMOVAL) && AT_REMOVAL.entries == map[1 := LATE]
    ensures !Less(Word, LATE, Queued(NEW, 0, 3)) && !Less(Word, Queued(NEW, 0, 3), LATE)
  {
    BeforeRun();
  }

  /** The queue of three children in heap order `x`, `y`, `z`. */
  function Three(last: int, turn: nat, x: Id, ex: Entry, y: Id, ey: Entry, z: Id, ez: Entry): Siblings {
    Siblings(last, turn, map[x := ex, y := ey, z := ez], [x, y, z])
  }

  lemma ThreeWf(last: int, turn: nat, x: Id, ex: Entry, y: Id, ey: Entry, z: Id, ez: Entry)
    requires WfEntry(ex) && WfEntry(ey) && WfEntry(ez) && x != y && y != z && x != z
    ensures WfQueue(Three(last, turn, x, ex, y, ey, z, ez))
  {
  }

  /** The front of three leaves: the last one takes its place, and sinks or not. */
  lemma FrontLeaves(turn: nat, x: Id, ex: Entry, y: Id, ey: Entry, z: Id, ez: Entry)
    requires WfEntry(ex) && WfEntry(ey) && WfEntry(ez) && x != y && y != z && x != z
    requires WfQueue(Three(ex.cycle, turn, x, ex, y, ey, z, ez))
    ensures Without(Word, Three(ex.cycle, turn, x, ex, y, ey, z, ez), x) ==
            if Less(Word, ey, ez) then Siblings(ex.cycle, turn, map[y := ey, z := ez], [y, z])
            else Siblings(ex.cycle, turn, map[z := ez, y := ey], [z, y])
  {
    var q := Three(ex.cycle, turn, x, ex, y, ey, z, ez);
    SmallRemovals(Order(Word, q.entries), x, y, z);
    assert q.entries - {x} == map[y := ey, z := ez] && q.entries - {x} == map[z := ez, y := ey];
  }

  /** A third one is queued behind `f` and `g`. */
  lemma ThirdQueued(last: int, turn: nat, f: Id, ef: Entry, g: Id, eg: Entry, x: Id, e: Entry)
    requires WfEntry(ef) && WfEntry(eg) && WfEntry(e) && f != g && g != x && f != x
    requires WfQueue(Siblings(last, turn, map[f := ef, g := eg], [f, g]))
    ensures var r := Queued(e, last, turn);
            Queue(Word, Siblings(last, turn, map[f := ef, g := eg], [f, g]), x, e) ==
            if Less(Word, r, ef) then Three(last, turn + 1, x, r, g, eg, f, ef)
            else Three(last, turn + 1, f, ef, g, eg, x, r)
  {
    var r := Queued(e, last, turn);
    var all := map[f := ef, g := eg, x := r];
    SmallPushes(Order(Word, all), f, g, x);
    assert map[f := ef, g := eg][x := r] == all && map[x := r, g := eg, f := ef] == all;
  }

  lemma SecondQueued(last: int, turn: nat, x: Id, ex: Entry, y: Id, e: Entry)
    requires WfEntry(ex) && WfEntry(e) && x != y && !Less(Word, Queued(e, last, turn), ex)
    requires WfQueue(Siblings(last, turn, map[x := ex], [x]))
    ensures Queue(Word, Siblings(last, turn, map[x := ex], [x]), y, e) ==
            Siblings(last, turn + 1, map[x := ex, y := Queued(e, last, turn)], [x, y])
  {
    var r := Queued(e, last, turn);
    SmallPushes(Order(Word, map[x := ex, y := r]), x, y, y);
    assert map[x := ex][y := r] == map[x := ex, y := r];
  }

  lemma JoinSecond(last: int, turn: nat, x: Id, ex: Entry, y: Id, e: Entry)
    requires WfEntry(ex) && WfEntry(e) && x != y && !Less(Word, Queued(e, last, turn), ex)
    ensures Reaches(Siblings(last, turn, map[x := ex], [x]),
                    Siblings(last, turn + 1, map[x := ex, y := Queued(e, last, turn)], [x, y]))
  {
    var q := Siblings(last, turn, map[x := ex], [x]);
    assert WfQueue(q);
    SecondQueued(last, turn, x, ex, y, e);
    OneEvent(q, Join(y, e));
  }

  lemma JoinThird(last: int, turn: nat, x: Id, ex: Entry, y: Id, ey: Entry, z: Id, e: Entry)
    requires WfEntry(ex) && WfEntry(ey) && WfEntry(e) && x != y && y != z && x != z
    requires !Less(Word, Queued(e, last, turn), ex)
    ensures Reaches(Siblings(last, turn, map[x := ex, y := ey], [x, y]),
                    Three(last, turn + 1, x, ex, y, ey, z, Queued(e, last, turn)))
  {
    var q := Siblings(last, turn, map[x := ex, y := ey], [x, y]);
    assert WfQueue(q);
    ThirdQueued(last, turn, x, ex, y, ey, z, e);
    OneEvent(q, Join(z, e));
  }

  /** The turn of the front, which then is the last of three. */
  lemma TurnToBack(last: int, turn: nat, x: Id, ex: Entry, y: Id, ey: Entry, z: Id, ez: Entry, len: nat)
    requires WfEntry(ex) && WfEntry(ey) && WfEntry(ez) && x != y && y != z && x != z && len <= MAX_FRAME
    requires Less(Word, ey, ez) && !Less(Word, Queued(ex.(lastlen := len), ex.cycle, turn), ey)
    ensures Reaches(Three(last, turn, x, ex, y, ey, z, ez),
                    Three(ex.cycle, turn + 1, y, ey, z, ez, x, Queued(ex.(lastlen := len), ex.cycle, turn)))
  {
    ThreeWf(last, turn, x, ex, y, ey, z, ez);
    Turn(Three(last, turn, x, ex, y, ey, z, ez), x, len);
    FrontLeaves(turn, x, ex, y, ey, z, ez);
    ThirdQueued(ex.cycle, turn, y, ey, z, ez, x, ex.(lastlen := len));
  }

  /** The turn of the front, which comes to the front again. */
  lemma TurnToFront(last: int, turn: nat, x: Id, ex: Entry, y: Id, ey: Entry, z: Id, ez: Entry, len: nat)
    requires WfEntry(ex) && WfEntry(ey) && WfEntry(ez) && x != y && y != z && x != z && len <= MAX_FRAME
    requires !Less(Word, ey, ez) && Less(Word, Queued(ex.(lastlen := len), ex.cycle, turn), ez)
    ensures Reaches(Three(last, turn, x, ex, y, ey, z, ez),
                    Three(ex.cycle, turn + 1, x, Queued(ex.(lastlen := len), ex.cycle, turn), y, ey, z, ez))
  {
    ThreeWf(last, turn, x, ex, y, ey, z, ez);
    Turn(Three(last, turn, x, ex, y, ey, z, ez), x, len);
    FrontLeaves(turn, x, ex, y, ey, z, ez);
    ThirdQueued(ex.cycle, turn, z, ez, y, ey, x, ex.(lastlen := len));
  }

  lemma LeaveThird(last: int, turn: nat, x: Id, ex: Entry, y: Id, ey: Entry, z: Id, ez: Entry)
    requires WfEntry(ex) && WfEntry(ey) && WfEntry(ez) && x != y && y != z && x != z
    ensures Reaches(Three(last, turn, x, ex, y, ey, z, ez),
                    Siblings(last, turn, map[x := ex, y := ey], [x, y]))
  {
    var q := Three(last, turn, x, ex, y, ey, z, ez);
    ThreeWf(last, turn, x, ex, y, ey, z, ez);
    SmallRemovals(Order(Word, q.entries), x, y, z);
    assert q.entries - {z} == map[x := ex, y := ey];
    OneEvent(q, Leave(z));
  }

  /** Streams 2 and 3 join; 1 and then 2, each in front of the heap, send; and 1 leaves. */
  const LIGHT: Entry := Entry(1, 0, 0, 0, 3)
  const HEAVY: Entry := Entry(256, 0, 0, 0, 4)
  const LATER: Entry := Entry(1, MAX_FRAME * 256 + 2 * 16384 * 256, 0, 16384, 5)
  const SENT: Entry := Entry(1, MAX_FRAME * 256, 0, MAX_FRAME, 6)

  lemma AfterwardsValues()
    ensures WfEntry(LATE) && WfEntry(LIGHT) && WfEntry(HEAVY) && WfEntry(LATER) && WfEntry(SENT)
    ensures Queued(NEW, 0, 3) == LIGHT && Queued(HEAVY, 0, 4) == HEAVY
    ensures Queued(LATE.(lastlen := 16384), LATE.cycle, 5) == LATER
    ensures Queued(LIGHT.(lastlen := MAX_FRAME), LIGHT.cycle, 6) == SENT
    ensures !Less(Word, LIGHT, LATE) && !Less(Word, HEAVY, LATE)
    ensures Less(Word, LIGHT, HEAVY) && !Less(Word, LATER, LIGHT)
    ensures !Less(Word, HEAVY, LATER) && Less(Word, SENT, LATER)
  {
  }

  lemma JoinsRun()
    ensures Reaches(Zeroed(AT_REMOVAL), Three(0, 5, 1, LATE, 2, LIGHT, 3, HEAVY))
  {
    AfterwardsValues();
    JoinSecond(0, 3, 1, LATE, 2, NEW);
    JoinThird(0, 4, 1, LATE, 2, LIGHT, 3, HEAVY);
    ReachesOn(Zeroed(AT_REMOVAL), Siblings(0, 4, map[1 := LATE, 2 := LIGHT], [1, 2]),
              Three(0, 5, 1, LATE, 2, LIGHT, 3, HEAVY));
  }

  lemma TurnsRun()
    ensures Reaches(Three(0, 5, 1, LATE, 2, LIGHT, 3, HEAVY), Three(0, 7, 2, SENT, 3, HEAVY, 1, LATER))
  {
    AfterwardsValues();
    TurnToBack(0, 5, 1, LATE, 2, LIGHT, 3, HEAVY, 16384);
    TurnToFront(LATE.cycle, 6, 2, LIGHT, 3, HEAVY, 1, LATER, MAX_FRAME);
    ReachesOn(Three(0, 5, 1, LATE, 2, LIGHT, 3, HEAVY), Three(LATE.cycle, 6, 2, LIGHT, 3, HEAVY, 1, LATER),
              Three(0, 7, 2, SENT, 3, HEAVY, 1, LATER));
  }

  /** The queue at the end of it. */
  const BROKEN: Siblings := Siblings(0, 7, map[2 := SENT, 3 := HEAVY], [2, 3])

  lemma AfterwardsRun()
    ensures Reaches(Zeroed(AT_REMOVAL), BROKEN)
  {
    AfterwardsValues();
    JoinsRun();
    TurnsRun();
    LeaveThird(0, 7, 2, SENT, 3, HEAVY, 1, LATER);
    var q1, q2 := Three(0, 5, 1, LATE, 2, LIGHT, 3, HEAVY), Three(0, 7, 2, SENT, 3, HEAVY, 1, LATER);
    ReachesOn(Zeroed(AT_REMOVAL), q1, q2);
    ReachesOn(Zeroed(AT_REMOVAL), q2, BROKEN);
  }

  lemma BrokenQueue()
    ensures Timely(BROKEN) && WfQueue(BROKEN) && WrapAll(BROKEN) == BROKEN
    ensures Earliest(Word, BROKEN, 3) && Earliest(Exact, BROKEN, 3)
  {
    assert InWindow(SENT, 0) && InWindow(HEAVY, 0);
    assert WrapAll(BROKEN).entries == BROKEN.entries;
  }

  /**
    * The window comes back and the heap order does not: after the removal of the parent's subtree and
    * events that can happen, every cycle is in the window again, the front of the heap is stream 2,
    * and stream 3 is before it.  Selecting the front takes stream 3 out of the window.
    */
  lemma FrontNotFirst()
    ensures Reaches(EMPTY, AT_REMOVAL) && Reaches(Zeroed(AT_REMOVAL), BROKEN)
    ensures Timely(BROKEN) && WfQueue(BROKEN) && WrapAll(BROKEN) == BROKEN
    ensures BROKEN.heap[0] == 2 && Earliest(Word, BROKEN, 3) && Earliest(Exact, BROKEN, 3)
    ensures !NotAfter(Word, Apply(Word, BROKEN, Select(2)).last, BROKEN.entries[3].cycle)
  {
    BeforeRun();
    AfterwardsRun();
    BrokenQueue();
  }
}
