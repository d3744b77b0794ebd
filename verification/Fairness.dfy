/**
  * Weighted fairness of the scheduler of lib/nghttp2_stream.c: the octets two siblings send, divided
  * by their weights, differ by at most a constant, however long the run is.
  */
module Fairness {
  import opened Bytes
  import opened VirtualTime
  import opened SiblingRuns

  /** The octets `id` sent. */
  ghost function Served(evs: seq<Event>, id: Id): nat
    decreases |evs|
  {
    if evs == [] then 0
    else (if evs[0].Reschedule? && evs[0].id == id then evs[0].len else 0) + Served(evs[1..], id)
  }

  /**
    * `id` is queued throughout, keeps its weight, and is only rescheduled after it has been selected:
    * its cycle is then its parent's last cycle.  Anything may happen to the other children.
    */
  ghost predicate Stays(q: Siblings, evs: seq<Event>, id: Id)
    requires WfQueue(q) && Possible(q, evs)
    decreases |evs|
  {
    && id in q.entries
    && (evs != [] ==>
          && (evs[0].Join? || evs[0].Leave? || evs[0].ChangeWeight? ==> evs[0].id != id)
          && (evs[0].Reschedule? && evs[0].id == id ==> q.entries[id].cycle == q.last)
          && Stays(Apply(Word, q, evs[0]), evs[1..], id))
  }

  /** Weighted cycle plus carried remainder: what has been charged to a child. */
  ghost function Charged(e: Entry): int {
    e.weight * e.cycle + e.pending
  }

  /** The remainder makes the charge exact. */
  lemma ChargedExactly(e: Entry, last: int)
    requires WfEntry(e)
    ensures Charged(NextCycle(Exact, e, last)) == e.weight * last + Penalty(e)
  {
    var w, x := e.weight, Penalty(e);
    assert w * (last + x / w) == w * last + w * (x / w);
  }

  lemma StepCharges(u: Siblings, ev: Event, id: Id)
    requires Inv(u) && Legal(WrapAll(u), ev) && id in u.entries
    requires ev.Join? || ev.Leave? || ev.ChangeWeight? ==> ev.id != id
    requires ev.Reschedule? && ev.id == id ==> WrapAll(u).entries[id].cycle == WrapAll(u).last
    ensures id in Apply(Exact, u, ev).entries
    ensures var e' := Apply(Exact, u, ev).entries[id];
            && e'.weight == u.entries[id].weight
            && Charged(e') == Charged(u.entries[id]) + 256 * Served([ev], id)
  {
    var e := u.entries[id];
    assert [ev][1..] == [];
    LegalExact(u, ev);
    WrapAllWf(u);
    EntryAfter(Exact, u, ev, id);
    if ev.Reschedule? && ev.id == id {
      NotAfterWraps(e.cycle, u.last);
      ChargedExactly(e.(lastlen := ev.len), u.last);
      AnyTurn(NextCycle(Exact, e.(lastlen := ev.len), u.last), u.nextTurn);
    }
  }

  lemma AnyTurn(e: Entry, turn: nat)
    ensures Charged(e.(turn := turn)) == Charged(e)
  {
  }

  /** The first event of a run. */
  lemma StaysNext(u: Siblings, evs: seq<Event>, id: Id) returns (u': Siblings)
    requires Inv(u) && Possible(WrapAll(u), evs) && Stays(WrapAll(u), evs, id) && evs != []
    ensures Inv(u') && WfQueue(WrapAll(u')) && Possible(WrapAll(u'), evs[1..]) && Stays(WrapAll(u'), evs[1..], id)
    ensures Exactly(u, evs) == Exactly(u', evs[1..])
    ensures id in u.entries && id in u'.entries && u'.entries[id].weight == u.entries[id].weight
    ensures Charged(u'.entries[id]) + 256 * Served(evs[1..], id) == Charged(u.entries[id]) + 256 * Served(evs, id)
  {
    u' := RunNext(u, evs);
    StepCharges(u, evs[0], id);
    assert [evs[0]][1..] == [];
  }

  /** Over a run the charge telescopes to the octets sent. */
  lemma {:induction false} RunCharges(u: Siblings, evs: seq<Event>, id: Id)
    requires Inv(u) && Possible(WrapAll(u), evs) && Stays(WrapAll(u), evs, id)
    ensures var u' := Exactly(u, evs);
            && id in u'.entries && u'.entries[id].weight == u.entries[id].weight
            && Charged(u'.entries[id]) == Charged(u.entries[id]) + 256 * Served(evs, id)
    decreases |evs|
  {
    if evs != [] {
      var u' := StaysNext(u, evs, id);
      RunCharges(u', evs[1..], id);
    }
  }

  lemma Distribute(k: int, x: int, y: int)
    ensures k * (x + y) == k * x + k * y
  {
  }

  lemma Scaled(k: nat, x: int, m: nat)
    requires -(m as int) <= x <= m
    ensures -(k * m) <= k * x <= k * m
  {
    if x < 0 {
      assert k * -x <= k * m;
    }
  }

  /** Two charges, made of cycles and remainders, are close when the cycles are. */
  lemma ChargesClose(w: nat, v: nat, a: int, b: int, dc: int, dd: int, dp: int, dr: int, m: nat)
    requires a == w * dc + dp && b == v * dd + dr
    requires -(w as int) <= dp <= w && -(v as int) <= dr <= v && -(m as int) <= dc - dd <= m
    ensures -(w * v * (m + 2)) <= v * a - w * b <= w * v * (m + 2)
  {
    Distribute(v, w * dc, dp);
    Distribute(w, v * dd, dr);
    Products(w, v, dc, dd);
    Scaled(w * v, dc - dd, m);
    Scaled(v, dp, w);
    Scaled(w, dr, v);
    Distribute(w * v, m, 2);
  }

  lemma Products(w: int, v: int, x: int, y: int)
    ensures v * (w * x) - w * (v * y) == (w * v) * (x - y)
  {
    Distribute(w * v, x, -y);
  }

  /** The charge between two states of a child of unchanged weight. */
  lemma ChargeBetween(e: Entry, e': Entry)
    requires e.weight == e'.weight
    ensures Charged(e') - Charged(e) == e.weight * (e'.cycle - e.cycle) + (e'.pending - e.pending)
  {
    Distribute(e.weight, e'.cycle, -e.cycle);
  }

  /** Children in the window before and after. */
  lemma ChargesInWindow(e: Entry, f: Entry, last: int, e': Entry, f': Entry, last': int)
    requires InWindow(e, last) && InWindow(f, last) && InWindow(e', last') && InWindow(f', last')
    requires e'.weight == e.weight && f'.weight == f.weight
    ensures var w, v := e.weight, f.weight;
            var x := v * (Charged(e') - Charged(e)) - w * (Charged(f') - Charged(f));
            -(w * v * (2 * MAX_DISTANCE + 2)) <= x <= w * v * (2 * MAX_DISTANCE + 2)
  {
    ChargeBetween(e, e');
    ChargeBetween(f, f');
    ChargesClose(e.weight, f.weight, Charged(e') - Charged(e), Charged(f') - Charged(f), e'.cycle - e.cycle,
                 f'.cycle - f.cycle, e'.pending - e.pending, f'.pending - f.pending, 2 * MAX_DISTANCE);
  }

  /** `x` and `y` octets sent at weights `w` and `v`: 256 times octets over weight differ by a constant at most. */
  ghost predicate Fair(w: nat, v: nat, x: nat, y: nat) {
    -(w * v * (2 * MAX_DISTANCE + 2)) <= v * (256 * x) - w * (256 * y) <= w * v * (2 * MAX_DISTANCE + 2)
  }

  /** From any queue in its window, two children that stay queued with unchanged weights are served fairly. */
  lemma FairFrom(u: Siblings, evs: seq<Event>, a: Id, b: Id)
    requires Inv(u) && Possible(WrapAll(u), evs) && Stays(WrapAll(u), evs, a) && Stays(WrapAll(u), evs, b)
    ensures Fair(u.entries[a].weight, u.entries[b].weight, Served(evs, a), Served(evs, b))
  {
    RunCharges(u, evs, a);
    RunCharges(u, evs, b);
    RunKeeps(u, evs);
    var u' := Exactly(u, evs);
    FairInWindow(u.entries[a], u.entries[b], u.last, u'.entries[a], u'.entries[b], u'.last,
                 Served(evs, a), Served(evs, b));
  }

  lemma FairInWindow(e: Entry, f: Entry, last: int, e': Entry, f': Entry, last': int, x: nat, y: nat)
    requires InWindow(e, last) && InWindow(f, last) && InWindow(e', last') && InWindow(f', last')
    requires e'.weight == e.weight && f'.weight == f.weight
    requires Charged(e') == Charged(e) + 256 * x && Charged(f') == Charged(f) + 256 * y
    ensures Fair(e.weight, f.weight, x, y)
  {
    ChargesInWindow(e, f, last, e', f', last');
    assert Charged(e') - Charged(e) == 256 * x && Charged(f') - Charged(f) == 256 * y;
  }

  /**
    * Two children that stay queued with unchanged weights: 256 times the octets sent, over the
    * weight, differ by at most 2 * MAX_DISTANCE + 2.
    */
  lemma WeightedFairness(before: seq<Event>, evs: seq<Event>, a: Id, b: Id)
    requires Possible(EMPTY, before) && WfQueue(After(EMPTY, before)) && Possible(After(EMPTY, before), evs)
    requires Stays(After(EMPTY, before), evs, a) && Stays(After(EMPTY, before), evs, b)
    ensures var q := After(EMPTY, before);
            Fair(q.entries[a].weight, q.entries[b].weight, Served(evs, a), Served(evs, b))
  {
    EmptyWraps();
    RunKeeps(EMPTY, before);
    FairFrom(Exactly(EMPTY, before), evs, a, b);
  }
}
