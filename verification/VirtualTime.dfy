/**
  * The virtual time of lib/nghttp2_stream.c: the queued children of one stream, each with the cycle
  * in which it is served next.  Cycles are 64-bit words that wrap around; the same operations on
  * unbounded integers are the reference, and both agree as long as the cycles of siblings lie close
  * together, which every operation keeps.
  */
module VirtualTime {
  import opened Bytes

  const WRAP: nat := 0x1_0000_0000_0000_0000
  const MAX_WEIGHT: nat := 256
  const MAX_FRAME: nat := 0xff_ffff

  /** NGHTTP2_MAX_CYCLE_DISTANCE. */
  const MAX_DISTANCE: nat := MAX_FRAME * MAX_WEIGHT + 255

  type Id = nat

  /** The scheduling fields of a queued stream. */
  datatype Entry = Entry(weight: nat, cycle: int, pending: nat, lastlen: nat, turn: nat)

  /** `descendant_last_cycle`, `descendant_next_seq`, the queued children of a stream, and their heap `obq`. */
  datatype Siblings = Siblings(last: int, nextTurn: nat, entries: map<Id, Entry>, heap: seq<Id>)

  /** Words that wrap around, or exact integers. */
  datatype Arith = Word | Exact

  function Norm(a: Arith, x: int): int {
    if a.Word? then x % WRAP else x
  }

  /** `x` is at or before `y`. */
  predicate NotAfter(a: Arith, x: int, y: int) {
    if a.Word? then (y - x) % WRAP <= MAX_DISTANCE else x <= y
  }

  /** `stream_less`. */
  predicate Less(a: Arith, x: Entry, y: Entry) {
    if x.cycle == y.cycle then x.turn < y.turn else NotAfter(a, x.cycle, y.cycle)
  }

  /** What a stream can bring along when it is queued. */
  predicate WfEntry(e: Entry) {
    1 <= e.weight <= MAX_WEIGHT && e.lastlen <= MAX_FRAME && e.pending < MAX_WEIGHT
  }

  function Penalty(e: Entry): nat {
    e.lastlen * MAX_WEIGHT + e.pending
  }

  /** `stream_next_cycle`. */
  function NextCycle(a: Arith, e: Entry, last: int): (r: Entry)
    requires WfEntry(e)
    ensures WfEntry(r) && r.pending < r.weight
  {
    e.(cycle := Norm(a, last + Penalty(e) / e.weight), pending := Penalty(e) % e.weight)
  }

  /** The pending penalty that `cycle` was computed with, as far as it can be recovered. */
  function Carry(e: Entry): (r: nat)
    requires WfEntry(e)
    ensures r < e.weight
  {
    (e.pending + e.weight - e.lastlen * MAX_WEIGHT % e.weight) % e.weight
  }

  /** The cycle that `cycle` was computed from. */
  function Base(a: Arith, e: Entry): int
    requires WfEntry(e)
  {
    Norm(a, e.cycle - (e.lastlen * MAX_WEIGHT + Carry(e)) / e.weight)
  }

  /** `nghttp2_stream_change_weight` of a queued stream. */
  function Reweighed(a: Arith, e: Entry, weight: nat, last: int): (r: Entry)
    requires WfEntry(e) && 1 <= weight <= MAX_WEIGHT
    ensures WfEntry(r)
  {
    var r := NextCycle(a, e.(pending := Carry(e), weight := weight), Base(a, e));
    if NotAfter(a, r.cycle, last) then r.(cycle := last) else r
  }

  // ---------------------------------------------------------------- undoing a schedule

  /** The sum of `a * w + b` and `c * w + d` divided by `w`, when the remainders do not carry. */
  lemma SumNoCarry(w: nat, a: nat, b: nat, c: nat, d: nat)
    requires b + d < w
    ensures ((a * w + b) + (c * w + d)) / w == a + c && ((a * w + b) + (c * w + d)) % w == b + d
    ensures ((a * w + b) + d) / w == a
  {
    assert (a + c) * w == a * w + c * w;
    DivUnique((a * w + b) + (c * w + d), w, a + c, b + d);
    DivUnique((a * w + b) + d, w, a, b + d);
  }

  lemma SumCarry(w: nat, a: nat, b: nat, c: nat, d: nat)
    requires b < w && d < w && w <= b + d
    ensures ((a * w + b) + (c * w + d)) / w == a + c + 1 && ((a * w + b) + (c * w + d)) % w == b + d - w
    ensures ((a * w + b) + d) / w == a + 1
  {
    assert (a + c + 1) * w == a * w + c * w + w && (a + 1) * w == a * w + w;
    DivUnique((a * w + b) + (c * w + d), w, a + c + 1, b + d - w);
    DivUnique((a * w + b) + d, w, a + 1, b + d - w);
  }

  /** What a sum modulo `w` tells about one of its terms. */
  lemma CarryOf(wl: nat, p: nat, w: nat)
    requires w > 0
    ensures ((wl + p) % w + w - wl % w) % w == p % w
    ensures (wl + p) / w == (wl + p % w) / w + p / w
  {
    Decomposed(wl, w);
    Decomposed(p, w);
    CarryParts(w, wl / w, wl % w, p / w, p % w, wl, p);
  }

  lemma CarryParts(w: nat, a: nat, b: nat, c: nat, d: nat, wl: nat, p: nat)
    requires b < w && d < w && wl == a * w + b && p == c * w + d
    ensures ((wl + p) % w + w - b) % w == d
    ensures (wl + p) / w == (wl + d) / w + c
  {
    if b + d < w {
      SumNoCarry(w, a, b, c, d);
      DivUnique(w + d, w, 1, d);
    } else {
      SumCarry(w, a, b, c, d);
      DivUnique(d, w, 0, d);
    }
  }

  /** `change_weight` recovers the pending penalty modulo the old weight, and a base raised accordingly. */
  lemma Recovered(e: Entry, last: int)
    requires WfEntry(e)
    ensures var r := NextCycle(Exact, e, last);
            Carry(r) == e.pending % e.weight && Base(Exact, r) == last + e.pending / e.weight
  {
    CarryOf(e.lastlen * MAX_WEIGHT, e.pending, e.weight);
  }

  /** The recovered values are those of the last schedule exactly when the penalty was below the weight. */
  lemma RecoveredExactly(e: Entry, last: int)
    requires WfEntry(e)
    ensures var r := NextCycle(Exact, e, last);
            Carry(r) == e.pending && Base(Exact, r) == last <==> e.pending < e.weight
  {
    Recovered(e, last);
    if e.pending < e.weight {
      DivUnique(e.pending, e.weight, 0, e.pending);
    }
  }

  /** Then a new weight has the effect of scheduling with that weight from the start. */
  lemma WeightFromTheStart(e: Entry, last: int, weight: nat, now: int)
    requires WfEntry(e) && e.pending < e.weight && 1 <= weight <= MAX_WEIGHT
    ensures var r := NextCycle(Exact, e.(weight := weight), last);
            Reweighed(Exact, NextCycle(Exact, e, last), weight, now) ==
            if r.cycle < now then r.(cycle := now) else r
  {
    RecoveredExactly(e, last);
    var s := NextCycle(Exact, e, last);
    assert s.(pending := Carry(s), weight := weight, cycle := 0) == e.(weight := weight, cycle := 0);
  }

  // ------------------------------------------------------------------------ the window

  /** A queued child when its parent's last cycle is `last`, in exact integers. */
  ghost predicate InWindow(e: Entry, last: int) {
    && WfEntry(e) && e.pending < e.weight
    && last <= e.cycle <= last + MAX_DISTANCE
    && Base(Exact, e) + Carry(e) <= last + 255
  }

  lemma DivSmaller(x: nat, w: nat)
    requires w > 0
    ensures 0 <= x / w <= x && x / w + x % w <= x
  {
    AtLeastOnce(x / w, w);
    assert x == (x / w) * w + x % w;
  }

  lemma AtLeastOnce(q: nat, w: nat)
    requires w > 0
    ensures q * w >= q
  {
  }

  lemma NextInWindow(e: Entry, last: int)
    requires WfEntry(e)
    ensures InWindow(NextCycle(Exact, e, last), last)
  {
    Recovered(e, last);
    DivSmaller(e.pending, e.weight);
    DivSmaller(Penalty(e), e.weight);
  }

  lemma ReweighedInWindow(e: Entry, weight: nat, last: int)
    requires InWindow(e, last) && 1 <= weight <= MAX_WEIGHT
    ensures InWindow(Reweighed(Exact, e, weight, last), last)
  {
    var e' := e.(pending := Carry(e), weight := weight);
    var r := NextCycle(Exact, e', Base(Exact, e));
    Recovered(e', Base(Exact, e));
    DivSmaller(e'.pending, weight);
    DivSmaller(Penalty(e'), weight);
    if r.cycle <= last {
      var r' := r.(cycle := last);
      assert Carry(r') == Carry(r) < weight;
      DivSmaller(r.lastlen * MAX_WEIGHT + Carry(r), weight);
    }
  }

  /** The window moves with the cycle of the child served. */
  lemma WindowMoves(e: Entry, last: int, last': int)
    requires InWindow(e, last) && last <= last' <= e.cycle
    ensures InWindow(e, last')
  {
  }

  // ---------------------------------------------------------------------- wrapping around

  function Wrapped(e: Entry): Entry {
    e.(cycle := e.cycle % WRAP)
  }

  /** In the window the wrap-around order is the order of the exact cycles. */
  lemma LessWraps(x: Entry, y: Entry, last: int)
    requires InWindow(x, last) && InWindow(y, last)
    ensures Less(Word, Wrapped(x), Wrapped(y)) == Less(Exact, x, y)
  {
    NotAfterWraps(x.cycle, y.cycle);
  }

  lemma NotAfterWraps(x: int, y: int)
    requires x - MAX_DISTANCE <= y <= x + MAX_DISTANCE
    ensures NotAfter(Word, x % WRAP, y % WRAP) == NotAfter(Exact, x, y)
    ensures x % WRAP == y % WRAP <==> x == y
  {
    assert (y % WRAP - x % WRAP) % WRAP == (y - x) % WRAP;
  }

  lemma WrapAdd(x: int, k: int)
    ensures (x % WRAP + k) % WRAP == (x + k) % WRAP
  {
  }

  lemma NextWraps(e: Entry, last: int)
    requires WfEntry(e)
    ensures NextCycle(Word, Wrapped(e), last % WRAP) == Wrapped(NextCycle(Exact, e, last))
  {
    var k := Penalty(e) / e.weight;
    WrapAdd(last, k);
    assert Penalty(Wrapped(e)) == Penalty(e);
  }

  lemma ReweighedWraps(e: Entry, weight: nat, last: int)
    requires InWindow(e, last) && 1 <= weight <= MAX_WEIGHT
    ensures Reweighed(Word, Wrapped(e), weight, last % WRAP) == Wrapped(Reweighed(Exact, e, weight, last))
  {
    var e' := e.(pending := Carry(e), weight := weight);
    var base := Base(Exact, e);
    var r := NextCycle(Exact, e', base);
    var wl := e.lastlen * MAX_WEIGHT;
    assert Carry(Wrapped(e)) == Carry(e);
    WrapAdd(e.cycle, -((wl + Carry(e)) / e.weight));
    assert Base(Word, Wrapped(e)) == base % WRAP;
    NextWraps(e', base);
    assert NextCycle(Word, Wrapped(e).(pending := Carry(e), weight := weight), base % WRAP) == Wrapped(r);
    DivSmaller(wl + Carry(e), e.weight);
    DivSmaller(Penalty(e'), weight);
    NotAfterWraps(r.cycle, last);
  }
}
