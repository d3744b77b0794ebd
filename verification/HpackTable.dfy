/**
  * The HPACK dynamic table of lib/nghttp2_hd.c: its entries, newest first, the eviction rules of
  * section 4 of RFC 7541, and the ring buffer that stores the entries.
  */
module HpackTable {
  import opened Bytes

  /** A header field; `nghttp2_hd_nv` without token and flags. */
  datatype Field = Field(name: seq<byte>, value: seq<byte>)

  const ENTRY_OVERHEAD: nat := 32

  /** `entry_room`. */
  function EntryRoom(f: Field): nat {
    ENTRY_OVERHEAD + |f.name| + |f.value|
  }

  /** `hd_table_bufsize` as section 4.1 of RFC 7541 defines it. */
  function TableSize(t: seq<Field>): nat {
    if t == [] then 0 else TableSize(t[..|t| - 1]) + EntryRoom(t[|t| - 1])
  }

  /** Drops the oldest entries until what is left fits into `limit`. */
  function Evict(t: seq<Field>, limit: int): (r: seq<Field>)
    ensures r <= t
    ensures r != [] ==> TableSize(r) <= limit
  {
    if t == [] || TableSize(t) <= limit then t else Evict(t[..|t| - 1], limit)
  }

  /** `add_hd_table_incremental`: an entry larger than the whole table only empties it. */
  function AddEntry(t: seq<Field>, max: nat, f: Field): (r: seq<Field>)
    ensures TableSize(r) <= max
  {
    var kept := Evict(t, max - EntryRoom(f));
    if EntryRoom(f) > max then
      EvictAll(t, max - EntryRoom(f));
      []
    else
      TableSizePush(f, kept);
      [f] + kept
  }

  lemma {:induction false} TableSizePush(f: Field, t: seq<Field>)
    ensures TableSize([f] + t) == EntryRoom(f) + TableSize(t)
  {
    if t == [] {
      assert ([f] + t)[..0] == [];
      assert TableSize([]) == 0;
    } else {
      TableSizePush(f, t[..|t| - 1]);
      assert ([f] + t)[..|t|] == [f] + t[..|t| - 1];
    }
  }

  lemma {:induction false} EvictAll(t: seq<Field>, limit: int)
    requires limit < 0
    ensures Evict(t, limit) == []
  {
    if t != [] {
      EvictAll(t[..|t| - 1], limit);
    }
  }

  lemma {:induction false} TableSizePrefix(t: seq<Field>, n: nat)
    requires n <= |t|
    ensures TableSize(t[..n]) + ENTRY_OVERHEAD * (|t| - n) <= TableSize(t)
  {
    if n == |t| {
      assert t[..n] == t;
    } else {
      TableSizePrefix(t[..|t| - 1], n);
      assert t[..|t| - 1][..n] == t[..n];
    }
  }

  /** A table of `n` entries takes at least `32 * n` octets, so indexes stay small. */
  lemma TableLength(t: seq<Field>)
    ensures 32 * |t| <= TableSize(t)
  {
    TableSizePrefix(t, 0);
  }

  /** Eviction stops at the longest prefix that fits. */
  lemma {:induction false} EvictLongest(t: seq<Field>, limit: int, n: nat)
    requires n <= |t| && TableSize(t[..n]) <= limit
    ensures n <= |Evict(t, limit)|
  {
    if t != [] && TableSize(t) > limit {
      assert n < |t| by {
        assert t[..|t|] == t;
      }
      assert t[..|t| - 1][..n] == t[..n];
      EvictLongest(t[..|t| - 1], limit, n);
    }
  }

  /** Evicting to `a` and then to `b` is evicting to the smaller of the two. */
  lemma {:induction false} EvictTwice(t: seq<Field>, a: int, b: int)
    ensures Evict(Evict(t, a), b) == Evict(t, if a < b then a else b)
  {
    if t == [] || TableSize(t) <= a {
      assert Evict(t, a) == t;
      if a < b && t != [] {
        assert TableSize(t) <= b;
      }
    } else {
      EvictTwice(t[..|t| - 1], a, b);
    }
  }

  lemma AddEntryFits(t: seq<Field>, max: nat, f: Field, kept: seq<Field>)
    requires EntryRoom(f) <= max && kept == Evict(t, max - EntryRoom(f))
    ensures AddEntry(t, max, f) == [f] + kept
  {
  }

  /** Adding an entry is putting it in front of the table and evicting what is then too much. */
  lemma {:induction false} AddEntryEvicts(t: seq<Field>, max: nat, f: Field)
    ensures AddEntry(t, max, f) == Evict([f] + t, max)
  {
    TableSizePush(f, t);
    if t == [] {
      assert [f] + t == [f] && [f][..0] == [];
    } else if EntryRoom(f) + TableSize(t) > max {
      assert ([f] + t)[..|t|] == [f] + t[..|t| - 1];
      AddEntryEvicts(t[..|t| - 1], max, f);
    }
  }

  /** So the table after an addition is the longest run of newest entries that fits, the new one first. */
  lemma AddEntryLongest(t: seq<Field>, max: nat, f: Field, n: nat)
    requires n <= |t| + 1 && TableSize(([f] + t)[..n]) <= max
    ensures AddEntry(t, max, f) <= [f] + t && n <= |AddEntry(t, max, f)|
  {
    AddEntryEvicts(t, max, f);
    EvictLongest([f] + t, max, n);
  }

  lemma EvictNothing(t: seq<Field>, limit: int)
    requires TableSize(t) <= limit
    ensures Evict(t, limit) == t
  {
  }

  // ------------------------------------------------------------------ ring buffer

  const SIZE_T: nat := 0x1_0000_0000_0000_0000

  /** A power of two that fits a `size_t`. */
  ghost predicate SizePow2(n: nat) {
    exists k: nat :: k < 64 && n == Pow2(k)
  }

  /** A power of two that fits a `size_t` divides `2^64`. */
  lemma DividesSizeT(n: nat) returns (m: nat)
    requires SizePow2(n)
    ensures n >= 1 && m >= 1 && n * m == SIZE_T
  {
    var k: nat :| k < 64 && n == Pow2(k);
    Pow2Add(k, 64 - k);
    Pow2Values();
    Pow2Add(8, 8);
    Pow2Add(16, 16);
    Pow2Add(32, 32);
    m := Pow2(64 - k);
  }

  lemma ModAdd(x: nat, k: nat, n: nat)
    requires n >= 1
    ensures (x + k * n) % n == x % n
  {
    var q, r := x / n, x % n;
    assert x == q * n + r;
    assert x + k * n == (q + k) * n + r;
    DivUnique(x + k * n, n, q + k, r);
  }

  /** Reducing modulo `2^64` first does not matter. */
  lemma WrapMod(x: nat, n: nat)
    requires SizePow2(n) && n >= 1
    ensures x % SIZE_T % n == x % n
  {
    var m := DividesSizeT(n);
    var q, r := x / SIZE_T, x % SIZE_T;
    assert x == q * SIZE_T + r == r + (q * m) * n by {
      assert q * (n * m) == (q * m) * n;
    }
    ModAdd(r, q * m, n);
  }

  /** Fewer than `n` consecutive positions fall on different slots. */
  lemma SlotsDiffer(x: nat, i: nat, j: nat, n: nat)
    requires n >= 1 && i < j < i + n
    ensures (x + i) % n != (x + j) % n
  {
    var a, b := x + i, x + j;
    assert a == a / n * n + a % n && b == b / n * n + b % n;
    if a % n == b % n {
      assert (b / n - a / n) * n == b - a;
      SmallMultiple(b / n - a / n, n);
    }
  }

  /** Where entry `i` is stored: `(first + i) & (n - 1)`, in `size_t` arithmetic. */
  function SlotOf(first: nat, i: nat, n: nat): (s: nat)
    requires n >= 1
    ensures s < n
  {
    BitAnd((first + i) % SIZE_T, n - 1)
  }

  /** That is a remainder. */
  lemma SlotMod(first: nat, i: nat, n: nat)
    requires SizePow2(n) && n >= 1
    ensures SlotOf(first, i, n) == Rem(first + i, n)
  {
    assert IsPow2(n);
    BitAndMask((first + i) % SIZE_T, n);
    WrapMod(first + i, n);
  }

  /** `nghttp2_hd_ringbuf`: `first` is a `size_t` that runs backwards and may wrap around. */
  class RingBuffer<T(0)> {
    var buffer: array<T>
    var mask: nat
    var first: nat
    var len: nat

    ghost predicate Valid()
      reads this
    {
      buffer.Length == mask + 1 && SizePow2(mask + 1) && first < SIZE_T && len <= mask + 1
    }

    function Slot(i: nat): (s: nat)
      requires Valid()
      reads this
      ensures s < buffer.Length
    {
      SlotOf(first, i, mask + 1)
    }

    /** The entries, front first. */
    ghost function Contents(): (s: seq<T>)
      requires Valid()
      reads this, buffer
      ensures |s| == len
    {
      seq(len, i requires 0 <= i < len reads this, buffer requires Valid() => buffer[Slot(i)])
    }

    /** `hd_ringbuf_init`. */
    constructor (bufsize: nat)
      requires bufsize <= 0x4000_0000_0000_0000
      ensures Valid() && fresh(buffer) && len == 0 && mask + 1 >= bufsize
    {
      var size := RoundUp(bufsize);
      buffer := new T[size];
      mask := size - 1;
      first := 0;
      len := 0;
    }

    /** `hd_ringbuf_get`. */
    method Get(idx: nat) returns (e: T)
      requires Valid() && idx < len
      ensures e == Contents()[idx]
    {
      e := buffer[Slot(idx)];
    }

    /** The copying loop of `hd_ringbuf_reserve`. */
    method CopyTo(larger: array<T>)
      requires Valid() && len <= larger.Length && larger != buffer
      modifies larger
      ensures larger[..len] == Contents()
    {
      var i := 0;
      while i < len
        invariant 0 <= i <= len
        invariant forall j :: 0 <= j < i ==> larger[j] == Contents()[j]
      {
        larger[i] := Get(i);
        i := i + 1;
      }
    }

    /** `hd_ringbuf_reserve`: moves the entries into a larger buffer. */
    method Reserve(bufsize: nat)
      requires Valid() && bufsize <= 0x4000_0000_0000_0000
      modifies this
      ensures Valid() && (buffer == old(buffer) || fresh(buffer))
      ensures Contents() == old(Contents()) && len == old(len) && mask + 1 >= bufsize
    {
      if mask + 1 >= bufsize {
        return;
      }
      var size := RoundUp(bufsize);
      var larger := new T[size];
      CopyTo(larger);
      SmallSlots(len, size);
      Install(larger);
    }

    /** The entries are in the front of a larger buffer, which replaces the old one. */
    method Install(larger: array<T>)
      requires len <= larger.Length && larger.Length >= 1 && SizePow2(larger.Length)
      requires forall j {:trigger SlotOf(0, j, larger.Length)} :: 0 <= j < len ==> SlotOf(0, j, larger.Length) == j
      modifies this`buffer, this`mask, this`first
      ensures Valid() && buffer == larger && Contents() == larger[..len] && mask + 1 == larger.Length
    {
      buffer, mask, first := larger, larger.Length - 1, 0;
    }

    /** The end of `hd_ringbuf_push_front`, once there is room. */
    method StoreFront(e: T)
      requires Valid() && len <= mask
      modifies this, buffer
      ensures Valid() && buffer == old(buffer)
      ensures Contents() == [e] + old(Contents())
    {
      ghost var all := Contents();
      first := (first + SIZE_T - 1) % SIZE_T;
      len := len + 1;
      PushSlots(old(first), first, len, mask + 1);
      buffer[Slot(0)] := e;
      assert forall j :: 1 <= j < len ==> Contents()[j] == all[j - 1];
    }

    /** `hd_ringbuf_push_front`: the entries become `[e]` followed by what they were. */
    method PushFront(e: T)
      requires Valid() && len < 0x4000_0000_0000_0000
      modifies this, buffer
      ensures Valid() && (buffer == old(buffer) || fresh(buffer))
      ensures Contents() == [e] + old(Contents())
    {
      Reserve(len + 1);
      StoreFront(e);
    }

    /** `hd_ringbuf_pop_back`: the last entry goes. */
    method PopBack()
      requires Valid() && len > 0
      modifies this`len
      ensures Valid() && buffer == old(buffer) && Contents() == old(Contents())[..old(len) - 1]
    {
      len := len - 1;
    }
  }

  lemma PushSlot(first': nat, first: nat, j: nat, n: nat)
    requires SizePow2(n) && n >= 1 && first' < SIZE_T && first == (first' + SIZE_T - 1) % SIZE_T
    ensures SlotOf(first, j, n) == Rem(first' + n - 1 + j, n)
  {
    SlotMod(first, j, n);
    var m := DividesSizeT(n);
    if first' == 0 {
      assert first == SIZE_T - 1;
      assert first + j == (n - 1 + j) + (m - 1) * n by {
        assert (m - 1) * n == m * n - n;
      }
      ModAdd(n - 1 + j, m - 1, n);
    } else {
      assert first == first' - 1;
      ModAdd(first' - 1 + j, 1, n);
    }
  }

  lemma PushOthers(first': nat, j: nat, n: nat)
    requires SizePow2(n) && n >= 1 && 1 <= j < n
    ensures Rem(first' + n - 1 + j, n) != Rem(first' + n - 1 + 0, n)
    ensures Rem(first' + n - 1 + j, n) == SlotOf(first', j - 1, n)
  {
    SlotsDiffer(first' + n - 1, 0, j, n);
    SlotMod(first', j - 1, n);
    ModAdd(first' + (j - 1), 1, n);
    assert first' + (j - 1) + 1 * n == first' + n - 1 + j;
  }

  /** After a push, old entry `j - 1` is where it was and the new entry is somewhere else. */
  lemma PushSlots(first': nat, first: nat, len: nat, n: nat)
    requires SizePow2(n) && n >= 1 && first' < SIZE_T && first == (first' + SIZE_T - 1) % SIZE_T && len <= n
    ensures forall j {:trigger SlotOf(first, j, n)} :: 1 <= j < len ==>
              SlotOf(first, j, n) == SlotOf(first', j - 1, n) && SlotOf(first, j, n) != SlotOf(first, 0, n)
  {
    forall j {:trigger SlotOf(first, j, n)} | 1 <= j < len
      ensures SlotOf(first, j, n) == SlotOf(first', j - 1, n) && SlotOf(first, j, n) != SlotOf(first, 0, n)
    {
      PushedSlot(first', first, j, n);
    }
  }

  lemma PushedSlot(first': nat, first: nat, j: nat, n: nat)
    requires SizePow2(n) && n >= 1 && first' < SIZE_T && first == (first' + SIZE_T - 1) % SIZE_T && 1 <= j < n
    ensures SlotOf(first, j, n) == SlotOf(first', j - 1, n) && SlotOf(first, j, n) != SlotOf(first, 0, n)
  {
    PushSlot(first', first, 0, n);
    PushSlot(first', first, j, n);
    PushOthers(first', j, n);
  }

  lemma SmallSlot(j: nat, n: nat)
    requires j < n && SizePow2(n)
    ensures SlotOf(0, j, n) == j
  {
    SlotMod(0, j, n);
    DivUnique(j, n, 0, j);
  }

  lemma SmallSlots(len: nat, n: nat)
    requires len <= n && n >= 1 && SizePow2(n)
    ensures forall j {:trigger SlotOf(0, j, n)} :: 0 <= j < len ==> SlotOf(0, j, n) == j
  {
    forall j {:trigger SlotOf(0, j, n)} | 0 <= j < len
      ensures SlotOf(0, j, n) == j
    {
      SmallSlot(j, n);
    }
  }

  /** The smallest power of two that is at least `bufsize`. */
  method RoundUp(bufsize: nat) returns (size: nat)
    requires bufsize <= 0x4000_0000_0000_0000
    ensures SizePow2(size) && bufsize <= size
    ensures size == 1 || size < 2 * bufsize
  {
    size := 1;
    ghost var k: nat := 0;
    assert Pow2(0) == 1;
    while size < bufsize
      invariant size == Pow2(k) && k < 64 && (size == 1 || size < 2 * bufsize)
      decreases bufsize - size
    {
      if k == 63 {
        Pow2At63();
      }
      size, k := size * 2, k + 1;
    }
  }

  lemma Pow2At63()
    ensures Pow2(63) == 0x8000_0000_0000_0000
  {
    Pow2Values();
    Pow2Add(8, 8);
    Pow2Add(16, 16);
    Pow2Add(32, 32);
  }
}
