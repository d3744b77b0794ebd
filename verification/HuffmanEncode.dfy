/**
  * The Huffman encoder of lib/nghttp2_hd_huffman.c writing into chained buffers.  It ORs codes
  * into the octet held at the write position and has a fast path and a slow path, depending on
  * the space left in the current chunk; both produce the encoding of module Huffman.
  */
module HuffmanEncoder {
  import opened Bytes
  import opened Huffman
  import opened Buffers

  // ------------------------------------------------------------ partial octets

  /** `x << e`. */
  function Shl(x: nat, e: nat): nat {
    if e == 0 then x else 2 * Shl(x, e - 1)
  }

  /** `x >> e`. */
  function Shr(x: nat, e: nat): nat {
    if e == 0 then x else Shr(x / 2, e - 1)
  }

  lemma {:induction false} ShlMul(x: nat, e: nat)
    ensures Shl(x, e) == x * Pow2(e)
  {
    if e > 0 {
      ShlMul(x, e - 1);
    }
  }

  lemma {:induction false} ShrDiv(x: nat, e: nat)
    ensures Shr(x, e) == x / Pow2(e)
    decreases e
  {
    if e > 0 {
      ShrDiv(x / 2, e - 1);
      DivDiv2(x, Pow2(e - 1));
    }
  }

  /** The low `r` bits of the held octet are still free. */
  ghost predicate Partial(held: byte, r: nat) {
    1 <= r <= 8 && BitsOf(held, 8)[8 - r..] == BitsOf(0, r)
  }

  /** The bits already in the held octet. */
  ghost function HeldBits(held: byte, r: nat): (b: Bits)
    requires 1 <= r <= 8
    ensures |b| == 8 - r
  {
    BitsOf(held, 8)[..8 - r]
  }

  lemma Pow2Split(r: nat, n: nat)
    requires n <= r
    ensures Pow2(r) == Pow2(n) * Pow2(r - n)
  {
    Pow2Add(n, r - n);
  }

  lemma MulLess(x: nat, a: nat, b: nat)
    requires x < a && b >= 1
    ensures x * b + b <= a * b
  {
    MulMonotone(b, x + 1, a);
  }

  lemma DivLess(x: nat, a: nat, b: nat)
    requires b >= 1 && x < a * b
    ensures 0 <= x / b < a
  {
    var q := x / b;
    assert x == q * b + x % b;
    assert (a - q) * b > 0;
  }

  /** `y`, made of `n` bits above `e` zero bits, fits below the multiple `q` of `2^(n + e)`. */
  lemma FillArithmetic(q: nat, x: nat, n: nat, e: nat)
    requires x < Pow2(n)
    ensures var y := q * Pow2(n + e) + x * Pow2(e);
            && x * Pow2(e) < Pow2(n + e)
            && y / Pow2(e) == q * Pow2(n) + x && y % Pow2(e) == 0
            && (q * Pow2(n) + x) / Pow2(n) == q && (q * Pow2(n) + x) % Pow2(n) == x
  {
    var d, p := Pow2(e), Pow2(n);
    Pow2Add(n, e);
    MulLess(x, p, d);
    FactorOut(q, x, p, d);
    DivUnique((q * p + x) * d, d, q * p + x, 0);
    DivUnique(q * p + x, p, q, x);
  }

  lemma FactorOut(q: nat, x: nat, p: nat, d: nat)
    ensures q * (p * d) + x * d == (q * p + x) * d
  {
    assert q * (p * d) == (q * p) * d;
  }

  lemma FillBound(held: byte, r: nat, y: nat)
    requires r <= 8 && held % Pow2(r) == 0 && y < Pow2(r)
    ensures held + y < 256
  {
    Pow2Values();
    Pow2Split(8, r);
    DivLess(held, Pow2(8 - r), Pow2(r));
    MulLess(held / Pow2(r), Pow2(8 - r), Pow2(r));
  }

  lemma HeldQuotient(held: byte, r: nat) returns (q: nat)
    requires Partial(held, r)
    ensures held == q * Pow2(r) && held / Pow2(r) == q && held % Pow2(r) == 0
  {
    var d := Pow2(r);
    HeldLow(held, r);
    Decomposed(held, d);
    q := held / d;
  }

  lemma HeldLow(held: byte, r: nat)
    requires Partial(held, r)
    ensures held % Pow2(r) == 0
  {
    BitsSplit(held, 8 - r, r);
    BitsInjective(held % Pow2(r), 0, r);
  }

  lemma LowZeros(z: byte, e: nat)
    requires e <= 8 && z % Pow2(e) == 0
    ensures BitsOf(z, 8)[8 - e..] == BitsOf(0, e)
  {
    BitsSplit(z, 8 - e, e);
  }

  lemma FillNumber(held: byte, n: nat, e: nat, x: nat) returns (y: byte)
    requires 1 <= n + e && Partial(held, n + e) && x < Pow2(n)
    ensures y == Shl(x, e) && held + y < 256 && BitOr(held, y) == held + y
    ensures (held + y) % Pow2(e) == 0
    ensures BitsOf(held + y, 8)[..8 - e] == HeldBits(held, n + e) + BitsOf(x, n)
  {
    var q := HeldQuotient(held, n + e);
    ShlMul(x, e);
    FillArithmetic(q, x, n, e);
    FillBound(held, n + e, x * Pow2(e));
    y := x * Pow2(e);
    BitOrDisjoint(held, y, n + e);
    FillBits(held, held + y, q, n, e, x);
  }

  /** ORing the `n` bits of `x` in below the bits already held leaves `e` bits free. */
  lemma FillParts(held: byte, n: nat, e: nat, x: nat) returns (z: byte)
    requires 1 <= n + e && Partial(held, n + e) && x < Pow2(n)
    ensures Shl(x, e) < 256 && OrByte(held, Shl(x, e)) == z
    ensures BitsOf(z, 8)[..8 - e] == HeldBits(held, n + e) + BitsOf(x, n)
    ensures BitsOf(z, 8)[8 - e..] == BitsOf(0, e)
  {
    var y := FillNumber(held, n, e, x);
    z := held + y;
    LowZeros(z, e);
  }

  /** Some bits stay free. */
  lemma FillSome(held: byte, n: nat, e: nat, x: nat)
    requires e >= 1 && Partial(held, n + e) && x < Pow2(n)
    ensures Shl(x, e) < 256 && Partial(OrByte(held, Shl(x, e)), e)
    ensures HeldBits(OrByte(held, Shl(x, e)), e) == HeldBits(held, n + e) + BitsOf(x, n)
  {
    var z := FillParts(held, n, e, x);
  }

  /** No bit stays free. */
  lemma FillUp(held: byte, n: nat, x: nat)
    requires Partial(held, n) && x < Pow2(n)
    ensures x < 256 && BitsOf(OrByte(held, x), 8) == HeldBits(held, n) + BitsOf(x, n)
  {
    var z := FillParts(held, n, 0, x);
    assert BitsOf(z, 8)[..8] == BitsOf(z, 8);
  }

  lemma FillBits(held: byte, y: byte, q: nat, n: nat, e: nat, x: nat)
    requires n + e <= 8
    requires held / Pow2(n + e) == q
    requires y / Pow2(e) == q * Pow2(n) + x
    requires (q * Pow2(n) + x) / Pow2(n) == q && (q * Pow2(n) + x) % Pow2(n) == x
    ensures BitsOf(y, 8)[..8 - e] == BitsOf(held, 8)[..8 - (n + e)] + BitsOf(x, n)
  {
    var z := q * Pow2(n) + x;
    BitsSplit(y, 8 - e, e);
    BitsSplit(z, 8 - e - n, n);
    BitsSplit(held, 8 - (n + e), n + e);
  }

  // ---------------------------------------------------------------- whole octets

  /** The low `k` octets of `c`, most significant first. */
  ghost function TailBytes(c: nat, k: nat): (r: seq<byte>)
    ensures |r| == k
  {
    if k == 0 then [] else TailBytes(c / 256, k - 1) + [c % 256]
  }

  lemma TailBytesStep(c: nat, k: nat)
    ensures TailBytes(c, k + 1) == TailBytes(c / 256, k) + [c % 256]
    ensures TailBytes(c, 1) == [c % 256]
  {
    assert TailBytes(c, 1) == TailBytes(c / 256, 0) + [c % 256];
  }

  lemma TailBytes2(c: nat)
    ensures TailBytes(c, 2) == [c / 256 % 256, c % 256]
  {
    TailBytesStep(c, 1);
    TailBytesStep(c / 256, 0);
  }

  lemma TailBytes3(c: nat)
    ensures TailBytes(c, 3) == [c / 65536 % 256, c / 256 % 256, c % 256]
  {
    TailBytesStep(c, 2);
    TailBytes2(c / 256);
    assert c / 256 / 256 == c / 65536;
  }

  lemma TailBytes4(c: nat)
    ensures TailBytes(c, 4) == [c / 16777216 % 256, c / 65536 % 256, c / 256 % 256, c % 256]
  {
    TailBytesStep(c, 3);
    TailBytes3(c / 256);
    assert c / 256 / 65536 == c / 16777216 && c / 256 / 256 == c / 65536;
  }

  lemma {:induction false} TailBits(c: nat, k: nat)
    ensures BytesBits(TailBytes(c, k)) == BitsOf(c, 8 * k)
  {
    if k > 0 {
      TailBits(c / 256, k - 1);
      BytesBitsConcat(TailBytes(c / 256, k - 1), [c % 256]);
      assert BytesBits([c % 256]) == BitsOf(c % 256, 8) + BytesBits([]) == BitsOf(c % 256, 8);
      Pow2Values();
      BitsSplit(c, 8 * (k - 1), 8);
    }
  }

  lemma BitsSuffix(x: nat, n: nat, m: nat)
    ensures BitsOf(x, n + m)[n..] == BitsOf(x, m)
  {
    BitsSplit(x, n, m);
    BitsLow(x, m);
  }

  lemma Pow2Of32()
    ensures Pow2(32) == 0x1_0000_0000
  {
    Pow2Values();
    Pow2Add(8, 8);
    Pow2Add(16, 16);
  }

  /** A 32-bit shift loses nothing that is written afterwards. */
  lemma WrapBits(x: nat, m: nat)
    requires m <= 32
    ensures BitsOf(x % 0x1_0000_0000, m) == BitsOf(x, m)
  {
    Pow2Of32();
    BitsLow(x, 32);
    BitsSuffix(x, 32 - m, m);
    BitsSuffix(x % 0x1_0000_0000, 32 - m, m);
  }

  lemma ShiftedBits(code: nat, m: nat, pad: nat)
    ensures BitsOf(Shl(code, pad), m + pad) == BitsOf(code, m) + BitsOf(0, pad)
  {
    ShlMul(code, pad);
    var p := Pow2(pad);
    DivUnique(code * p, p, code, 0);
    BitsSplit(code * p, m, pad);
  }

  /** The octets written for the low `m` bits of a code, the last one perhaps only held. */
  ghost predicate Tail(code: nat, m: nat, aligned: nat) {
    1 <= m <= 32 && aligned == Shl(code, PadLen(m)) % 0x1_0000_0000
  }

  lemma TailBitsOf(code: nat, m: nat, aligned: nat)
    requires Tail(code, m, aligned)
    ensures var k := (m + 7) / 8;
            m + PadLen(m) == 8 * k &&
            BytesBits(TailBytes(aligned, k)) == BitsOf(code, m) + BitsOf(0, PadLen(m))
  {
    var pad := PadLen(m);
    var k := (m + 7) / 8;
    PadOctets(m);
    TailBits(aligned, k);
    WrapBits(Shl(code, pad), m + pad);
    ShiftedBits(code, m, pad);
  }

  lemma PadOctets(m: nat)
    ensures m + PadLen(m) == 8 * ((m + 7) / 8)
  {
  }

  /** What the octets of a tail mean: its bits, followed by the free bits of the last octet. */
  lemma TailMeaning(code: nat, m: nat, aligned: nat)
    requires Tail(code, m, aligned)
    ensures var k := (m + 7) / 8;
            var out := TailBytes(aligned, k);
            && (PadLen(m) == 0 ==> BytesBits(out) == BitsOf(code, m))
            && (PadLen(m) > 0 ==> Partial(out[k - 1], PadLen(m)) &&
                                  BytesBits(out[..k - 1]) + HeldBits(out[k - 1], PadLen(m)) == BitsOf(code, m))
  {
    TailBitsOf(code, m, aligned);
    var pad := PadLen(m);
    if pad > 0 {
      var k := (m + 7) / 8;
      var out := TailBytes(aligned, k);
      var last := out[k - 1];
      assert last == aligned % 256;
      assert out == out[..k - 1] + [last];
      BytesBitsConcat(out[..k - 1], [last]);
      assert BytesBits([last]) == BitsOf(last, 8) + BytesBits([]);
      var all := BytesBits(out);
      assert all[m - (8 - pad)..] == BitsOf(last, 8);
      assert all[..m] == BytesBits(out[..k - 1]) + HeldBits(last, pad);
      assert BitsOf(last, 8)[8 - pad..] == all[m..];
    }
  }

  /** The whole octets of a tail, and the bits of the last one if it is only held. */
  lemma TailSplit(code: nat, m: nat, aligned: nat)
    requires Tail(code, m, aligned)
    ensures var bytes := TailBytes(aligned, (m + 7) / 8);
            && (m % 8 == 0 ==> bytes[..m / 8] == bytes && BytesBits(bytes) + [] == BitsOf(code, m))
            && (m % 8 != 0 ==> Partial(aligned % 256, 8 - m % 8) &&
                               BytesBits(bytes[..m / 8]) + HeldBits(aligned % 256, 8 - m % 8) == BitsOf(code, m))
  {
    TailMeaning(code, m, aligned);
    var bytes := TailBytes(aligned, (m + 7) / 8);
    if m % 8 == 0 {
      assert bytes[..m / 8] == bytes;
    } else {
      assert bytes[(m + 7) / 8 - 1] == aligned % 256 && (m + 7) / 8 - 1 == m / 8 && PadLen(m) == 8 - m % 8;
    }
  }

  // ------------------------------------------------------------------ the encoder

  /** Which octet of a tail each shift picks. */
  lemma TailOctets(c: nat, k: nat)
    requires 1 <= k <= 4
    ensures var out := TailBytes(c, k);
            && out[k - 1] == c % 256
            && (k >= 2 ==> out[k - 2] == c / 256 % 256)
            && (k >= 3 ==> out[k - 3] == c / 65536 % 256)
            && (k >= 4 ==> out[k - 4] == c / 16777216 % 256)
  {
    TailBytesStep(c, 0);
    TailBytes2(c);
    TailBytes3(c);
    TailBytes4(c);
  }

  /** The octets of a tail of `m` bits. */
  ghost predicate Octets(out: seq<byte>, m: nat, b3: byte, b2: byte, b1: byte, b0: byte) {
    && 1 <= |out| <= 4 && 8 * |out| - 8 < m <= 8 * |out| && out[|out| - 1] == b0
    && (|out| >= 2 ==> out[|out| - 2] == b1)
    && (|out| >= 3 ==> out[|out| - 3] == b2)
    && (|out| >= 4 ==> out[|out| - 4] == b3)
  }

  lemma ShiftedOctets(c: nat, m: nat)
    requires 1 <= m <= 32
    ensures Octets(TailBytes(c, (m + 7) / 8), m, c / 16777216 % 256, c / 65536 % 256, c / 256 % 256, c % 256)
  {
    TailOctets(c, (m + 7) / 8);
  }

  /** How many octets of a tail are written for good. */
  ghost function Whole(out: seq<byte>, m: nat): nat
    requires out != []
  {
    if m == 8 * |out| then |out| else |out| - 1
  }

  /** `i` octets of `out` have been written after the content `c0`. */
  ghost predicate Written(bufs: Bufs, start: seq<Chunk>, c0: seq<byte>, room0: nat, out: seq<byte>, i: nat)
    reads bufs
  {
    && bufs.Valid() && i <= |out|
    && bufs.Content() == c0 + out[..i]
    && bufs.Room() == room0 - i
    && (forall j :: 0 <= j < |start| ==> WfChunk(start[j]))
    && Grown(start, bufs.chunks, bufs.chunkLength, bufs.offset)
  }

  /** `AddB` of the next octet of `out`. */
  method SlowOctet(bufs: Bufs, b: byte, ghost start: seq<Chunk>, ghost c0: seq<byte>, ghost room0: nat,
                   ghost out: seq<byte>, ghost i: nat)
    returns (ok: bool)
    requires Written(bufs, start, c0, room0, out, i) && i < |out| && out[i] == b
    modifies bufs
    ensures bufs.Valid() && ok == (room0 > i)
    ensures ok ==> Written(bufs, start, c0, room0, out, i + 1)
    ensures Grown(start, bufs.chunks, bufs.chunkLength, bufs.offset)
  {
    ok := bufs.AddB(b);
    GrownTransitive(start, old(bufs.chunks), bufs.chunks, bufs.chunkLength, bufs.offset);
    assert out[..i + 1] == out[..i] + [b];
    ConcatAssoc(c0, out[..i], [b]);
  }

  /** `AddB` of the next octet if more than `limit` bits are left. */
  method SlowStep(bufs: Bufs, nbits0: nat, limit: nat, b: byte, ghost start: seq<Chunk>, ghost c0: seq<byte>,
                  ghost room0: nat, ghost out: seq<byte>, ghost i0: nat)
    returns (ok: bool, nbits: nat, ghost i: nat)
    requires Written(bufs, start, c0, room0, out, i0) && limit >= 8
    requires nbits0 > limit ==> i0 < |out| && out[i0] == b
    modifies bufs
    ensures bufs.Valid() && ok == (nbits0 > limit ==> room0 > i0)
    ensures ok ==> i == i0 + (if nbits0 > limit then 1 else 0) && nbits + 8 * i == nbits0 + 8 * i0
    ensures ok ==> Written(bufs, start, c0, room0, out, i)
    ensures Grown(start, bufs.chunks, bufs.chunkLength, bufs.offset)
  {
    ok, nbits, i := true, nbits0, i0;
    if nbits > limit {
      ok := SlowOctet(bufs, b, start, c0, room0, out, i);
      nbits, i := nbits - 8, i + 1;
    }
  }

  /** The slow path up to the last but one octet. */
  method SlowUpper(bufs: Bufs, m: nat, b3: byte, b2: byte, ghost b1: byte, ghost b0: byte, ghost start: seq<Chunk>,
                   ghost c0: seq<byte>, ghost room0: nat, ghost out: seq<byte>)
    returns (ok: bool, nbits: nat, ghost i: nat)
    requires Octets(out, m, b3, b2, b1, b0) && Written(bufs, start, c0, room0, out, 0)
    modifies bufs
    ensures bufs.Valid() && ok == (|out| < 3 || room0 >= |out| - 2)
    ensures ok ==> i == (if |out| < 3 then 0 else |out| - 2) && nbits + 8 * i == m
    ensures ok ==> Written(bufs, start, c0, room0, out, i)
    ensures Grown(start, bufs.chunks, bufs.chunkLength, bufs.offset)
  {
    ok, nbits, i := SlowStep(bufs, m, 24, b3, start, c0, room0, out, 0);
    if ok {
      ok, nbits, i := SlowStep(bufs, nbits, 16, b2, start, c0, room0, out, i);
    }
  }

  /** The slow path up to the last octet: every octet may start a new chunk. */
  method SlowHead(bufs: Bufs, m: nat, b3: byte, b2: byte, b1: byte, ghost b0: byte, ghost out: seq<byte>)
    returns (ok: bool, nbits: nat)
    requires bufs.Valid() && Octets(out, m, b3, b2, b1, b0)
    modifies bufs
    ensures bufs.Valid() && ok == (old(bufs.Room()) >= |out| - 1)
    ensures ok ==> nbits == m - 8 * (|out| - 1)
    ensures ok ==> Written(bufs, old(bufs.chunks), old(bufs.Content()), old(bufs.Room()), out, |out| - 1)
    ensures Grown(old(bufs.chunks), bufs.chunks, bufs.chunkLength, bufs.offset)
  {
    ghost var start, c0, room0, i := bufs.chunks, bufs.Content(), bufs.Room(), 0;
    ok, nbits, i := SlowUpper(bufs, m, b3, b2, b1, b0, start, c0, room0, out);
    if !ok {
      return;
    }
    ok, nbits, i := SlowStep(bufs, nbits, 8, b1, start, c0, room0, out, i);
  }

  /** The slow path. */
  method SlowTail(bufs: Bufs, m: nat, b3: byte, b2: byte, b1: byte, b0: byte, ghost out: seq<byte>) returns (ok: bool)
    requires bufs.Valid() && Octets(out, m, b3, b2, b1, b0)
    modifies bufs
    ensures bufs.Valid() && ok == (old(bufs.Room()) >= |out|)
    ensures ok ==> Written(bufs, old(bufs.chunks), old(bufs.Content()), old(bufs.Room()), out, Whole(out, m))
    ensures ok && Whole(out, m) < |out| ==> bufs.Avail() > 0 && bufs.Held() == b0
    ensures Grown(old(bufs.chunks), bufs.chunks, bufs.chunkLength, bufs.offset)
  {
    ghost var start, c0, room0 := bufs.chunks, bufs.Content(), bufs.Room();
    var nbits;
    ok, nbits := SlowHead(bufs, m, b3, b2, b1, b0, out);
    if !ok {
      return;
    }
    if nbits == 8 {
      ok := SlowOctet(bufs, b0, start, c0, room0, out, |out| - 1);
      return;
    }
    ghost var mid := bufs.chunks;
    ok := bufs.AddBHold(b0);
    GrownTransitive(start, mid, bufs.chunks, bufs.chunkLength, bufs.offset);
  }

  /** `FastAddB` of the next octet of `out`. */
  method FastOctet(bufs: Bufs, b: byte, ghost start: seq<Chunk>, ghost c0: seq<byte>, ghost room0: nat,
                   ghost out: seq<byte>, ghost i: nat)
    requires Written(bufs, start, c0, room0, out, i) && i < |out| && out[i] == b && bufs.Avail() > 0
    modifies bufs
    ensures Written(bufs, start, c0, room0, out, i + 1)
    ensures bufs.Avail() == old(bufs.Avail()) - 1
  {
    bufs.FastAddB(b);
    GrownTransitive(start, old(bufs.chunks), bufs.chunks, bufs.chunkLength, bufs.offset);
    assert out[..i + 1] == out[..i] + [b];
    ConcatAssoc(c0, out[..i], [b]);
  }

  /** The fast path up to the last octet: the current chunk has room for the whole tail. */
  method FastHead(bufs: Bufs, m: nat, b3: byte, b2: byte, b1: byte, ghost b0: byte, ghost out: seq<byte>)
    returns (nbits: nat)
    requires bufs.Valid() && Octets(out, m, b3, b2, b1, b0) && bufs.Avail() >= |out|
    modifies bufs
    ensures nbits == m - 8 * (|out| - 1)
    ensures Written(bufs, old(bufs.chunks), old(bufs.Content()), old(bufs.Room()), out, |out| - 1)
    ensures bufs.Avail() > 0
  {
    ghost var start, c0, room0, i := bufs.chunks, bufs.Content(), bufs.Room(), 0;
    nbits := m;
    if nbits > 24 {
      FastOctet(bufs, b3, start, c0, room0, out, i);
      nbits, i := nbits - 8, i + 1;
    }
    if nbits > 16 {
      FastOctet(bufs, b2, start, c0, room0, out, i);
      nbits, i := nbits - 8, i + 1;
    }
    if nbits > 8 {
      FastOctet(bufs, b1, start, c0, room0, out, i);
      nbits, i := nbits - 8, i + 1;
    }
    assert i == |out| - 1;
  }

  /** The fast path. */
  method FastTail(bufs: Bufs, m: nat, b3: byte, b2: byte, b1: byte, b0: byte, ghost out: seq<byte>)
    requires bufs.Valid() && Octets(out, m, b3, b2, b1, b0) && bufs.Avail() >= |out|
    modifies bufs
    ensures Written(bufs, old(bufs.chunks), old(bufs.Content()), old(bufs.Room()), out, Whole(out, m))
    ensures Whole(out, m) < |out| ==> bufs.Avail() > 0 && bufs.Held() == b0
  {
    ghost var start, c0, room0 := bufs.chunks, bufs.Content(), bufs.Room();
    if m < 8 {
      bufs.FastAddBHold(b0);
      return;
    }
    var nbits := FastHead(bufs, m, b3, b2, b1, b0, out);
    if nbits == 8 {
      FastOctet(bufs, b0, start, c0, room0, out, |out| - 1);
      return;
    }
    ghost var mid := bufs.chunks;
    bufs.FastAddBHold(b0);
    GrownTransitive(start, mid, bufs.chunks, bufs.chunkLength, bufs.offset);
  }

  /** The bits in the octet held at the write position; a full count of free bits means none. */
  ghost function Pending(bufs: Bufs, rembits: nat): Bits
    requires bufs.Valid() && 1 <= rembits <= 8 && (rembits < 8 ==> bufs.Avail() > 0)
    reads bufs
  {
    if rembits == 8 then [] else HeldBits(bufs.Held(), rembits)
  }

  /** The local `avail` is the space of the current chunk and there is room for the held bits. */
  ghost predicate Ready(bufs: Bufs, avail: nat, rembits: nat)
    reads bufs
  {
    && bufs.Valid() && avail == bufs.Avail() && 1 <= rembits <= 8
    && (rembits < 8 ==> avail > 0 && Partial(bufs.Held(), rembits))
  }

  /** The code shifted so that its low `m` bits end at an octet boundary. */
  function Align(code: nat, m: nat): (r: nat)
    requires 1 <= m <= 32 && code < Pow2(32)
    ensures Tail(code, m, r)
  {
    Pow2Of32();
    if m % 8 != 0 then Shl(code, 8 - m % 8) % 0x1_0000_0000 else code
  }

  /** The octets of a tail that are written for good. */
  ghost function WholeBytes(aligned: nat, m: nat): (r: seq<byte>)
    requires 1 <= m <= 32
  {
    TailBytes(aligned, (m + 7) / 8)[..m / 8]
  }

  /** The octets of a tail, by whichever path the room in the current chunk calls for. */
  method WriteOctets(bufs: Bufs, avail: nat, m: nat, n: nat, b3: byte, b2: byte, b1: byte, b0: byte,
                     ghost out: seq<byte>)
    returns (ok: bool)
    requires bufs.Valid() && avail == bufs.Avail() && n == |out| && Octets(out, m, b3, b2, b1, b0)
    modifies bufs
    ensures bufs.Valid() && ok == (old(bufs.Room()) >= |out|)
    ensures Grown(old(bufs.chunks), bufs.chunks, bufs.chunkLength, bufs.offset)
    ensures ok ==> Written(bufs, old(bufs.chunks), old(bufs.Content()), old(bufs.Room()), out, Whole(out, m))
    ensures ok && Whole(out, m) < |out| ==> bufs.Avail() > 0 && bufs.Held() == b0
  {
    ok := true;
    if avail < n {
      ok := SlowTail(bufs, m, b3, b2, b1, b0, out);
    } else {
      FastTail(bufs, m, b3, b2, b1, b0, out);
    }
  }

  /** The tail of a code. */
  method WriteTail(bufs: Bufs, avail: nat, aligned: nat, m: nat) returns (ok: bool)
    requires bufs.Valid() && avail == bufs.Avail() && 1 <= m <= 32
    modifies bufs
    ensures bufs.Valid() && ok == (old(bufs.Room()) >= (m + 7) / 8)
    ensures Grown(old(bufs.chunks), bufs.chunks, bufs.chunkLength, bufs.offset)
    ensures ok ==> bufs.Content() == old(bufs.Content()) + WholeBytes(aligned, m) &&
                   bufs.Room() == old(bufs.Room()) - |WholeBytes(aligned, m)|
    ensures ok && m % 8 != 0 ==> bufs.Avail() > 0 && bufs.Held() == aligned % 256
  {
    ShiftedOctets(aligned, m);
    ghost var out := TailBytes(aligned, (m + 7) / 8);
    assert Whole(out, m) == m / 8;
    var b3, b2, b1, b0 := aligned / 16777216 % 256, aligned / 65536 % 256, aligned / 256 % 256, aligned % 256;
    ok := WriteOctets(bufs, avail, m, (m + 7) / 8, b3, b2, b1, b0, out);
  }

  lemma HeldReady(bufs: Bufs, rembits: nat, low: byte)
    requires bufs.Valid() && 1 <= rembits <= 8
    requires rembits < 8 ==> bufs.Avail() > 0 && bufs.Held() == low && Partial(low, rembits)
    ensures Ready(bufs, bufs.Avail(), rembits)
    ensures Pending(bufs, rembits) == if rembits == 8 then [] else HeldBits(low, rembits)
  {
  }

  /** The bits of a tail: whole octets, and the last one if it is only held. */
  ghost predicate Spells(aligned: nat, m: nat, bits: seq<bool>)
    requires 1 <= m <= 32
  {
    if m % 8 == 0 then BytesBits(WholeBytes(aligned, m)) + [] == bits
    else Partial(aligned % 256, 8 - m % 8) &&
         BytesBits(WholeBytes(aligned, m)) + HeldBits(aligned % 256, 8 - m % 8) == bits
  }

  lemma TailSpells(code: nat, m: nat, aligned: nat)
    requires Tail(code, m, aligned)
    ensures Spells(aligned, m, BitsOf(code, m))
  {
    TailSplit(code, m, aligned);
  }

  /** The tail with these bits, written or held. */
  method HoldTail(bufs: Bufs, avail: nat, aligned: nat, m: nat, ghost bits: seq<bool>)
    returns (ok: bool, avail': nat, rembits: nat)
    requires bufs.Valid() && avail == bufs.Avail() && 1 <= m <= 32 && Spells(aligned, m, bits)
    modifies bufs
    ensures bufs.Valid() && ok == (old(bufs.Room()) >= (m + 7) / 8)
    ensures Grown(old(bufs.chunks), bufs.chunks, bufs.chunkLength, bufs.offset)
    ensures ok ==> bufs.Content() == old(bufs.Content()) + WholeBytes(aligned, m) &&
                   bufs.Room() == old(bufs.Room()) - |WholeBytes(aligned, m)|
    ensures ok ==> Ready(bufs, avail', rembits) && BytesBits(WholeBytes(aligned, m)) + Pending(bufs, rembits) == bits
  {
    ok := WriteTail(bufs, avail, aligned, m);
    avail' := bufs.Avail();
    rembits := 8 - m % 8;
    if ok {
      HeldReady(bufs, rembits, aligned % 256);
    }
  }

  /** The part of `huff_encode_sym` after the held octet is full. */
  method EncodeRest(bufs: Bufs, avail: nat, code: nat, m: nat)
    returns (ok: bool, avail': nat, rembits: nat, ghost out: seq<byte>)
    requires bufs.Valid() && avail == bufs.Avail() && 1 <= m <= 29 && code < Pow2(32)
    modifies bufs
    ensures bufs.Valid() && ok == (old(bufs.Room()) >= (m + 7) / 8)
    ensures Grown(old(bufs.chunks), bufs.chunks, bufs.chunkLength, bufs.offset)
    ensures ok ==> Ready(bufs, avail', rembits)
    ensures ok ==> bufs.Content() == old(bufs.Content()) + out && bufs.Room() == old(bufs.Room()) - |out|
    ensures ok ==> BytesBits(out) + Pending(bufs, rembits) == BitsOf(code, m)
  {
    var aligned := Align(code, m);
    out := WholeBytes(aligned, m);
    TailSpells(code, m, aligned);
    ok, avail', rembits := HoldTail(bufs, avail, aligned, m, BitsOf(code, m));
  }

  /** `huff_encode_sym` for a code that reaches beyond the held octet. */
  method EncodeLong(bufs: Bufs, avail: nat, rembits: nat, sym: HuffSym)
    returns (ok: bool, avail': nat, rembits': nat, ghost out: seq<byte>)
    requires bufs.Valid() && avail == bufs.Avail() > 0 && Partial(bufs.Held(), rembits)
    requires rembits < sym.nbits <= 30 && sym.code < Pow2(sym.nbits)
    modifies bufs
    ensures bufs.Valid() && ok == (8 - rembits + sym.nbits <= 8 * old(bufs.Room()))
    ensures Grown(old(bufs.chunks), bufs.chunks, bufs.chunkLength, bufs.offset)
    ensures ok ==> Ready(bufs, avail', rembits')
    ensures ok ==> bufs.Content() == old(bufs.Content()) + out && bufs.Room() == old(bufs.Room()) - |out|
    ensures ok ==> BytesBits(out) + Pending(bufs, rembits') ==
                   HeldBits(old(bufs.Held()), rembits) + BitsOf(sym.code, sym.nbits)
  {
    var m := sym.nbits - rembits;
    FirstPart(sym.code, rembits, m);
    var top := Shr(sym.code, m);
    ghost var held := bufs.Held();
    FillUp(held, rembits, top);
    bufs.FastOrB(top);
    ghost var o := OrByte(held, top);
    ghost var mid := bufs.chunks;
    ghost var rest;
    ok, avail', rembits', rest := EncodeRest(bufs, avail - 1, sym.code, m);
    GrownTransitive(old(bufs.chunks), mid, bufs.chunks, bufs.chunkLength, bufs.offset);
    out := [o] + rest;
    if ok {
      ConcatAssoc(old(bufs.Content()), [o], rest);
      LongBits(o, rest, Pending(bufs, rembits'), HeldBits(held, rembits), BitsOf(top, rembits), BitsOf(sym.code, m));
    }
  }

  lemma LongBits(o: byte, rest: seq<byte>, pending: Bits, held: Bits, top: Bits, low: Bits)
    requires BitsOf(o, 8) == held + top && BytesBits(rest) + pending == low
    ensures BytesBits([o] + rest) + pending == held + (top + low)
  {
    assert ([o] + rest)[1..] == rest;
    ConcatAssoc(BitsOf(o, 8), BytesBits(rest), pending);
    ConcatAssoc(held, top, low);
  }

  /** `huff_encode_sym`: ORs the code of one symbol in after the `rembits` free bits. */
  method EncodeSym(bufs: Bufs, avail: nat, rembits: nat, sym: HuffSym)
    returns (ok: bool, avail': nat, rembits': nat, ghost out: seq<byte>)
    requires bufs.Valid() && avail == bufs.Avail() > 0 && Partial(bufs.Held(), rembits)
    requires 5 <= sym.nbits <= 30 && sym.code < Pow2(sym.nbits)
    modifies bufs
    ensures bufs.Valid() && ok == (8 - rembits + sym.nbits <= 8 * old(bufs.Room()))
    ensures Grown(old(bufs.chunks), bufs.chunks, bufs.chunkLength, bufs.offset)
    ensures ok ==> Ready(bufs, avail', rembits')
    ensures ok ==> bufs.Content() == old(bufs.Content()) + out && bufs.Room() == old(bufs.Room()) - |out|
    ensures ok ==> BytesBits(out) + Pending(bufs, rembits') ==
                   HeldBits(old(bufs.Held()), rembits) + BitsOf(sym.code, sym.nbits)
  {
    ghost var held := bufs.Held();
    if rembits > sym.nbits {
      FillSome(held, sym.nbits, rembits - sym.nbits, sym.code);
      bufs.FastOrBHold(Shl(sym.code, rembits - sym.nbits));
      return true, avail, rembits - sym.nbits, [];
    }
    if rembits == sym.nbits {
      FillUp(held, sym.nbits, sym.code);
      bufs.FastOrB(sym.code);
      out := [OrByte(held, sym.code)];
      LongBits(out[0], [], [], HeldBits(held, rembits), BitsOf(sym.code, rembits), []);
      assert out + [] == out;
      return true, avail - 1, 8, out;
    }
    ok, avail', rembits', out := EncodeLong(bufs, avail, rembits, sym);
  }

  /** The code cut after the bits that fill the held octet. */
  lemma FirstPart(code: nat, r: nat, m: nat)
    requires code < Pow2(r + m) && r + m <= 32
    ensures Shr(code, m) < Pow2(r) && code < Pow2(32)
    ensures BitsOf(code, r + m) == BitsOf(Shr(code, m), r) + BitsOf(code, m)
  {
    ShrDiv(code, m);
    Pow2Monotone(r + m, 32);
    BitsSplit(code, r, m);
    BitsLow(code, m);
    Pow2Add(r, m);
    DivLess(code, Pow2(r), Pow2(m));
  }

  /** The octets `out` and the held bits are the codes of the first `i` octets of `src`. */
  ghost predicate EncodedSoFar(h: HuffTables, src: seq<byte>, i: nat, bufs: Bufs, avail: nat, rembits: nat,
                               start: seq<Chunk>, c0: seq<byte>, room0: nat, out: seq<byte>)
    requires |h.codes| == 257 && i <= |src|
    reads bufs
  {
    && Ready(bufs, avail, rembits)
    && Written(bufs, start, c0, room0, out, |out|)
    && BytesBits(out) + Pending(bufs, rembits) == CodeBits(h, src[..i])
  }

  lemma PrefixBits(h: HuffTables, src: seq<byte>, i: nat)
    requires |h.codes| == 257 && i < |src|
    ensures CodeBits(h, src[..i + 1]) == CodeBits(h, src[..i]) + h.codes[src[i]]
    ensures |CodeBits(h, src[..i + 1])| <= |CodeBits(h, src)|
  {
    assert src[..i + 1] == src[..i] + [src[i]];
    CodeBitsConcat(h, src[..i], [src[i]]);
    assert CodeBits(h, [src[i]]) == h.codes[src[i]] + CodeBits(h, []);
    assert src == src[..i + 1] + src[i + 1..];
    CodeBitsConcat(h, src[..i + 1], src[i + 1..]);
  }

  lemma TooLong(h: HuffTables, src: seq<byte>, room: nat)
    requires |h.codes| == 257 && |CodeBits(h, src)| > 8 * room
    ensures |HuffBytes(h, src)| > room
  {
    assert Encodes(h, src, HuffBytes(h, src));
  }

  /** One turn of the loop of `nghttp2_hd_huff_encode`. */
  method EncodeNext(h: HuffTables, src: seq<byte>, i: nat, bufs: Bufs, avail0: nat, rembits0: nat,
                    ghost start: seq<Chunk>, ghost c0: seq<byte>, ghost room0: nat, ghost out0: seq<byte>)
    returns (ok: bool, avail: nat, rembits: nat, ghost out: seq<byte>)
    requires WfCode(h) && WfSyms(h) && i < |src|
    requires EncodedSoFar(h, src, i, bufs, avail0, rembits0, start, c0, room0, out0)
    modifies bufs
    ensures bufs.Valid() && Grown(start, bufs.chunks, bufs.chunkLength, bufs.offset)
    ensures ok ==> EncodedSoFar(h, src, i + 1, bufs, avail, rembits, start, c0, room0, out)
    ensures !ok ==> |HuffBytes(h, src)| > room0
  {
    var sym := h.syms[src[i]];
    avail, rembits, out := avail0, rembits0, out0;
    PrefixBits(h, src, i);
    if rembits == 8 {
      if avail > 0 {
        bufs.FastAddBHold(0);
      } else {
        ok := bufs.AddBHold(0);
        GrownTransitive(start, old(bufs.chunks), bufs.chunks, bufs.chunkLength, bufs.offset);
        if !ok {
          TooLong(h, src, room0);
          return;
        }
        avail := bufs.Avail();
      }
      GrownTransitive(start, old(bufs.chunks), bufs.chunks, bufs.chunkLength, bufs.offset);
    }
    ghost var mid, content, before := bufs.chunks, bufs.Content(), HeldBits(bufs.Held(), rembits);
    assert BytesBits(out0) + before == CodeBits(h, src[..i]);
    ghost var more;
    ok, avail, rembits, more := EncodeSym(bufs, avail, rembits, sym);
    GrownTransitive(start, mid, bufs.chunks, bufs.chunkLength, bufs.offset);
    if !ok {
      TooLong(h, src, room0);
      return;
    }
    out := out0 + more;
    assert out0[..|out0|] == out0 && out[..|out|] == out;
    ConcatAssoc(c0, out0, more);
    BytesBitsConcat(out0, more);
    ConcatAssoc(BytesBits(out0), BytesBits(more), Pending(bufs, rembits));
    ConcatAssoc(BytesBits(out0), before, h.codes[src[i]]);
  }

  /** `nghttp2_hd_huff_encode`: whatever the chunks, exactly the Huffman form is appended. */
  method HuffEncode(h: HuffTables, bufs: Bufs, src: seq<byte>) returns (ok: bool)
    requires WfCode(h) && WfSyms(h) && bufs.Valid()
    modifies bufs
    ensures bufs.Valid() && ok == (|HuffBytes(h, src)| <= old(bufs.Room()))
    ensures ok ==> bufs.Content() == old(bufs.Content()) + HuffBytes(h, src)
    ensures ok ==> bufs.Room() == old(bufs.Room()) - |HuffBytes(h, src)|
    ensures Grown(old(bufs.chunks), bufs.chunks, bufs.chunkLength, bufs.offset)
  {
    var rembits: nat, avail := 8, bufs.Avail();
    ghost var start, c0, room0, out: seq<byte> := bufs.chunks, bufs.Content(), bufs.Room(), [];
    var i := 0;
    while i < |src|
      invariant 0 <= i <= |src|
      invariant EncodedSoFar(h, src, i, bufs, avail, rembits, start, c0, room0, out)
    {
      ok, avail, rembits, out := EncodeNext(h, src, i, bufs, avail, rembits, start, c0, room0, out);
      if !ok {
        return;
      }
      i := i + 1;
    }
    EncodeEnd(h, bufs, src, avail, rembits, start, c0, room0, out);
    ok := true;
  }

  /** After the last symbol. */
  method EncodeEnd(h: HuffTables, bufs: Bufs, src: seq<byte>, avail: nat, rembits: nat,
                   ghost start: seq<Chunk>, ghost c0: seq<byte>, ghost room0: nat, ghost out0: seq<byte>)
    requires WfCode(h) && WfSyms(h) && EncodedSoFar(h, src, |src|, bufs, avail, rembits, start, c0, room0, out0)
    modifies bufs
    ensures bufs.Valid() && |HuffBytes(h, src)| <= room0
    ensures bufs.Content() == c0 + HuffBytes(h, src) && bufs.Room() == room0 - |HuffBytes(h, src)|
    ensures Grown(start, bufs.chunks, bufs.chunkLength, bufs.offset)
  {
    ghost var out := out0;
    if rembits < 8 {
      out := EncodePadding(h, bufs, src, rembits, start, c0, room0, out0);
    } else {
      WholeOctets(h, src, out);
    }
    EncodingUnique(h, src, out, HuffBytes(h, src));
    assert out[..|out|] == out;
  }

  lemma WholeOctets(h: HuffTables, src: seq<byte>, out: seq<byte>)
    requires |h.codes| == 257 && BytesBits(out) + [] == CodeBits(h, src[..|src|])
    ensures Encodes(h, src, out)
  {
    assert src[..|src|] == src;
    assert BytesBits(out) == CodeBits(h, src) + Ones(0);
  }

  /** The prefix of the EOS code that fills the last octet is all ones. */
  lemma EosPrefix(h: HuffTables, r: nat)
    requires WfCode(h) && WfSyms(h) && r <= 30
    ensures Shr(h.syms[EOS].code, 30 - r) < Pow2(r)
    ensures BitsOf(Shr(h.syms[EOS].code, 30 - r), r) == Ones(r)
  {
    FirstPart(h.syms[EOS].code, r, 30 - r);
    assert BitsOf(Shr(h.syms[EOS].code, 30 - r), r) == h.codes[EOS][..r];
  }

  /** The end of `nghttp2_hd_huff_encode`; `assert(avail)` is this method's precondition. */
  method EncodePadding(h: HuffTables, bufs: Bufs, src: seq<byte>, rembits: nat,
                       ghost start: seq<Chunk>, ghost c0: seq<byte>, ghost room0: nat, ghost out0: seq<byte>)
    returns (ghost out: seq<byte>)
    requires WfCode(h) && WfSyms(h) && rembits < 8 && bufs.Valid() && bufs.Avail() > 0
    requires EncodedSoFar(h, src, |src|, bufs, bufs.Avail(), rembits, start, c0, room0, out0)
    modifies bufs
    ensures Written(bufs, start, c0, room0, out, |out|)
    ensures Encodes(h, src, out)
  {
    EosPrefix(h, rembits);
    var x := Shr(h.syms[EOS].code, 30 - rembits);
    ghost var held := bufs.Held();
    FillUp(held, rembits, x);
    bufs.FastOrB(x);
    GrownTransitive(start, old(bufs.chunks), bufs.chunks, bufs.chunkLength, bufs.offset);
    ghost var o := OrByte(held, x);
    out := out0 + [o];
    assert src[..|src|] == src && out0[..|out0|] == out0 && out[..|out|] == out;
    ConcatAssoc(c0, out0, [o]);
    PaddedBits(h, src, out0, HeldBits(held, rembits), rembits, o);
  }

  lemma PaddedBits(h: HuffTables, src: seq<byte>, out: seq<byte>, held: Bits, r: nat, o: byte)
    requires |h.codes| == 257 && r < 8 && |held| == 8 - r
    requires BytesBits(out) + held == CodeBits(h, src) && BitsOf(o, 8) == held + Ones(r)
    ensures Encodes(h, src, out + [o])
  {
    BytesBitsConcat(out, [o]);
    assert BytesBits([o]) == BitsOf(o, 8) + BytesBits([]);
    ConcatAssoc(BytesBits(out), held, Ones(r));
    PadOf(|out| + 1, r);
  }

  lemma PadOf(k: nat, r: nat)
    requires r < 8 && k >= 1
    ensures PadLen(8 * k - r) == r
  {
  }
}
