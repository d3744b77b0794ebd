/**
  * Chained output buffers, lib/nghttp2_buf.c: a list of fixed-size chunks that grows up to
  * `maxChunk` chunks.  Every new chunk starts `offset` octets in, leaving room for a frame
  * header to be written in front later.
  */
module Buffers {
  import opened Bytes

  /** `nghttp2_buf`: the data is `mem[pos..last]`. */
  datatype Chunk = Chunk(mem: seq<byte>, pos: nat, last: nat)

  ghost predicate WfChunk(c: Chunk) {
    c.pos <= c.last <= |c.mem|
  }

  function Data(c: Chunk): seq<byte>
    requires WfChunk(c)
  {
    c.mem[c.pos..c.last]
  }

  /** `nghttp2_buf_avail`. */
  function Free(c: Chunk): nat
    requires WfChunk(c)
  {
    |c.mem| - c.last
  }

  /** All data of a list of chunks. */
  ghost function Joined(cs: seq<Chunk>): seq<byte>
    requires forall i :: 0 <= i < |cs| ==> WfChunk(cs[i])
  {
    if cs == [] then [] else Joined(cs[..|cs| - 1]) + Data(cs[|cs| - 1])
  }

  ghost function FreeSum(cs: seq<Chunk>): nat
    requires forall i :: 0 <= i < |cs| ==> WfChunk(cs[i])
  {
    if cs == [] then 0 else Free(cs[0]) + FreeSum(cs[1..])
  }

  /** `b | c` on octets held as numbers. */
  function BitOr(a: nat, b: nat): nat {
    if a == 0 && b == 0 then 0 else 2 * BitOr(a / 2, b / 2) + Max(a % 2, b % 2)
  }

  lemma {:induction false} BitOrBound(a: nat, b: nat, n: nat)
    requires a < Pow2(n) && b < Pow2(n)
    ensures BitOr(a, b) < Pow2(n)
    decreases n
  {
    if n > 0 && (a > 0 || b > 0) {
      BitOrBound(a / 2, b / 2, n - 1);
    }
  }

  /** On numbers without a common bit, `|` adds. */
  lemma {:induction false} BitOrDisjoint(a: nat, b: nat, n: nat)
    requires a % Pow2(n) == 0 && b < Pow2(n)
    ensures BitOr(a, b) == a + b
    decreases n
  {
    if n == 0 {
      BitOrZero(a);
    } else if a > 0 || b > 0 {
      HalfMultiple(a, n);
      BitOrDisjoint(a / 2, b / 2, n - 1);
    }
  }

  /** Half of a multiple of a power of two. */
  lemma HalfMultiple(a: nat, n: nat)
    requires n > 0 && a % Pow2(n) == 0
    ensures a % 2 == 0 && a / 2 % Pow2(n - 1) == 0
  {
    var p, q := Pow2(n - 1), a / Pow2(n);
    MulTwice(q, p);
    MulMod(q, p);
    assert a == 2 * (q * p);
  }

  lemma MulTwice(q: nat, p: nat)
    ensures q * (2 * p) == 2 * (q * p)
  {
  }

  lemma MulMod(q: nat, p: nat)
    requires p >= 1
    ensures q * p % p == 0
  {
    DivUnique(q * p, p, q, 0);
  }

  lemma BitOrZero(a: nat)
    ensures BitOr(a, 0) == a
  {
  }

  function OrByte(a: byte, b: byte): byte {
    Pow2Values();
    BitOrBound(a, b, 8);
    BitOr(a, b)
  }

  /** `cs'` is `cs` after some writing: nothing already written has changed. */
  ghost predicate Grown(cs: seq<Chunk>, cs': seq<Chunk>, chunkLength: nat, offset: nat)
    requires forall i :: 0 <= i < |cs| ==> WfChunk(cs[i])
    requires forall i :: 0 <= i < |cs'| ==> WfChunk(cs'[i])
  {
    && |cs| <= |cs'|
    && (forall i :: 0 <= i < |cs| ==> ChunkGrown(cs[i], cs'[i]))
    && (forall i :: |cs| <= i < |cs'| ==> cs'[i].pos == offset && |cs'[i].mem| == chunkLength)
  }

  ghost predicate ChunkGrown(c: Chunk, c': Chunk)
    requires WfChunk(c) && WfChunk(c')
  {
    && c'.pos == c.pos && |c'.mem| == |c.mem| && c.last <= c'.last
    && c'.mem[..c.last] == c.mem[..c.last]
  }

  lemma GrownTransitive(a: seq<Chunk>, b: seq<Chunk>, c: seq<Chunk>, chunkLength: nat, offset: nat)
    requires forall i :: 0 <= i < |a| ==> WfChunk(a[i])
    requires forall i :: 0 <= i < |b| ==> WfChunk(b[i])
    requires forall i :: 0 <= i < |c| ==> WfChunk(c[i])
    requires Grown(a, b, chunkLength, offset) && Grown(b, c, chunkLength, offset)
    ensures Grown(a, c, chunkLength, offset)
  {
    forall i | 0 <= i < |a|
      ensures ChunkGrown(a[i], c[i])
    {
      assert ChunkGrown(a[i], b[i]) && ChunkGrown(b[i], c[i]);
      assert c[i].mem[..a[i].last] == c[i].mem[..b[i].last][..a[i].last];
      assert b[i].mem[..a[i].last] == b[i].mem[..b[i].last][..a[i].last];
    }
    forall i | |a| <= i < |c|
      ensures c[i].pos == offset && |c[i].mem| == chunkLength
    {
      if i < |b| {
        assert ChunkGrown(b[i], c[i]);
      }
    }
  }

  lemma MovedOver(content: seq<byte>, rest: seq<byte>, n: nat)
    requires n <= |rest|
    ensures (content + rest[..n]) + rest[n..] == content + rest
  {
    assert rest == rest[..n] + rest[n..];
  }

  lemma TakeStep(k: nat, d: nat)
    requires k > 0
    ensures k * d == (k - 1) * d + d
  {
  }

  lemma JoinedMore(cs: seq<Chunk>, i: nat)
    requires i < |cs| && forall j :: 0 <= j < |cs| ==> WfChunk(cs[j])
    ensures Joined(cs[..i + 1]) == Joined(cs[..i]) + Data(cs[i])
  {
    assert cs[..i + 1][..i] == cs[..i];
  }

  /** `nghttp2_bufs`. */
  class Bufs {
    var chunks: seq<Chunk>
    var cur: nat
    const chunkLength: nat
    const maxChunk: nat
    const offset: nat

    /** A buffer list may only hold chunks that have room for at least one octet. */
    ghost predicate Valid()
      reads this
    {
      && cur < |chunks| <= maxChunk
      && (forall i :: 0 <= i < |chunks| ==> WfChunk(chunks[i]))
      && (forall i :: cur < i < |chunks| ==> chunks[i].pos == chunks[i].last < |chunks[i].mem|)
      && (|chunks| < maxChunk ==> offset < chunkLength)
    }

    /** Everything written so far. */
    ghost function Content(): seq<byte>
      requires Valid()
      reads this
    {
      Joined(chunks[..cur]) + Data(chunks[cur])
    }

    /** `nghttp2_bufs_cur_avail`. */
    function Avail(): nat
      requires Valid()
      reads this
    {
      Free(chunks[cur])
    }

    /** The number of octets that still fit. */
    ghost function Room(): (r: nat)
      requires Valid()
      reads this
    {
      Avail() + FreeSum(chunks[cur + 1..]) + Unallocated(|chunks|)
    }

    /** The room of the chunks not allocated yet, when `n` chunks are. */
    ghost function Unallocated(n: nat): (r: nat)
      requires n <= maxChunk && (n < maxChunk ==> offset < chunkLength)
    {
      if n == maxChunk then 0 else (maxChunk - n) * (chunkLength - offset)
    }

    /** The octet at `last`, which the hold operations write without counting it. */
    function Held(): byte
      requires Valid() && Avail() > 0
      reads this
    {
      chunks[cur].mem[chunks[cur].last]
    }

    /** `nghttp2_bufs_init3` for one chunk kept. */
    constructor (chunkLength: nat, maxChunk: nat, offset: nat)
      requires offset < chunkLength && maxChunk > 0
      ensures Valid() && Content() == [] && cur == 0 && |chunks| == 1
      ensures this.chunkLength == chunkLength && this.maxChunk == maxChunk && this.offset == offset
      ensures chunks[0].pos == chunks[0].last == offset && |chunks[0].mem| == chunkLength
      ensures Room() == maxChunk * (chunkLength - offset)
    {
      this.chunkLength := chunkLength;
      this.maxChunk := maxChunk;
      this.offset := offset;
      this.chunks := [Chunk(seq(chunkLength, _ => 0), offset, offset)];
      this.cur := 0;
      new;
      TakeStep(maxChunk, chunkLength - offset);
    }

    /** `nghttp2_bufs_wrap_init`: one caller-supplied buffer that cannot grow. */
    constructor Wrap(size: nat)
      ensures Valid() && Content() == [] && cur == 0 && |chunks| == 1 && Room() == size
      ensures chunkLength == size && maxChunk == 1 && offset == 0
    {
      chunkLength := size;
      maxChunk := 1;
      offset := 0;
      chunks := [Chunk(seq(size, _ => 0), 0, 0)];
      cur := 0;
    }

    /** `bufs_alloc_chain`. */
    method AllocChain() returns (ok: bool)
      requires Valid()
      modifies this
      ensures Valid() && Content() == old(Content())
      ensures ok == (old(Room()) > old(Avail()))
      ensures ok ==> Avail() > 0 && Room() == old(Room()) - old(Avail())
      ensures ok ==> cur == old(cur) + 1
      ensures !ok ==> chunks == old(chunks) && cur == old(cur)
      ensures Grown(old(chunks), chunks, chunkLength, offset)
    {
      if cur + 1 < |chunks| {
        NextChunk();
        return true;
      }
      assert chunks[cur + 1..] == [];
      if maxChunk == |chunks| {
        return false;
      }
      NewChunk();
      return true;
    }

    /** Goes on to a chunk that is there. */
    method NextChunk()
      requires Valid() && cur + 1 < |chunks|
      modifies this`cur
      ensures Valid() && Content() == old(Content()) && cur == old(cur) + 1
      ensures Avail() > 0 && Room() == old(Room()) - old(Avail()) && old(Room()) > old(Avail())
    {
      ghost var rest := chunks[cur + 1..];
      assert rest[0] == chunks[cur + 1] && rest[1..] == chunks[cur + 2..];
      JoinedMore(chunks, cur);
      assert Data(chunks[cur + 1]) == [];
      cur := cur + 1;
    }

    /** Goes on to a new chunk. */
    method NewChunk()
      requires Valid() && cur + 1 == |chunks| < maxChunk
      modifies this
      ensures Valid() && Content() == old(Content()) && cur == old(cur) + 1
      ensures Avail() > 0 && Room() == old(Room()) - old(Avail()) && old(Room()) > old(Avail())
      ensures Grown(old(chunks), chunks, chunkLength, offset)
    {
      TakeStep(maxChunk - |chunks|, chunkLength - offset);
      ghost var before := chunks;
      JoinedMore(before, cur);
      assert before[cur + 1..] == [];
      chunks := chunks + [Chunk(seq(chunkLength, _ => 0), offset, offset)];
      cur := cur + 1;
      assert chunks[..cur] == before == before[..cur] && Data(chunks[cur]) == [] && chunks[cur + 1..] == [];
    }

    /** Replaces the current chunk; the data in front of `last` must not change. */
    method SetCur(c: Chunk)
      requires Valid() && WfChunk(c) && ChunkGrown(chunks[cur], c)
      modifies this`chunks
      ensures Valid() && chunks == old(chunks)[cur := c]
      ensures Content() == old(Content()) + c.mem[old(chunks[cur].last)..c.last]
      ensures Avail() == Free(c) && Room() == old(Room()) - (c.last - old(chunks[cur].last))
      ensures Grown(old(chunks), chunks, chunkLength, offset)
    {
      ghost var before := chunks[cur];
      ghost var old' := chunks;
      chunks := chunks[cur := c];
      assert chunks[..cur] == old'[..cur] && chunks[cur + 1..] == old'[cur + 1..];
      assert Data(c) == Data(before) + c.mem[before.last..c.last] by {
        assert c.mem[c.pos..before.last] == c.mem[..before.last][c.pos..];
        assert Data(before) == before.mem[..before.last][c.pos..];
      }
    }

    /** `nghttp2_bufs_fast_addb`. */
    method FastAddB(b: byte)
      requires Valid() && Avail() > 0
      modifies this`chunks
      ensures Valid() && Content() == old(Content()) + [b]
      ensures Avail() == old(Avail()) - 1 && Room() == old(Room()) - 1
      ensures Grown(old(chunks), chunks, chunkLength, offset)
    {
      var c := chunks[cur];
      SetCur(c.(mem := c.mem[c.last := b], last := c.last + 1));
    }

    /** `nghttp2_bufs_fast_addb_hold`. */
    method FastAddBHold(b: byte)
      requires Valid() && Avail() > 0
      modifies this`chunks
      ensures Valid() && Content() == old(Content())
      ensures Avail() == old(Avail()) && Room() == old(Room()) && Held() == b
      ensures Grown(old(chunks), chunks, chunkLength, offset)
    {
      var c := chunks[cur];
      SetCur(c.(mem := c.mem[c.last := b]));
    }

    /** `nghttp2_bufs_fast_orb`. */
    method FastOrB(b: byte)
      requires Valid() && Avail() > 0
      modifies this`chunks
      ensures Valid() && Content() == old(Content()) + [OrByte(old(Held()), b)]
      ensures Avail() == old(Avail()) - 1 && Room() == old(Room()) - 1
      ensures Grown(old(chunks), chunks, chunkLength, offset)
    {
      var h := Held();
      FastAddB(OrByte(h, b));
    }

    /** `nghttp2_bufs_fast_orb_hold`. */
    method FastOrBHold(b: byte)
      requires Valid() && Avail() > 0
      modifies this`chunks
      ensures Valid() && Content() == old(Content())
      ensures Avail() == old(Avail()) && Room() == old(Room()) && Held() == OrByte(old(Held()), b)
      ensures Grown(old(chunks), chunks, chunkLength, offset)
    {
      var h := Held();
      FastAddBHold(OrByte(h, b));
    }

    /** `bufs_ensure_addb`. */
    method EnsureAddB() returns (ok: bool)
      requires Valid()
      modifies this
      ensures Valid() && Content() == old(Content()) && Room() == old(Room())
      ensures ok == (old(Room()) > 0)
      ensures ok ==> Avail() > 0
      ensures Grown(old(chunks), chunks, chunkLength, offset)
    {
      if Avail() > 0 {
        return true;
      }
      ok := AllocChain();
    }

    /** `nghttp2_bufs_addb`. */
    method AddB(b: byte) returns (ok: bool)
      requires Valid()
      modifies this
      ensures Valid() && ok == (old(Room()) > 0)
      ensures Content() == old(Content()) + if ok then [b] else []
      ensures Room() == old(Room()) - if ok then 1 else 0
      ensures Grown(old(chunks), chunks, chunkLength, offset)
    {
      ok := EnsureAddB();
      if ok {
        ghost var mid := chunks;
        FastAddB(b);
        GrownTransitive(old(chunks), mid, chunks, chunkLength, offset);
      }
    }

    /** `nghttp2_bufs_addb_hold`. */
    method AddBHold(b: byte) returns (ok: bool)
      requires Valid()
      modifies this
      ensures Valid() && ok == (old(Room()) > 0)
      ensures Content() == old(Content()) && Room() == old(Room())
      ensures ok ==> Avail() > 0 && Held() == b
      ensures Grown(old(chunks), chunks, chunkLength, offset)
    {
      ok := EnsureAddB();
      if ok {
        ghost var mid := chunks;
        FastAddBHold(b);
        GrownTransitive(old(chunks), mid, chunks, chunkLength, offset);
      }
    }

    /** Copies `piece` into the current chunk. */
    method Copy(piece: seq<byte>)
      requires Valid() && |piece| <= Avail()
      modifies this`chunks
      ensures Valid() && Content() == old(Content()) + piece
      ensures Avail() == old(Avail()) - |piece| && Room() == old(Room()) - |piece|
      ensures Grown(old(chunks), chunks, chunkLength, offset)
    {
      var c := chunks[cur];
      var last := c.last + |piece|;
      var mem := c.mem[..c.last] + piece + c.mem[last..];
      assert mem[..c.last] == c.mem[..c.last] && mem[c.last..last] == piece;
      SetCur(Chunk(mem, c.pos, last));
    }

    /** One round of `nghttp2_bufs_add`: fills the current chunk or moves to the next one. */
    method AddSome(data: seq<byte>) returns (ok: bool, n: nat)
      requires Valid() && data != []
      modifies this
      ensures Valid() && n <= |data| && ok == (old(Room()) > 0)
      ensures Content() == old(Content()) + data[..n] && Room() == old(Room()) - n
      ensures ok ==> n > 0 || (old(Avail()) == 0 && Avail() > 0)
      ensures !ok ==> n == 0
      ensures Grown(old(chunks), chunks, chunkLength, offset)
    {
      n := Min(Avail(), |data|);
      if n == 0 {
        ok := AllocChain();
      } else {
        Copy(data[..n]);
        ok := true;
      }
    }

    /** `nghttp2_bufs_add`: succeeds exactly when the data fits, however it is cut into chunks. */
    method Add(data: seq<byte>) returns (ok: bool)
      requires Valid()
      modifies this
      ensures Valid() && ok == (|data| <= old(Room()))
      ensures ok ==> Content() == old(Content()) + data && Room() == old(Room()) - |data|
      ensures Grown(old(chunks), chunks, chunkLength, offset)
    {
      var rest := data;
      while rest != []
        invariant Valid() && Content() + rest == old(Content()) + data
        invariant Room() - |rest| == old(Room()) - |data|
        invariant Grown(old(chunks), chunks, chunkLength, offset)
        decreases |rest|, if Avail() == 0 then 1 else 0
      {
        ghost var mid, content := chunks, Content();
        var n;
        ok, n := AddSome(rest);
        GrownTransitive(old(chunks), mid, chunks, chunkLength, offset);
        if !ok {
          return;
        }
        MovedOver(content, rest, n);
        rest := rest[n..];
      }
      return true;
    }

    /** `nghttp2_bufs_remove_copy`. */
    method RemoveCopy() returns (out: seq<byte>)
      requires Valid()
      ensures out == Content()
    {
      out := [];
      var i := 0;
      while i < |chunks|
        invariant 0 <= i <= |chunks|
        invariant out == if i <= cur then Joined(chunks[..i]) else Content()
      {
        if i < cur {
          assert chunks[..i + 1][..i] == chunks[..i];
        }
        out := out + Data(chunks[i]);
        i := i + 1;
      }
    }
  }
}
