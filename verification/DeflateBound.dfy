/** `nghttp2_hd_deflate_bound` and `nghttp2_hd_deflate_hd` of lib/nghttp2_hd.c. */
module HpackBound {
  import opened Bytes
  import opened HpackInteger
  import opened HpackTable
  import opened Huffman
  import opened Hpack
  import opened Buffers
  import opened HpackDeflater

  ghost function TotalLength(nvs: seq<Nv>): nat {
    if nvs == [] then 0 else |nvs[0].name| + |nvs[0].value| + TotalLength(nvs[1..])
  }

  /** `nghttp2_hd_deflate_bound`: 12 octets for size updates and 12 for each field. */
  ghost function Bound(nvs: seq<Nv>): nat {
    12 + 12 * |nvs| + TotalLength(nvs)
  }

  method DeflateBound(nvs: seq<Nv>) returns (n: nat)
    ensures n == Bound(nvs)
  {
    n := 12;
    n := n + 6 * 2 * |nvs|;
    var i := 0;
    assert nvs[0..] == nvs;
    while i < |nvs|
      invariant 0 <= i <= |nvs|
      invariant n + TotalLength(nvs[i..]) == Bound(nvs)
    {
      assert nvs[i..][0] == nvs[i] && nvs[i..][1..] == nvs[i + 1..];
      n := n + (|nvs[i].name| + |nvs[i].value|);
      i := i + 1;
    }
  }

  /** What the encoder object keeps true of its view. */
  ghost predicate Bounded(e: Encoder) {
    TableSize(e.table) <= e.max <= UINT32_MAX && e.minMax <= UINT32_MAX
  }

  /** Names and values whose lengths fit 32 bits. */
  ghost predicate Measured(nv: Nv) {
    |nv.name| <= UINT32_MAX && |nv.value| <= UINT32_MAX
  }

  lemma EncodedLengths(first: byte, n: nat, prefix: nat)
    requires 4 <= prefix <= 7
    ensures 1 <= |Encode(first, n, prefix)|
    ensures n <= UINT32_MAX ==> |Encode(first, n, prefix)| <= 6
    ensures n < 0x1000_0000 + PrefixMax(prefix) ==> |Encode(first, n, prefix)| <= 5
    ensures 0x1000_0000 + PrefixMax(prefix) <= n <= UINT32_MAX ==> |Encode(first, n, prefix)| == 6
  {
    if n >= PrefixMax(prefix) {
      EncodeTailLength(n - PrefixMax(prefix));
    }
  }

  // ----------------------------------------------------------------------- one field

  /** A length from which on the length itself takes six octets. */
  const LONG: nat := 0x1000_0000 + 127

  /** A long string that is written as it is. */
  ghost predicate Bulky(p: Tables, s: seq<byte>)
    requires |p.huff.codes| == 257
  {
    |s| >= LONG && !UsesHuffman(p, s)
  }

  /** A string takes at most five octets more than it has, or six exactly if it is bulky. */
  lemma StringLength(p: Tables, s: seq<byte>)
    requires |p.huff.codes| == 257 && |s| <= UINT32_MAX
    ensures |StringBytes(p, s)| <= |s| + 6
    ensures |StringBytes(p, s)| == |s| + 6 <==> Bulky(p, s)
  {
    EncodedLengths(if UsesHuffman(p, s) then 0x80 else 0, |StringData(p, s)|, 7);
  }

  lemma HeadLength(p: Tables, index: int, name: seq<byte>, mode: Mode)
    requires |p.huff.codes| == 257 && -1 <= index < 0x1000_0000 && |name| <= UINT32_MAX
    ensures index >= 0 ==> |LiteralHead(p, index, name, mode)| <= 6
    ensures index == -1 ==> |LiteralHead(p, index, name, mode)| == 1 + |StringBytes(p, name)|
  {
    if index >= 0 {
      EncodedLengths(FirstByte(mode), index + 1, IndexPrefix(mode));
    }
  }

  /** The field is a literal with a new name, and neither string is short or Huffman coded. */
  ghost predicate Overruns(p: Tables, e: Encoder, nv: Nv)
    requires |p.statics| == STATIC_LENGTH && |p.huff.codes| == 257
  {
    Search(p, e.table, nv, ModeOf(p, e.max, nv)).index == -1 && Bulky(p, nv.name) && Bulky(p, nv.value)
  }

  /** The 12 octets the formula has for a field suffice exactly if the field does not overrun them. */
  lemma FieldLength(p: Tables, e: Encoder, nv: Nv)
    requires WfStatics(p) && |p.huff.codes| == 257 && Measured(nv) && Bounded(e)
    ensures |FieldBytes(p, e, nv)| <= 12 + |nv.name| + |nv.value| <==> !Overruns(p, e, nv)
    ensures Overruns(p, e, nv) ==> |FieldBytes(p, e, nv)| == 13 + |nv.name| + |nv.value|
  {
    var mode := ModeOf(p, e.max, nv);
    var r := Search(p, e.table, nv, mode);
    SearchSound(p, e.table, nv, mode);
    TableLength(e.table);
    assert r.index < 0x1000_0000;
    HeadLength(p, r.index, nv.name, mode);
    StringLength(p, nv.name);
    StringLength(p, nv.value);
    if r.exact {
      EncodedLengths(0x80, r.index + 1, 7);
    }
  }

  // ------------------------------------------------------------------------ a block

  /** No field overruns in the state of the encoder that it meets. */
  ghost predicate NoneOverruns(p: Tables, e: Encoder, nvs: seq<Nv>)
    requires |p.statics| == STATIC_LENGTH && |p.huff.codes| == 257
    decreases |nvs|
  {
    nvs == [] ||
    (!Overruns(p, e, nvs[0]) && NoneOverruns(p, e.(table := FieldTable(p, e, nvs[0])), nvs[1..]))
  }

  lemma {:induction false} FieldsLength(p: Tables, e: Encoder, nvs: seq<Nv>)
    requires WfStatics(p) && |p.huff.codes| == 257 && Bounded(e) && NoneOverruns(p, e, nvs)
    requires forall i :: 0 <= i < |nvs| ==> Measured(nvs[i])
    ensures |FieldsBytes(p, e, nvs)| <= 12 * |nvs| + TotalLength(nvs)
    decreases |nvs|
  {
    if nvs != [] {
      FieldLength(p, e, nvs[0]);
      FieldsLength(p, e.(table := FieldTable(p, e, nvs[0])), nvs[1..]);
    }
  }

  lemma UpdateLength(e: Encoder)
    requires Bounded(e)
    ensures |UpdateBytes(e)| <= 12
  {
    EncodedLengths(0x20, e.max, 5);
    EncodedLengths(0x20, e.minMax, 5);
  }

  /** The bound bounds every header block without a field that overruns. */
  lemma BlockLength(p: Tables, e: Encoder, nvs: seq<Nv>)
    requires WfStatics(p) && |p.huff.codes| == 257 && Bounded(e) && NoneOverruns(p, Notified(e), nvs)
    requires forall i :: 0 <= i < |nvs| ==> Measured(nvs[i])
    ensures |BlockBytes(p, e, nvs)| <= Bound(nvs)
  {
    UpdateLength(e);
    FieldsLength(p, Notified(e), nvs);
  }

  /** Two size updates of six octets each are pending, so the formula has no octet to spare. */
  ghost predicate Tight(e: Encoder) {
    Bounded(e) && e.notify && 0x1000_0000 + 31 <= e.minMax < e.max
  }

  lemma TightUpdate(e: Encoder)
    requires Tight(e)
    ensures |UpdateBytes(e)| == 12
  {
    EncodedLengths(0x20, e.max, 5);
    EncodedLengths(0x20, e.minMax, 5);
  }

  /** Then a single field decides: the bound is one exactly if the field does not overrun. */
  lemma TightExactly(p: Tables, e: Encoder, nv: Nv)
    requires WfStatics(p) && |p.huff.codes| == 257 && Measured(nv) && Tight(e)
    ensures |BlockBytes(p, e, [nv])| <= Bound([nv]) <==> !Overruns(p, Notified(e), nv)
  {
    TightUpdate(e);
    FieldLength(p, Notified(e), nv);
    SingleLength(p, e, nv);
  }

  lemma SingleLength(p: Tables, e: Encoder, nv: Nv)
    requires WfStatics(p) && |p.huff.codes| == 257
    ensures |BlockBytes(p, e, [nv])| == |UpdateBytes(e)| + |FieldBytes(p, Notified(e), nv)|
    ensures Bound([nv]) == 24 + |nv.name| + |nv.value|
  {
    var e1 := Notified(e);
    assert [nv][1..] == [];
    assert FieldsBytes(p, e1, [nv]) == FieldBytes(p, e1, nv) + FieldsBytes(p, e1.(table := FieldTable(p, e1, nv)), []);
    assert TotalLength([nv]) == |nv.name| + |nv.value| + TotalLength([]);
  }

  /** Every field overruns in the state of the encoder that it meets. */
  ghost predicate AllOverrun(p: Tables, e: Encoder, nvs: seq<Nv>)
    requires |p.statics| == STATIC_LENGTH && |p.huff.codes| == 257
    decreases |nvs|
  {
    nvs == [] || (Overruns(p, e, nvs[0]) && AllOverrun(p, e.(table := FieldTable(p, e, nvs[0])), nvs[1..]))
  }

  lemma {:induction false} OverrunLength(p: Tables, e: Encoder, nvs: seq<Nv>)
    requires WfStatics(p) && |p.huff.codes| == 257 && Bounded(e) && AllOverrun(p, e, nvs)
    requires forall i :: 0 <= i < |nvs| ==> Measured(nvs[i])
    ensures |FieldsBytes(p, e, nvs)| == 13 * |nvs| + TotalLength(nvs)
    decreases |nvs|
  {
    if nvs != [] {
      FieldLength(p, e, nvs[0]);
      OverrunLength(p, e.(table := FieldTable(p, e, nvs[0])), nvs[1..]);
    }
  }

  /** Fields that overrun use up what the size updates leave of their 12 octets, one octet each. */
  lemma OverrunsExactly(p: Tables, e: Encoder, nvs: seq<Nv>)
    requires WfStatics(p) && |p.huff.codes| == 257 && Bounded(e) && AllOverrun(p, Notified(e), nvs)
    requires forall i :: 0 <= i < |nvs| ==> Measured(nvs[i])
    ensures |BlockBytes(p, e, nvs)| <= Bound(nvs) <==> |UpdateBytes(e)| + |nvs| <= 12
  {
    OverrunLength(p, Notified(e), nvs);
  }

  // ---------------------------------------------------------- whatever the encoder's state

  /** What a caller can see of a field without the encoder: it overruns in no state. */
  ghost predicate Compact(p: Tables, nv: Nv)
    requires |p.huff.codes| == 257
  {
    0 <= LookupToken(p, nv.name) <= LAST_STATIC_TOKEN || !Bulky(p, nv.name) || !Bulky(p, nv.value)
  }

  lemma {:induction false} CompactNeverOverruns(p: Tables, e: Encoder, nvs: seq<Nv>)
    requires WfStatics(p) && |p.huff.codes| == 257
    requires forall i :: 0 <= i < |nvs| ==> Compact(p, nvs[i])
    ensures NoneOverruns(p, e, nvs)
    decreases |nvs|
  {
    if nvs != [] {
      assert Compact(p, nvs[0]);
      CompactNeverOverruns(p, e.(table := FieldTable(p, e, nvs[0])), nvs[1..]);
    }
  }

  /** The bound bounds every block of compact fields, in every state of the encoder. */
  lemma CompactBound(p: Tables, e: Encoder, nvs: seq<Nv>)
    requires WfStatics(p) && |p.huff.codes| == 257 && Bounded(e)
    requires forall i :: 0 <= i < |nvs| ==> Measured(nvs[i]) && Compact(p, nvs[i])
    ensures |BlockBytes(p, e, nvs)| <= Bound(nvs)
  {
    CompactNeverOverruns(p, Notified(e), nvs);
    BlockLength(p, e, nvs);
  }

  /** An encoder with nothing in its table and the longest updates to announce. */
  const TIGHT_ENCODER: Encoder := Encoder([], 0x3000_0000, 0x3000_0000, 0x2000_0000, true)

  ghost predicate BoundHolds(p: Tables, e: Encoder, nvs: seq<Nv>)
    requires WfStatics(p) && |p.huff.codes| == 257
  {
    |BlockBytes(p, e, nvs)| <= Bound(nvs)
  }

  /** The bound holds for a field in every state of the encoder exactly if the field is compact. */
  lemma BoundExactly(p: Tables, nv: Nv)
    requires WfStatics(p) && |p.huff.codes| == 257 && Measured(nv)
    ensures (forall e {:trigger BoundHolds(p, e, [nv])} :: Bounded(e) ==> BoundHolds(p, e, [nv])) <==> Compact(p, nv)
  {
    if Compact(p, nv) {
      forall e {:trigger BoundHolds(p, e, [nv])} | Bounded(e)
        ensures BoundHolds(p, e, [nv])
      {
        CompactBound(p, e, [nv]);
      }
    } else {
      TightExactly(p, TIGHT_ENCODER, nv);
      assert !BoundHolds(p, TIGHT_ENCODER, [nv]) && Bounded(TIGHT_ENCODER);
    }
  }

  // ------------------------------------------------------------------- fields that overrun

  lemma {:induction false} CodeBitsLong(h: HuffTables, c: byte, n: nat)
    requires |h.codes| == 257 && |h.codes[c]| >= 8
    ensures |CodeBits(h, Repeated(c, n))| >= 8 * n
  {
    if n > 0 {
      assert Repeated(c, n)[1..] == Repeated(c, n - 1);
      CodeBitsLong(h, c, n - 1);
    }
  }

  function Repeated(c: byte, n: nat): (r: seq<byte>)
    ensures |r| == n && forall i :: 0 <= i < n ==> r[i] == c
  {
    seq(n, _ => c)
  }

  /** Octets with long codes are written as they are. */
  lemma NotShorter(p: Tables, c: byte, n: nat)
    requires |p.huff.codes| == 257 && |p.huff.codes[c]| >= 8
    ensures !UsesHuffman(p, Repeated(c, n))
  {
    CodeBitsLong(p.huff, c, n);
    assert |BytesBits(HuffBytes(p.huff, Repeated(c, n)))| == 8 * |HuffBytes(p.huff, Repeated(c, n))|;
  }

  /** There are fields that overrun, if an octet has a code of eight bits and no static name is huge. */
  lemma OverrunExists(p: Tables, c: byte) returns (nv: Nv)
    requires WfStatics(p) && |p.huff.codes| == 257 && |p.huff.codes[c]| >= 8
    requires forall i :: 0 <= i < STATIC_LENGTH ==> |p.statics[i].field.name| < LONG
    ensures Measured(nv) && !Compact(p, nv) && |nv.name| == |nv.value| == LONG
    ensures Overruns(p, TIGHT_ENCODER, nv) && |BlockBytes(p, TIGHT_ENCODER, [nv])| == Bound([nv]) + 1
  {
    var s := Repeated(c, LONG);
    nv := Nv(s, s, true);
    NotShorter(p, c, LONG);
    assert TokenOk(p, s);
    TightUpdate(TIGHT_ENCODER);
    FieldLength(p, Notified(TIGHT_ENCODER), nv);
    SingleLength(p, TIGHT_ENCODER, nv);
  }

  /** No field of the block overruns; compact fields never do. */
  ghost predicate Spared(p: Tables, e: Encoder, nvs: seq<Nv>)
    requires |p.statics| == STATIC_LENGTH && |p.huff.codes| == 257
  {
    NoneOverruns(p, Notified(e), nvs) && forall i :: 0 <= i < |nvs| ==> Measured(nvs[i])
  }

  /** `nghttp2_hd_deflate_hd` into a buffer of `buflen` octets. */
  method DeflateHd(d: Deflater, buflen: nat, nvs: seq<Nv>) returns (rv: Status, out: seq<byte>)
    requires d.Valid() && forall i :: 0 <= i < |nvs| ==> Sized(nvs[i])
    modifies d, d.ring, d.ring.buffer
    ensures d.ring.buffer == old(d.ring.buffer) || fresh(d.ring.buffer)
    ensures d.Valid()
    ensures old(d.bad) ==> rv == HeaderCompError
    ensures !old(d.bad) ==> (rv == Success <==> |BlockBytes(d.p, old(d.View()), nvs)| <= buflen)
    ensures rv.Success? ==> out == BlockBytes(d.p, old(d.View()), nvs)
    ensures rv.Success? ==> d.View() == AfterBlock(d.p, old(d.View()), nvs) && !d.bad
    ensures !old(d.bad) && buflen >= Bound(nvs) && Spared(d.p, old(d.View()), nvs) ==> rv == Success
  {
    if Spared(d.p, d.View(), nvs) {
      BlockLength(d.p, d.View(), nvs);
    }
    var bufs := new Bufs.Wrap(buflen);
    rv := d.DeflateHdBufs(bufs, nvs);
    out := [];
    if rv.Success? {
      out := bufs.RemoveCopy();
    }
  }
}
