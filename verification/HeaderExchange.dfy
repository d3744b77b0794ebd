/**
  * A header block from one end of a connection to the other: packed into HEADERS or PUSH_PROMISE and
  * CONTINUATION frames by lib/nghttp2_frame.c, and taken apart again by the inbound states of
  * lib/nghttp2_session.c.
  */
module HeaderExchange {
  import opened Bytes
  import opened Buffers
  import opened HpackTable
  import opened Huffman
  import opened Hpack
  import opened HpackDeflater
  import opened HpackInflate
  import opened HpackInflater
  import opened HpackSync
  import opened HpackIndexing
  import opened HpackEnds
  import HF = HeaderFrames

  // ---------------------------------------------------------- what comes before the block

  /** What the first frame carries in front of the header block. */
  datatype Extra = Plain | Dependency(pri: HF.PrioritySpec) | Promise(id: nat)

  ghost predicate WfExtra(x: Extra) {
    match x
    case Plain => true
    case Dependency(pri) => HF.WfPriority(pri)
    case Promise(id) => id <= HF.MAX_STREAM_ID
  }

  /** NGHTTP2_FLAG_PRIORITY. */
  predicate HasPriority(flags: byte) {
    flags / 32 % 2 == 1
  }

  /** Type and flags of the frame say what it carries. */
  predicate Announces(hd: HF.FrameHd, x: Extra) {
    match x
    case Plain => hd.kind == 1 && hd.flags / 32 % 2 == 0
    case Dependency(_) => hd.kind == 1 && hd.flags / 32 % 2 == 1
    case Promise(_) => hd.kind == 5
  }

  function PackExtra(x: Extra): (r: seq<byte>)
    requires WfExtra(x)
    ensures |r| <= 5
  {
    match x
    case Plain => []
    case Dependency(pri) => HF.PackPriority(pri)
    case Promise(id) => HF.Uint32be(id)
  }

  function ExtraLength(hd: HF.FrameHd): nat {
    if hd.kind == HF.TYPE_PUSH_PROMISE then 4 else if HasPriority(hd.flags) then 5 else 0
  }

  /** `nghttp2_frame_unpack_headers_payload` and `nghttp2_frame_unpack_push_promise_payload`. */
  function UnpackExtra(hd: HF.FrameHd, payload: seq<byte>): Extra
    requires |payload| >= ExtraLength(hd)
  {
    if hd.kind == HF.TYPE_PUSH_PROMISE then Promise(HF.GetUint32(payload[..4]) % 0x8000_0000)
    else if HasPriority(hd.flags) then Dependency(HF.UnpackPriority(payload))
    else Plain
  }

  lemma PriorityBit(flags: byte)
    ensures HasPriority(HF.WithoutEndHeaders(flags)) == HasPriority(flags)
  {
  }

  lemma ExtraRoundTrip(hd: HF.FrameHd, x: Extra, payload: seq<byte>)
    requires WfExtra(x) && Announces(hd, x) && PackExtra(x) <= payload
    ensures ExtraLength(hd) == |PackExtra(x)| && UnpackExtra(hd, payload) == x
  {
    var rest := payload[|PackExtra(x)|..];
    assert payload == PackExtra(x) + rest;
    match x {
      case Plain =>
      case Dependency(pri) => HF.PriorityRoundTrip(pri, rest);
      case Promise(id) =>
        HF.Uint32RoundTrip(id);
        assert payload[..4] == HF.Uint32be(id);
    }
  }

  // ------------------------------------------------------------------------- receiving

  predicate Continues(f: HF.Frame, first: HF.Frame) {
    f.hd.kind == HF.TYPE_CONTINUATION && f.hd.streamId == first.hd.streamId
  }

  /** The frames of one header block, complete. */
  ghost predicate OneBlock(fs: seq<HF.Frame>)
    requires fs != []
  {
    && |fs[0].payload| >= ExtraLength(fs[0].hd)
    && (forall i {:trigger fs[i]} :: 0 < i < |fs| ==> Continues(fs[i], fs[0]))
    && (forall i {:trigger fs[i]} :: 0 <= i < |fs| ==> (HF.HasEndHeaders(fs[i].hd.flags) <==> i == |fs| - 1))
  }

  /** The header block in them. */
  ghost function BlockOf(fs: seq<HF.Frame>): seq<byte>
    requires fs != [] && |fs[0].payload| >= ExtraLength(fs[0].hd)
  {
    PayloadFirst(fs);
    HF.Payload(fs)[ExtraLength(fs[0].hd)..]
  }

  lemma {:induction false} PayloadFirst(fs: seq<HF.Frame>)
    requires fs != []
    ensures fs[0].payload <= HF.Payload(fs)
  {
    if |fs| == 1 {
      assert fs[..0] == [] && HF.Payload(fs) == fs[0].payload;
    } else {
      PayloadFirst(fs[..|fs| - 1]);
    }
  }

  lemma {:induction false} FlattenMore(chunks: seq<seq<byte>>, c: seq<byte>)
    ensures Flatten(chunks + [c]) == Flatten(chunks) + c
  {
    if chunks == [] {
      assert [c][1..] == [] && [] + [c] == [c] && Flatten([c]) == c + Flatten([]);
    } else {
      assert (chunks + [c])[1..] == chunks[1..] + [c];
      FlattenMore(chunks[1..], c);
    }
  }

  lemma BlockMore(fs: seq<HF.Frame>, i: nat)
    requires 0 < i < |fs| && |fs[0].payload| >= ExtraLength(fs[0].hd)
    ensures BlockOf(fs[..i + 1]) == BlockOf(fs[..i]) + fs[i].payload
  {
    assert fs[..i + 1][..i] == fs[..i];
    PayloadFirst(fs[..i]);
    PayloadFirst(fs[..i + 1]);
  }

  lemma BlockFirst(fs: seq<HF.Frame>)
    requires fs != [] && |fs[0].payload| >= ExtraLength(fs[0].hd)
    ensures BlockOf(fs[..1]) == Flatten([fs[0].payload[ExtraLength(fs[0].hd)..]])
  {
    FlattenMore([], fs[0].payload[ExtraLength(fs[0].hd)..]);
    assert fs[..1][..0] == [] && HF.Payload(fs[..1]) == fs[0].payload;
    assert [] + [fs[0].payload[ExtraLength(fs[0].hd)..]] == [fs[0].payload[ExtraLength(fs[0].hd)..]];
  }

  /** The pieces of the header block in a chain of frames, unless it is not one. */
  method Pieces(fs: seq<HF.Frame>) returns (ok: bool, chunks: seq<seq<byte>>)
    requires fs != []
    ensures ok <==> OneBlock(fs)
    ensures ok ==> chunks != [] && Flatten(chunks) == BlockOf(fs)
  {
    chunks := [];
    if |fs[0].payload| < ExtraLength(fs[0].hd) {
      return false, chunks;
    }
    chunks := [fs[0].payload[ExtraLength(fs[0].hd)..]];
    BlockFirst(fs);
    for i := 1 to |fs|
      invariant chunks != [] && Flatten(chunks) == BlockOf(fs[..i])
      invariant forall j {:trigger fs[j]} :: 0 < j < i ==> Continues(fs[j], fs[0])
      invariant forall j {:trigger fs[j]} :: 0 <= j < i - 1 ==> !HF.HasEndHeaders(fs[j].hd.flags)
    {
      if HF.HasEndHeaders(fs[i - 1].hd.flags) || !Continues(fs[i], fs[0]) {
        return false, chunks;
      }
      FlattenMore(chunks, fs[i].payload);
      BlockMore(fs, i);
      chunks := chunks + [fs[i].payload];
    }
    assert fs[..|fs|] == fs;
    ok := HF.HasEndHeaders(fs[|fs| - 1].hd.flags);
  }

  /**
    * A chain of frames received: it is accepted exactly if it is one complete header block that the
    * octet machine accepts, however the block is cut into frames.
    */
  method ReceiveHeaderBlock(dec: Inflater, fs: seq<HF.Frame>) returns (ok: bool, extra: Extra, fields: seq<Header>)
    requires dec.Valid() && !dec.bad && fs != []
    modifies dec
    ensures ok <==> OneBlock(fs) && var run := Run(dec.p, old(dec.d), BlockOf(fs)); run.RunOk? && MayEnd(run.d)
    ensures ok ==> var run := Run(dec.p, old(dec.d), BlockOf(fs));
                   && extra == UnpackExtra(fs[0].hd, fs[0].payload) && fields == run.out
                   && dec.Valid() && !dec.bad && dec.d == EndHeaders(run.d)
  {
    extra, fields := Plain, [];
    var chunks;
    ok, chunks := Pieces(fs);
    if ok {
      extra := UnpackExtra(fs[0].hd, fs[0].payload);
      ok, fields := dec.InflateChunks(chunks, true);
    }
  }

  // -------------------------------------------------------------------------- both ends

  /** What the packing side promises is what the receiving side asks for. */
  lemma ChainIsBlock(fs: seq<HF.Frame>, hd: HF.FrameHd, extra: Extra, block: seq<byte>, max: nat)
    requires WfExtra(extra) && Announces(hd, extra)
    requires HF.HeaderChain(fs, hd, PackExtra(extra) + block, max) && PackExtra(extra) <= fs[0].payload
    ensures OneBlock(fs) && BlockOf(fs) == block && UnpackExtra(fs[0].hd, fs[0].payload) == extra
  {
    assert HF.Chained(fs[0], hd, 0, |fs|, max);
    PriorityBit(fs[0].hd.flags);
    PriorityBit(hd.flags);
    ExtraRoundTrip(fs[0].hd, extra, fs[0].payload);
    forall i {:trigger fs[i]} | 0 <= i < |fs|
      ensures i > 0 ==> Continues(fs[i], fs[0])
      ensures HF.HasEndHeaders(fs[i].hd.flags) <==> i == |fs| - 1
    {
      assert HF.Chained(fs[i], hd, i, |fs|, max);
    }
  }

  /** The frames of a header block out of the buffers. */
  method SendBlock(enc: Deflater, bufs: Bufs, hd: HF.FrameHd, extra: Extra, nvs: seq<Nv>)
    returns (ok: bool, wire: seq<byte>, ghost fs: seq<HF.Frame>)
    requires enc.Valid() && !enc.bad
    requires bufs.Valid() && bufs.cur == 0 && HF.Empty(bufs.chunks, bufs.chunkLength, bufs.offset)
    requires WfExtra(extra) && Announces(hd, extra) && |PackExtra(extra)| <= bufs.chunkLength - bufs.offset
    requires hd.streamId <= HF.MAX_STREAM_ID && HF.HasEndHeaders(hd.flags)
    requires forall i :: 0 <= i < |nvs| ==> Sized(nvs[i])
    modifies enc, enc.ring, enc.ring.buffer, bufs
    ensures enc.ring.buffer == old(enc.ring.buffer) || fresh(enc.ring.buffer)
    ensures ok <==> |PackExtra(extra)| + |BlockBytes(enc.p, old(enc.View()), nvs)| <= old(bufs.Room())
    ensures ok ==> HF.ParseFrames(wire) == HF.Some(fs) && fs != [] && OneBlock(fs)
    ensures ok ==> BlockOf(fs) == BlockBytes(enc.p, old(enc.View()), nvs)
    ensures ok ==> UnpackExtra(fs[0].hd, fs[0].payload) == extra
    ensures ok ==> enc.Valid() && !enc.bad && enc.View() == AfterBlock(enc.p, old(enc.View()), nvs)
  {
    wire := [];
    ok, fs := HF.PackHeaderBlock(bufs, enc, hd, PackExtra(extra), nvs);
    if ok {
      ChainIsBlock(fs, hd, extra, BlockBytes(enc.p, old(enc.View()), nvs), bufs.chunkLength - bufs.offset);
      wire := bufs.RemoveCopy();
    }
  }

  /** The frames of a header block into the decoder. */
  method ReceiveBlock(dec: Inflater, wire: seq<byte>, ghost fs: seq<HF.Frame>, ghost e: Encoder, ghost nvs: seq<Nv>)
    returns (ok: bool, extra: Extra, fields: seq<Header>)
    requires dec.Valid() && !dec.bad && WfStatics(dec.p) && WellFormed(dec.p.huff) && InStep(e, dec.d)
    requires HF.ParseFrames(wire) == HF.Some(fs) && fs != [] && OneBlock(fs)
    requires BlockOf(fs) == BlockBytes(dec.p, e, nvs)
    modifies dec
    ensures ok <==> FieldsFit(dec.p, Notified(e), nvs)
    ensures ok ==> extra == UnpackExtra(fs[0].hd, fs[0].payload) && fields == ExpectedFields(dec.p, nvs)
    ensures ok ==> dec.Valid() && !dec.bad && Understood(dec.p, e, nvs, dec.d)
    ensures ok && Named(dec.p) ==> ReadBack(nvs, fields)
  {
    BlockUnderstood(dec.p, e, dec.d, nvs);
    ok, extra, fields := ReceiveHeaderBlock(dec, HF.ParseFrames(wire).value);
    if Named(dec.p) {
      ExpectedReadBack(dec.p, nvs);
    }
  }

  /**
    * A header block on the wire: packed, cut into frames, parsed and inflated.  It arrives exactly if
    * the buffers hold it and no string is over the decoder's limit; and then the dependency or the
    * promised stream and every field come back, and the two ends are in step again.
    */
  method Transfer(enc: Deflater, dec: Inflater, bufs: Bufs, hd: HF.FrameHd, extra: Extra, nvs: seq<Nv>)
    returns (ok: bool, extra': Extra, fields: seq<Header>)
    requires Paired(enc, dec) && bufs.Valid() && bufs.cur == 0 && HF.Empty(bufs.chunks, bufs.chunkLength, bufs.offset)
    requires WfExtra(extra) && Announces(hd, extra) && |PackExtra(extra)| <= bufs.chunkLength - bufs.offset
    requires hd.streamId <= HF.MAX_STREAM_ID && HF.HasEndHeaders(hd.flags)
    requires forall i :: 0 <= i < |nvs| ==> Sized(nvs[i])
    modifies enc, enc.ring, enc.ring.buffer, dec, bufs
    ensures enc.ring.buffer == old(enc.ring.buffer) || fresh(enc.ring.buffer)
    ensures ok <==> |PackExtra(extra)| + |BlockBytes(enc.p, old(enc.View()), nvs)| <= old(bufs.Room()) &&
                    FieldsFit(enc.p, Notified(old(enc.View())), nvs)
    ensures ok ==> extra' == extra && fields == ExpectedFields(enc.p, nvs) && (Named(enc.p) ==> ReadBack(nvs, fields))
    ensures ok ==> Paired(enc, dec) && Fields(enc.entries) == dec.d.table && enc.max == dec.d.max
  {
    ghost var e := enc.View();
    extra', fields := Plain, [];
    var wire;
    ghost var fs;
    ok, wire, fs := SendBlock(enc, bufs, hd, extra, nvs);
    if ok {
      ok, extra', fields := ReceiveBlock(dec, wire, fs, e, nvs);
    }
  }
}
