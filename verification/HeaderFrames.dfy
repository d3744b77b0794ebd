/**
  * HEADERS and PUSH_PROMISE frames with their CONTINUATION frames, as lib/nghttp2_frame.c packs them
  * into a chain of buffers (RFC 7540 sections 4.1, 6.2, 6.6 and 6.10).
  */
module HeaderFrames {
  import opened Bytes
  import opened Buffers
  import opened Hpack
  import opened HpackDeflater

  const HDLEN: nat := 9
  const MAX_LENGTH: nat := 0xff_ffff
  const MAX_STREAM_ID: nat := 0x7fff_ffff

  const TYPE_HEADERS: byte := 1
  const TYPE_PUSH_PROMISE: byte := 5
  const TYPE_CONTINUATION: byte := 9
  const FLAG_END_HEADERS: byte := 4

  /** `nghttp2_frame_hd`. */
  datatype FrameHd = FrameHd(length: nat, kind: byte, flags: byte, streamId: nat)

  datatype Frame = Frame(hd: FrameHd, payload: seq<byte>)

  ghost predicate WfHd(hd: FrameHd) {
    hd.length <= MAX_LENGTH && hd.streamId <= MAX_STREAM_ID
  }

  // ---------------------------------------------------------------------- frame headers

  function Uint32be(n: nat): (r: seq<byte>)
    requires n < 0x1_0000_0000
    ensures |r| == 4
  {
    [n / 0x100_0000, n / 0x1_0000 % 256, n / 0x100 % 256, n % 256]
  }

  function GetUint32(b: seq<byte>): nat
    requires |b| == 4
  {
    (b[0] as int) * 0x100_0000 + (b[1] as int) * 0x1_0000 + (b[2] as int) * 0x100 + b[3] as int
  }

  lemma Uint32RoundTrip(n: nat)
    requires n < 0x1_0000_0000
    ensures GetUint32(Uint32be(n)) == n
  {
    var a, b := n / 0x1_0000, n % 0x1_0000;
    assert n / 0x100_0000 == a / 256 && n / 0x1_0000 % 256 == a % 256;
    assert n / 0x100 % 256 == b / 256;
  }

  /** `nghttp2_frame_pack_frame_hd`: the type overwrites the low octet of the shifted length. */
  function PackHd(hd: FrameHd): (r: seq<byte>)
    requires WfHd(hd)
    ensures |r| == HDLEN
  {
    Uint32be(hd.length * 256)[..3] + [hd.kind, hd.flags] + Uint32be(hd.streamId)
  }

  /** `nghttp2_frame_unpack_frame_hd`. */
  function UnpackHd(b: seq<byte>): FrameHd
    requires |b| == HDLEN
  {
    FrameHd(GetUint32(b[..4]) / 256, b[3], b[4], GetUint32(b[5..]) % 0x8000_0000)
  }

  lemma HdRoundTrip(hd: FrameHd)
    requires WfHd(hd)
    ensures UnpackHd(PackHd(hd)) == hd
  {
    var b := PackHd(hd);
    var n := hd.length * 256;
    Uint32RoundTrip(n);
    Uint32RoundTrip(hd.streamId);
    assert b[5..] == Uint32be(hd.streamId);
    var c := Uint32be(n);
    assert b[..4] == c[..3] + [hd.kind];
    assert c[3] == n % 256 == 0;
    assert GetUint32(b[..4]) == GetUint32(c) + hd.kind;
  }

  /** Four octets hold a number in network order. */
  lemma Uint32Layout(n: nat)
    requires n < 0x1_0000_0000
    ensures var b := Uint32be(n);
            (b[0] as int) * 0x100_0000 + (b[1] as int) * 0x1_0000 + (b[2] as int) * 0x100 + b[3] as int == n
  {
    Uint32RoundTrip(n);
  }

  /** The format of section 4.1 of RFC 7540: length, type, flags, and the stream, all in network order. */
  lemma HdLayout(hd: FrameHd)
    requires WfHd(hd)
    ensures var b := PackHd(hd);
            && (b[0] as int) * 0x1_0000 + (b[1] as int) * 0x100 + b[2] as int == hd.length
            && b[3] == hd.kind && b[4] == hd.flags
            && (b[5] as int) * 0x100_0000 + (b[6] as int) * 0x1_0000 + (b[7] as int) * 0x100 + b[8] as int ==
               hd.streamId
  {
    var n := hd.length * 256;
    Uint32Layout(n);
    Uint32Layout(hd.streamId);
    LastOctet(hd.length);
  }

  lemma LastOctet(n: nat)
    requires n <= MAX_LENGTH
    ensures Uint32be(n * 256)[3] == 0
  {
  }

  /** `nghttp2_priority_spec`. */
  datatype PrioritySpec = PrioritySpec(streamId: nat, weight: nat, exclusive: bool)

  ghost predicate WfPriority(pri: PrioritySpec) {
    pri.streamId <= MAX_STREAM_ID && 1 <= pri.weight <= 256
  }

  /** `nghttp2_frame_pack_priority_spec`. */
  function PackPriority(pri: PrioritySpec): (r: seq<byte>)
    requires WfPriority(pri)
    ensures |r| == 5
  {
    Uint32be(pri.streamId + if pri.exclusive then 0x8000_0000 else 0) + [pri.weight - 1]
  }

  /** `nghttp2_frame_unpack_priority_spec`. */
  function UnpackPriority(b: seq<byte>): PrioritySpec
    requires |b| >= 5
  {
    PrioritySpec(GetUint32(b[..4]) % 0x8000_0000, b[4] as int + 1, b[0] >= 128)
  }

  lemma PriorityRoundTrip(pri: PrioritySpec, rest: seq<byte>)
    requires WfPriority(pri)
    ensures UnpackPriority(PackPriority(pri) + rest) == pri
  {
    var n := pri.streamId + if pri.exclusive then 0x8000_0000 else 0;
    Uint32RoundTrip(n);
    assert (PackPriority(pri) + rest)[..4] == Uint32be(n);
  }

  lemma TopBit(n: nat, e: nat)
    requires n < 0x8000_0000 && e <= 1
    ensures n / 0x100_0000 < 128 && (n + e * 0x8000_0000) / 0x100_0000 == n / 0x100_0000 + e * 128
  {
  }

  /** The format of section 6.2 of RFC 7540: a bit for exclusive, the stream, and the weight less one. */
  lemma PriorityLayout(pri: PrioritySpec)
    requires WfPriority(pri)
    ensures var b := PackPriority(pri);
            && (b[0] >= 128 <==> pri.exclusive) && b[4] == pri.weight - 1
            && (b[0] % 128 as int) * 0x100_0000 + (b[1] as int) * 0x1_0000 + (b[2] as int) * 0x100 + b[3] as int ==
               pri.streamId
  {
    Uint32Layout(pri.streamId + if pri.exclusive then 0x8000_0000 else 0);
    TopBit(pri.streamId, if pri.exclusive then 1 else 0);
  }

  // -------------------------------------------------------------------- streams of frames

  function FrameBytes(f: Frame): seq<byte>
    requires WfHd(f.hd)
  {
    PackHd(f.hd) + f.payload
  }

  ghost predicate WfFrame(f: Frame) {
    WfHd(f.hd) && f.hd.length == |f.payload|
  }

  ghost predicate WfFrames(fs: seq<Frame>) {
    forall i {:trigger fs[i]} :: 0 <= i < |fs| ==> WfFrame(fs[i])
  }

  function Wire(fs: seq<Frame>): seq<byte>
    requires WfFrames(fs)
  {
    if fs == [] then [] else FrameBytes(fs[0]) + Wire(fs[1..])
  }

  lemma {:induction false} WireMore(fs: seq<Frame>, f: Frame)
    requires WfFrames(fs) && WfFrame(f)
    ensures Wire(fs + [f]) == Wire(fs) + FrameBytes(f)
  {
    if fs == [] {
      assert [f][1..] == [] && fs + [f] == [f];
    } else {
      assert (fs + [f])[0] == fs[0] && (fs + [f])[1..] == fs[1..] + [f];
      WireMore(fs[1..], f);
      ConcatAssoc(FrameBytes(fs[0]), Wire(fs[1..]), FrameBytes(f));
    }
  }

  datatype Option<T> = None | Some(value: T)

  /** A receiver that cuts octets into frames. */
  function ParseFrames(b: seq<byte>): Option<seq<Frame>>
    decreases |b|
  {
    if b == [] then Some([])
    else if |b| < HDLEN then None
    else
      var hd := UnpackHd(b[..HDLEN]);
      if |b| < HDLEN + hd.length then None
      else
        match ParseFrames(b[HDLEN + hd.length..])
        case None => None
        case Some(fs) => Some([Frame(hd, b[HDLEN..HDLEN + hd.length])] + fs)
  }

  /** What is sent is what is parsed. */
  lemma {:induction false} WireParses(fs: seq<Frame>)
    requires WfFrames(fs)
    ensures ParseFrames(Wire(fs)) == Some(fs)
  {
    if fs != [] {
      var f, rest := fs[0], Wire(fs[1..]);
      var b := Wire(fs);
      HdRoundTrip(f.hd);
      assert b == PackHd(f.hd) + f.payload + rest;
      assert b[..HDLEN] == PackHd(f.hd);
      assert b[HDLEN..HDLEN + f.hd.length] == f.payload;
      assert b[HDLEN + f.hd.length..] == rest;
      WireParses(fs[1..]);
      assert [f] + fs[1..] == fs;
    }
  }

  // ------------------------------------------------------------------ headers in the chain

  predicate HasEndHeaders(flags: byte) {
    flags / 4 % 2 == 1
  }

  function WithoutEndHeaders(flags: byte): byte {
    if HasEndHeaders(flags) then flags - 4 else flags
  }

  /** The header of frame `i` out of `n`, with a payload of `length` octets. */
  function HdOf(hd: FrameHd, i: nat, n: nat, length: nat): FrameHd {
    if i == 0 then hd.(length := length, flags := if n == 1 then hd.flags else WithoutEndHeaders(hd.flags))
    else FrameHd(length, TYPE_CONTINUATION, if i + 1 == n then FLAG_END_HEADERS else 0, hd.streamId)
  }

  /** A chunk that can take a frame header in front of its data. */
  ghost predicate Sendable(c: Chunk) {
    WfChunk(c) && c.pos >= HDLEN && c.last - c.pos <= MAX_LENGTH
  }

  ghost predicate AllSendable(cs: seq<Chunk>) {
    forall i {:trigger cs[i]} :: 0 <= i < |cs| ==> Sendable(cs[i])
  }

  function WithHd(c: Chunk, hd: FrameHd): Chunk
    requires WfChunk(c) && c.pos >= HDLEN && WfHd(hd)
  {
    Chunk(c.mem[..c.pos - HDLEN] + PackHd(hd) + c.mem[c.pos..], c.pos - HDLEN, c.last)
  }

  lemma WithHdData(c: Chunk, hd: FrameHd)
    requires WfChunk(c) && c.pos >= HDLEN && WfHd(hd)
    ensures WfChunk(WithHd(c, hd)) && Data(WithHd(c, hd)) == PackHd(hd) + Data(c)
    ensures |WithHd(c, hd).mem| == |c.mem|
  {
    var m := WithHd(c, hd).mem;
    assert m[c.pos - HDLEN..c.last] == PackHd(hd) + c.mem[c.pos..c.last];
  }

  /** The frame that chunk `i` becomes. */
  ghost function FrameAt(hd: FrameHd, cs: seq<Chunk>, i: nat): Frame
    requires i < |cs| && WfChunk(cs[i])
  {
    Frame(HdOf(hd, i, |cs|, |Data(cs[i])|), Data(cs[i]))
  }

  ghost function Frames(hd: FrameHd, cs: seq<Chunk>, n: nat): (r: seq<Frame>)
    requires AllSendable(cs) && n <= |cs| && hd.streamId <= MAX_STREAM_ID
    ensures |r| == n && WfFrames(r) && forall i :: 0 <= i < n ==> r[i] == FrameAt(hd, cs, i)
  {
    if n == 0 then [] else Frames(hd, cs, n - 1) + [FrameAt(hd, cs, n - 1)]
  }

  /** The payloads one after the other. */
  function Payload(fs: seq<Frame>): seq<byte> {
    if fs == [] then [] else Payload(fs[..|fs| - 1]) + fs[|fs| - 1].payload
  }

  ghost predicate WfChunks(cs: seq<Chunk>) {
    forall i {:trigger cs[i]} :: 0 <= i < |cs| ==> WfChunk(cs[i])
  }

  lemma PayloadMore(fs: seq<Frame>, f: Frame)
    ensures Payload(fs + [f]) == Payload(fs) + f.payload
  {
    assert (fs + [f])[..|fs|] == fs;
  }

  lemma {:induction false} FramesPayload(hd: FrameHd, cs: seq<Chunk>, n: nat)
    requires AllSendable(cs) && n <= |cs| && hd.streamId <= MAX_STREAM_ID
    ensures WfChunks(cs[..n]) && Payload(Frames(hd, cs, n)) == Joined(cs[..n])
  {
    if n > 0 {
      FramesPayload(hd, cs, n - 1);
      PayloadMore(Frames(hd, cs, n - 1), FrameAt(hd, cs, n - 1));
      JoinedStep(cs, n - 1);
    }
  }

  /** The first `n` chunks have their headers in front. */
  ghost predicate Stamped(hd: FrameHd, cs: seq<Chunk>, cs': seq<Chunk>, n: nat)
    requires AllSendable(cs) && n <= |cs| <= |cs'| && hd.streamId <= MAX_STREAM_ID
  {
    forall i {:trigger cs'[i]} :: 0 <= i < n ==> cs'[i] == WithHd(cs[i], FrameAt(hd, cs, i).hd)
  }

  /** The rest are as they were. */
  ghost predicate Stamping(hd: FrameHd, cs: seq<Chunk>, cs': seq<Chunk>, n: nat)
    requires AllSendable(cs) && n <= |cs| && hd.streamId <= MAX_STREAM_ID
  {
    && |cs| <= |cs'| && Stamped(hd, cs, cs', n)
    && (forall i {:trigger cs'[i]} :: n <= i < |cs| ==> cs'[i] == cs[i])
  }

  lemma {:induction false} StampedWire(hd: FrameHd, cs: seq<Chunk>, cs': seq<Chunk>, n: nat)
    requires AllSendable(cs) && n <= |cs| <= |cs'| && hd.streamId <= MAX_STREAM_ID && Stamped(hd, cs, cs', n)
    ensures WfChunks(cs'[..n]) && Joined(cs'[..n]) == Wire(Frames(hd, cs, n))
  {
    if n > 0 {
      StampedWire(hd, cs, cs', n - 1);
      WithHdData(cs[n - 1], FrameAt(hd, cs, n - 1).hd);
      WireMore(Frames(hd, cs, n - 1), FrameAt(hd, cs, n - 1));
      JoinedStep(cs', n - 1);
    }
  }

  lemma JoinedStep(cs: seq<Chunk>, n: nat)
    requires n < |cs| && WfChunks(cs[..n]) && WfChunk(cs[n])
    ensures WfChunks(cs[..n + 1]) && Joined(cs[..n + 1]) == Joined(cs[..n]) + Data(cs[n])
  {
    assert cs[..n + 1][..n] == cs[..n] && cs[..n + 1][n] == cs[n];
    forall i {:trigger cs[..n + 1][i]} | 0 <= i < n + 1
      ensures WfChunk(cs[..n + 1][i])
    {
      assert i < n ==> cs[..n][i] == cs[i];
    }
  }

  /** `frame_pack_headers_shared`. */
  method PackShared(bufs: Bufs, hd: FrameHd, ghost cs: seq<Chunk>)
    requires bufs.Valid() && cs == bufs.chunks[..bufs.cur + 1] && AllSendable(cs) && hd.streamId <= MAX_STREAM_ID
    modifies bufs
    ensures bufs.Valid() && bufs.cur == old(bufs.cur) && bufs.Content() == Wire(Frames(hd, cs, |cs|))
  {
    var n := bufs.cur + 1;
    StampChunk(bufs, 0, hd, cs);
    var i := 1;
    while i < n
      invariant 1 <= i <= n && bufs.Valid() && bufs.cur + 1 == n && Stamping(hd, cs, bufs.chunks, i)
    {
      StampChunk(bufs, i, hd, cs);
      i := i + 1;
    }
    StampedWire(hd, cs, bufs.chunks, n);
    JoinedMore(bufs.chunks, n - 1);
  }

  /** One frame header is written in front of the data of chunk `i`. */
  method StampChunk(bufs: Bufs, i: nat, hd: FrameHd, ghost cs: seq<Chunk>)
    requires bufs.Valid() && i <= bufs.cur && |cs| == bufs.cur + 1 && AllSendable(cs) && hd.streamId <= MAX_STREAM_ID
    requires Stamping(hd, cs, bufs.chunks, i)
    modifies bufs
    ensures bufs.Valid() && bufs.cur == old(bufs.cur) && Stamping(hd, cs, bufs.chunks, i + 1)
  {
    var fhd := HdOf(hd, i, bufs.cur + 1, bufs.chunks[i].last - bufs.chunks[i].pos);
    WithHdData(cs[i], fhd);
    bufs.chunks := bufs.chunks[i := WithHd(bufs.chunks[i], fhd)];
  }

  // ------------------------------------------------------------------- a whole header block

  /** Frame `i` of a header block in `n` frames. */
  ghost predicate Chained(f: Frame, hd: FrameHd, i: nat, n: nat, max: nat) {
    && |f.payload| <= max && f.hd.streamId == hd.streamId
    && (f.hd.flags / 4 % 2 == 1 <==> i + 1 == n)
    && (if i == 0 then f.hd.kind == hd.kind && f.hd.flags == hd.flags - (if n == 1 then 0 else 4)
        else f.hd.kind == 9 && f.hd.flags == if i + 1 == n then 4 else 0)
  }

  /**
    * One first frame followed by CONTINUATION frames only, END_HEADERS on exactly the last, all on the
    * same stream, none longer than `max`, and `data` in their payloads.
    */
  ghost predicate HeaderChain(fs: seq<Frame>, hd: FrameHd, data: seq<byte>, max: nat) {
    && fs != [] && Payload(fs) == data
    && forall i {:trigger fs[i]} :: 0 <= i < |fs| ==> Chained(fs[i], hd, i, |fs|, max)
  }

  lemma FrameChained(hd: FrameHd, cs: seq<Chunk>, i: nat, max: nat)
    requires i < |cs| && WfChunk(cs[i]) && cs[i].last - cs[i].pos <= max && HasEndHeaders(hd.flags)
    ensures Chained(FrameAt(hd, cs, i), hd, i, |cs|, max)
  {
  }

  lemma FramesChain(hd: FrameHd, cs: seq<Chunk>, max: nat)
    requires cs != [] && AllSendable(cs) && hd.streamId <= MAX_STREAM_ID && HasEndHeaders(hd.flags)
    requires forall i {:trigger cs[i]} :: 0 <= i < |cs| ==> cs[i].last - cs[i].pos <= max
    ensures WfChunks(cs) && HeaderChain(Frames(hd, cs, |cs|), hd, Joined(cs), max)
  {
    FramesPayload(hd, cs, |cs|);
    assert cs[..|cs|] == cs;
    var fs := Frames(hd, cs, |cs|);
    forall i {:trigger fs[i]} | 0 <= i < |fs|
      ensures Chained(fs[i], hd, i, |fs|, max)
    {
      FrameChained(hd, cs, i, max);
    }
  }

  /** Buffers that hold nothing yet, as `nghttp2_bufs_reset` leaves them. */
  ghost predicate Empty(chunks: seq<Chunk>, chunkLength: nat, offset: nat) {
    && HDLEN <= offset <= chunkLength <= offset + MAX_LENGTH
    && forall i {:trigger chunks[i]} :: 0 <= i < |chunks| ==>
         chunks[i].pos == chunks[i].last == offset && |chunks[i].mem| == chunkLength
  }

  /** Buffers like that, with the first `n` octets of the payload left free. */
  ghost predicate Skipped(cs: seq<Chunk>, chunkLength: nat, offset: nat, n: nat) {
    && HDLEN <= offset <= chunkLength <= offset + MAX_LENGTH
    && cs != [] && WfChunks(cs) && cs[0].pos == offset + n
    && forall i {:trigger cs[i]} :: 0 <= i < |cs| ==> |cs[i].mem| == chunkLength && (i > 0 ==> cs[i].pos == offset)
  }

  method SkipPrefix(bufs: Bufs, n: nat)
    requires bufs.Valid() && bufs.cur == 0 && Empty(bufs.chunks, bufs.chunkLength, bufs.offset)
    requires n <= bufs.chunkLength - bufs.offset
    modifies bufs
    ensures bufs.Valid() && bufs.cur == 0 && bufs.Content() == [] && bufs.Room() == old(bufs.Room()) - n
    ensures Skipped(bufs.chunks, bufs.chunkLength, bufs.offset, n)
  {
    var c := bufs.chunks[0];
    bufs.chunks := bufs.chunks[0 := c.(pos := c.pos + n, last := c.pos + n)];
    assert bufs.chunks[1..] == old(bufs.chunks)[1..];
  }

  /** The octets in front of the data of the first chunk are filled in. */
  function WithPrefix(c: Chunk, prefix: seq<byte>): Chunk
    requires WfChunk(c) && |prefix| <= c.pos
  {
    Chunk(c.mem[..c.pos - |prefix|] + prefix + c.mem[c.pos..], c.pos - |prefix|, c.last)
  }

  lemma Middle(a: seq<byte>, b: seq<byte>, c: seq<byte>, k: nat)
    requires k <= |c|
    ensures (a + b + c)[|a|..|a| + |b| + k] == b + c[..k]
  {
  }

  lemma WithPrefixData(c: Chunk, prefix: seq<byte>)
    requires WfChunk(c) && |prefix| <= c.pos
    ensures WfChunk(WithPrefix(c, prefix)) && Data(WithPrefix(c, prefix)) == prefix + Data(c)
    ensures |WithPrefix(c, prefix).mem| == |c.mem|
  {
    Middle(c.mem[..c.pos - |prefix|], prefix, c.mem[c.pos..], c.last - c.pos);
    assert c.mem[c.pos..][..c.last - c.pos] == c.mem[c.pos..c.last];
  }

  lemma {:induction false} PrefixJoined(cs: seq<Chunk>, prefix: seq<byte>, n: nat)
    requires WfChunks(cs) && 0 < n <= |cs| && |prefix| <= cs[0].pos
    ensures var cs' := cs[0 := WithPrefix(cs[0], prefix)];
            WfChunks(cs[..n]) && WfChunks(cs'[..n]) && Joined(cs'[..n]) == prefix + Joined(cs[..n])
  {
    var cs' := cs[0 := WithPrefix(cs[0], prefix)];
    WithPrefixData(cs[0], prefix);
    JoinedMore(cs, n - 1);
    JoinedMore(cs', n - 1);
    if n == 1 {
      assert cs[..0] == [] && cs'[..0] == [];
    } else {
      PrefixJoined(cs, prefix, n - 1);
      ConcatAssoc(prefix, Joined(cs[..n - 1]), Data(cs[n - 1]));
    }
  }

  /** After the deflater the chunks can take their headers. */
  lemma GrownSendable(cs0: seq<Chunk>, cs: seq<Chunk>, chunkLength: nat, offset: nat, prefix: seq<byte>)
    requires Skipped(cs0, chunkLength, offset, |prefix|) && WfChunks(cs) && Grown(cs0, cs, chunkLength, offset)
    ensures |prefix| <= cs[0].pos
    ensures var cs' := cs[0 := WithPrefix(cs[0], prefix)];
            AllSendable(cs') &&
            forall i {:trigger cs'[i]} :: 0 <= i < |cs'| ==> cs'[i].last - cs'[i].pos <= chunkLength - offset
  {
    assert ChunkGrown(cs0[0], cs[0]);
    var cs' := cs[0 := WithPrefix(cs[0], prefix)];
    WithPrefixData(cs[0], prefix);
    forall i {:trigger cs'[i]} | 0 <= i < |cs'|
      ensures Sendable(cs'[i]) && cs'[i].last - cs'[i].pos <= chunkLength - offset
    {
      if 0 < i < |cs0| {
        assert ChunkGrown(cs0[i], cs[i]);
      }
    }
  }

  /** The frames that a header block in the chunks `cs` becomes. */
  lemma PrefixedFrames(cs0: seq<Chunk>, cs: seq<Chunk>, chunkLength: nat, offset: nat, prefix: seq<byte>, n: nat,
                       hd: FrameHd, ready: seq<Chunk>)
    returns (fs: seq<Frame>)
    requires Skipped(cs0, chunkLength, offset, |prefix|) && WfChunks(cs) && Grown(cs0, cs, chunkLength, offset)
    requires 0 < n <= |cs| && hd.streamId <= MAX_STREAM_ID && HasEndHeaders(hd.flags) && |prefix| <= cs[0].pos
    requires ready == cs[0 := WithPrefix(cs[0], prefix)][..n] && AllSendable(ready)
    ensures WfChunks(cs[..n]) && fs == Frames(hd, ready, |ready|)
    ensures HeaderChain(fs, hd, prefix + Joined(cs[..n]), chunkLength - offset) && prefix <= fs[0].payload
    ensures WfFrames(fs) && ParseFrames(Wire(fs)) == Some(fs)
  {
    GrownSendable(cs0, cs, chunkLength, offset, prefix);
    WithPrefixData(cs[0], prefix);
    PrefixJoined(cs, prefix, n);
    fs := Frames(hd, ready, n);
    FramesChain(hd, ready, chunkLength - offset);
    WireParses(fs);
  }

  /** The prefix is written in front of the first chunk's data. */
  method PutPrefix(bufs: Bufs, prefix: seq<byte>)
    requires bufs.Valid() && |prefix| <= bufs.chunks[0].pos && WfChunk(WithPrefix(bufs.chunks[0], prefix))
    modifies bufs
    ensures bufs.Valid() && bufs.cur == old(bufs.cur)
    ensures bufs.chunks == old(bufs.chunks)[0 := WithPrefix(old(bufs.chunks[0]), prefix)]
  {
    bufs.chunks := bufs.chunks[0 := WithPrefix(bufs.chunks[0], prefix)];
  }

  /** The prefix and the frame headers. */
  method PackReady(bufs: Bufs, hd: FrameHd, prefix: seq<byte>, ghost cs0: seq<Chunk>) returns (ghost ready: seq<Chunk>)
    requires bufs.Valid() && Skipped(cs0, bufs.chunkLength, bufs.offset, |prefix|)
    requires Grown(cs0, bufs.chunks, bufs.chunkLength, bufs.offset) && hd.streamId <= MAX_STREAM_ID
    modifies bufs
    ensures |prefix| <= old(bufs.chunks[0].pos)
    ensures ready == old(bufs.chunks)[0 := WithPrefix(old(bufs.chunks[0]), prefix)][..old(bufs.cur) + 1]
    ensures bufs.Valid() && AllSendable(ready) && bufs.Content() == Wire(Frames(hd, ready, |ready|))
  {
    GrownSendable(cs0, bufs.chunks, bufs.chunkLength, bufs.offset, prefix);
    WithPrefixData(bufs.chunks[0], prefix);
    ready := bufs.chunks[0 := WithPrefix(bufs.chunks[0], prefix)][..bufs.cur + 1];
    PutPrefix(bufs, prefix);
    PackShared(bufs, hd, ready);
  }

  /** The prefix and the frame headers, around a header block that is in the buffers. */
  method PackPrefixed(bufs: Bufs, hd: FrameHd, prefix: seq<byte>, ghost cs0: seq<Chunk>) returns (ghost fs: seq<Frame>)
    requires bufs.Valid() && Skipped(cs0, bufs.chunkLength, bufs.offset, |prefix|)
    requires Grown(cs0, bufs.chunks, bufs.chunkLength, bufs.offset)
    requires hd.streamId <= MAX_STREAM_ID && HasEndHeaders(hd.flags)
    modifies bufs
    ensures bufs.Valid() && HeaderChain(fs, hd, prefix + old(bufs.Content()), bufs.chunkLength - bufs.offset)
    ensures prefix <= fs[0].payload
    ensures WfFrames(fs) && bufs.Content() == Wire(fs) && ParseFrames(bufs.Content()) == Some(fs)
  {
    ghost var cs, n := bufs.chunks, bufs.cur + 1;
    JoinedMore(cs, n - 1);
    ghost var ready := PackReady(bufs, hd, prefix, cs0);
    fs := PrefixedFrames(cs0, cs, bufs.chunkLength, bufs.offset, prefix, n, hd, ready);
  }

  /** The header block, behind room for a prefix of `n` octets. */
  method PackBlock(bufs: Bufs, deflater: Deflater, n: nat, nvs: seq<Nv>) returns (ok: bool, ghost cs0: seq<Chunk>)
    requires bufs.Valid() && bufs.cur == 0 && Empty(bufs.chunks, bufs.chunkLength, bufs.offset)
    requires n <= bufs.chunkLength - bufs.offset
    requires deflater.Valid() && !deflater.bad && forall i :: 0 <= i < |nvs| ==> Sized(nvs[i])
    modifies bufs, deflater, deflater.ring, deflater.ring.buffer
    ensures deflater.ring.buffer == old(deflater.ring.buffer) || fresh(deflater.ring.buffer)
    ensures bufs.Valid() && deflater.Valid()
    ensures ok <==> n + |BlockBytes(deflater.p, old(deflater.View()), nvs)| <= old(bufs.Room())
    ensures ok ==> bufs.Content() == BlockBytes(deflater.p, old(deflater.View()), nvs)
    ensures ok ==> !deflater.bad && deflater.View() == AfterBlock(deflater.p, old(deflater.View()), nvs)
    ensures Skipped(cs0, bufs.chunkLength, bufs.offset, n) && Grown(cs0, bufs.chunks, bufs.chunkLength, bufs.offset)
  {
    SkipPrefix(bufs, n);
    cs0 := bufs.chunks;
    var rv := deflater.DeflateHdBufs(bufs, nvs);
    ok := rv.Success?;
  }

  /**
    * `nghttp2_frame_pack_headers` and `nghttp2_frame_pack_push_promise`: the frames in the buffers are
    * those a receiver parses, and carry `prefix` and the header block.  They fail exactly when the
    * buffers are too small.
    */
  method PackHeaderBlock(bufs: Bufs, deflater: Deflater, hd: FrameHd, prefix: seq<byte>, nvs: seq<Nv>)
    returns (ok: bool, ghost fs: seq<Frame>)
    requires bufs.Valid() && bufs.cur == 0 && Empty(bufs.chunks, bufs.chunkLength, bufs.offset)
    requires |prefix| <= bufs.chunkLength - bufs.offset
    requires deflater.Valid() && !deflater.bad && forall i :: 0 <= i < |nvs| ==> Sized(nvs[i])
    requires hd.streamId <= MAX_STREAM_ID && HasEndHeaders(hd.flags)
    modifies bufs, deflater, deflater.ring, deflater.ring.buffer
    ensures deflater.ring.buffer == old(deflater.ring.buffer) || fresh(deflater.ring.buffer)
    ensures bufs.Valid() && deflater.Valid()
    ensures ok <==> |prefix| + |BlockBytes(deflater.p, old(deflater.View()), nvs)| <= old(bufs.Room())
    ensures ok ==> HeaderChain(fs, hd, prefix + BlockBytes(deflater.p, old(deflater.View()), nvs),
                               bufs.chunkLength - bufs.offset) && prefix <= fs[0].payload
    ensures ok ==> !deflater.bad && deflater.View() == AfterBlock(deflater.p, old(deflater.View()), nvs)
    ensures ok ==> WfFrames(fs) && bufs.Content() == Wire(fs) && ParseFrames(bufs.Content()) == Some(fs)
  {
    fs := [];
    ghost var cs0;
    ok, cs0 := PackBlock(bufs, deflater, |prefix|, nvs);
    if ok {
      fs := PackPrefixed(bufs, hd, prefix, cs0);
    }
  }
}
