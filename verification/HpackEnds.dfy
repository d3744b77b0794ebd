/**
  * The two ends of a connection as objects: the deflater of one end and the inflater of the other,
  * joined by the octets of a header block and by the table sizes of a SETTINGS frame.
  */
module HpackEnds {
  import opened Bytes
  import opened Buffers
  import opened HpackTable
  import opened Huffman
  import opened Hpack
  import opened HpackDeflater
  import opened HpackInflate
  import opened HpackInflater
  import opened HpackSync
  import opened HpackIndexing

  /** Both objects are usable, share the tables of the code, and are in step. */
  ghost predicate Paired(enc: Deflater, dec: Inflater)
    reads enc, enc.ring, enc.ring.buffer, dec
  {
    && enc.Valid() && !enc.bad && dec.Valid() && !dec.bad
    && enc.p == dec.p && WellFormed(enc.p.huff) && InStep(enc.View(), dec.d)
  }

  /** A header block out of the buffers. */
  method Send(enc: Deflater, bufs: Bufs, nvs: seq<Nv>) returns (ok: bool, block: seq<byte>)
    requires enc.Valid() && !enc.bad && bufs.Valid() && bufs.Content() == []
    requires forall i :: 0 <= i < |nvs| ==> Sized(nvs[i])
    modifies enc, enc.ring, enc.ring.buffer, bufs
    ensures enc.ring.buffer == old(enc.ring.buffer) || fresh(enc.ring.buffer)
    ensures ok <==> |BlockBytes(enc.p, old(enc.View()), nvs)| <= old(bufs.Room())
    ensures ok ==> block == BlockBytes(enc.p, old(enc.View()), nvs)
    ensures ok ==> enc.Valid() && !enc.bad && enc.View() == AfterBlock(enc.p, old(enc.View()), nvs)
  {
    var rv := enc.DeflateHdBufs(bufs, nvs);
    ok, block := rv.Success?, [];
    if ok {
      block := bufs.RemoveCopy();
    }
  }

  /** What the decoder makes of a header block of an encoder it is in step with. */
  ghost predicate Understood(p: Tables, e: Encoder, nvs: seq<Nv>, d: Decoder) {
    WfStatics(p) && |p.huff.codes| == 257 && InStep(AfterBlock(p, e, nvs), d) && d.table == AfterBlock(p, e, nvs).table
  }

  lemma BlockUnderstood(p: Tables, e: Encoder, d: Decoder, nvs: seq<Nv>)
    requires WfStatics(p) && WfTables(p) && WellFormed(p.huff) && WfDecoder(p, d) && InStep(e, d)
    ensures var run := Run(p, d, BlockBytes(p, e, nvs));
            && (run.RunOk? <==> FieldsFit(p, Notified(e), nvs))
            && (run.RunOk? ==> MayEnd(run.d) && run.out == ExpectedFields(p, nvs))
            && (run.RunOk? ==> Understood(p, e, nvs, EndHeaders(run.d)))
  {
    BlockAccepted(p, e, d, nvs);
    if FieldsFit(p, Notified(e), nvs) {
      var _ := RunBlock(p, e, d, nvs);
    }
  }

  /** A header block into the decoder. */
  method Receive(dec: Inflater, block: seq<byte>, ghost e: Encoder, ghost nvs: seq<Nv>)
    returns (ok: bool, fields: seq<Header>)
    requires dec.Valid() && !dec.bad && WfStatics(dec.p) && WellFormed(dec.p.huff) && InStep(e, dec.d)
    requires block == BlockBytes(dec.p, e, nvs)
    modifies dec
    ensures ok <==> FieldsFit(dec.p, Notified(e), nvs)
    ensures ok ==> fields == ExpectedFields(dec.p, nvs) && (Named(dec.p) ==> ReadBack(nvs, fields))
    ensures ok ==> dec.Valid() && !dec.bad && Understood(dec.p, e, nvs, dec.d)
  {
    BlockUnderstood(dec.p, e, dec.d, nvs);
    ok, fields := dec.InflateHeaderBlock(block, true);
    if Named(dec.p) {
      ExpectedReadBack(dec.p, nvs);
    }
  }

  /**
    * A header block written by one end and read by the other, as in `check_deflate_inflate` of the
    * test suite: it arrives exactly if the buffers hold it and no string is over the decoder's limit,
    * and then every field comes back and the two tables are equal.
    */
  method Exchange(enc: Deflater, dec: Inflater, bufs: Bufs, nvs: seq<Nv>) returns (ok: bool, fields: seq<Header>)
    requires Paired(enc, dec) && bufs.Valid() && bufs.Content() == []
    requires forall i :: 0 <= i < |nvs| ==> Sized(nvs[i])
    modifies enc, enc.ring, enc.ring.buffer, dec, bufs
    ensures enc.ring.buffer == old(enc.ring.buffer) || fresh(enc.ring.buffer)
    ensures ok <==> |BlockBytes(enc.p, old(enc.View()), nvs)| <= old(bufs.Room()) &&
                    FieldsFit(enc.p, Notified(old(enc.View())), nvs)
    ensures ok ==> fields == ExpectedFields(enc.p, nvs) && (Named(enc.p) ==> ReadBack(nvs, fields))
    ensures ok ==> Paired(enc, dec) && Fields(enc.entries) == dec.d.table && enc.max == dec.d.max
  {
    ghost var e := enc.View();
    fields := [];
    var block;
    ok, block := Send(enc, bufs, nvs);
    if ok {
      ok, fields := Receive(dec, block, e, nvs);
    }
  }

  /** The loop of `nghttp2_session_on_settings_received` over the sizes of a SETTINGS frame. */
  method AnnounceSizes(enc: Deflater, sizes: seq<nat>)
    requires enc.Valid() && forall i :: 0 <= i < |sizes| ==> sizes[i] <= UINT32_MAX
    modifies enc, enc.ring`len
    ensures enc.Valid() && enc.bad == old(enc.bad) && enc.View() == ChangeAll(old(enc.View()), sizes)
  {
    for i := 0 to |sizes|
      invariant enc.Valid() && enc.bad == old(enc.bad)
      invariant ChangeAll(enc.View(), sizes[i..]) == ChangeAll(old(enc.View()), sizes)
    {
      assert sizes[i..][1..] == sizes[i + 1..];
      enc.ChangeTableSize(sizes[i]);
    }
  }

  /** The first loop of `nghttp2_session_update_local_settings`. */
  method SmallestAndLast(sizes: seq<nat>) returns (min: nat, last: nat)
    requires sizes != [] && forall i :: 0 <= i < |sizes| ==> sizes[i] <= UINT32_MAX
    ensures min == MinOf(sizes) && last == sizes[|sizes| - 1]
  {
    min, last := UINT32_MAX, 0;
    for i := 0 to |sizes|
      invariant i > 0 ==> last == sizes[i - 1] && min == MinOf(sizes[..i])
      invariant i == 0 ==> min == UINT32_MAX
    {
      MinOfMore(sizes, i);
      last := sizes[i];
      min := Min(min, sizes[i]);
    }
    assert sizes[..|sizes|] == sizes;
  }

  /** The header table sizes in `nghttp2_session_update_local_settings`. */
  method AcknowledgeSizes(dec: Inflater, sizes: seq<nat>) returns (ok: bool)
    requires dec.Valid() && sizes != [] && forall i :: 0 <= i < |sizes| ==> sizes[i] <= UINT32_MAX
    modifies dec
    ensures dec.Valid() && dec.bad == old(dec.bad) && ok == BetweenBlocks(old(dec.d))
    ensures dec.d == if ok then ApplySettings(old(dec.d), sizes) else old(dec.d)
  {
    var min, last := SmallestAndLast(sizes);
    if min < last {
      ok := dec.ChangeTableSize(min);
      if !ok {
        return;
      }
    }
    ok := dec.ChangeTableSize(last);
  }

  lemma {:induction false} MinOfMore(sizes: seq<nat>, i: nat)
    requires i < |sizes|
    ensures MinOf(sizes[..i + 1]) == if i == 0 then sizes[0] else Min(MinOf(sizes[..i]), sizes[i])
    decreases i
  {
    if i > 0 {
      assert sizes[..i + 1][1..] == sizes[1..][..i] && sizes[..i][1..] == sizes[1..][..i - 1];
      MinOfMore(sizes[1..], i - 1);
    }
  }

  /** A SETTINGS frame and its acknowledgement between two header blocks. */
  method RenegotiateSizes(enc: Deflater, dec: Inflater, sizes: seq<nat>) returns (ok: bool)
    requires Paired(enc, dec) && sizes != [] && forall i :: 0 <= i < |sizes| ==> sizes[i] <= UINT32_MAX
    modifies enc, enc.ring`len, dec
    ensures ok && Paired(enc, dec)
  {
    SettingsInStep(enc.p, enc.View(), dec.d, sizes);
    AnnounceSizes(enc, sizes);
    ok := AcknowledgeSizes(dec, sizes);
  }
}
