/**
  * The HPACK encoder object of lib/nghttp2_hd.c.  Its dynamic table is kept in a ring buffer and
  * indexed by a hash map of 128 chains and by wrapping 32-bit sequence numbers; what it writes is the
  * header block of module Hpack, which looks entries up by scanning the table.
  */
module HpackDeflater {
  import opened Bytes
  import opened HpackInteger
  import opened HpackTable
  import opened Huffman
  import opened Hpack
  import opened Buffers
  import opened HuffmanEncoder

  const HD_MAP_SIZE: nat := 128
  const UINT32: nat := 0x1_0000_0000

  /** `nghttp2_hd_entry`. */
  datatype HdEntry = HdEntry(field: Field, token: int, seqno: nat, hash: nat)

  // ------------------------------------------------------------------------ hashing

  /** One round of the 32-bit FNV-1a hash. */
  function HashStep(h: bv32, b: byte): bv32 {
    var x := h ^ (b as bv32);
    x + ((x << 1) + (x << 4) + (x << 7) + (x << 8) + (x << 24))
  }

  function Fnv(name: seq<byte>): bv32 {
    if name == [] then 2166136261 else HashStep(Fnv(name[..|name| - 1]), name[|name| - 1])
  }

  /** `name_hash`. */
  method NameHash(name: seq<byte>) returns (h: nat)
    ensures h == Fnv(name) as nat
  {
    var x: bv32 := 2166136261;
    for i := 0 to |name|
      invariant x == Fnv(name[..i])
    {
      assert name[..i + 1][..i] == name[..i];
      x := HashStep(x, name[i]);
    }
    assert name[..|name|] == name;
    h := x as nat;
  }

  /** The hash of a name: the static table's for a static name, 0 for a name beyond it. */
  function HashOf(p: Tables, name: seq<byte>): nat
    requires |p.statics| == STATIC_LENGTH
  {
    var token := LookupToken(p, name);
    if token == -1 then Fnv(name) as nat
    else if token <= LAST_STATIC_TOKEN then p.statics[token].hash
    else 0
  }

  // ---------------------------------------------------------------- table and chains

  ghost function Fields(es: seq<HdEntry>): (r: seq<Field>)
    ensures |r| == |es|
  {
    seq(|es|, i requires 0 <= i < |es| => es[i].field)
  }

  /** The entries of chain `h`, in table order. */
  ghost function Chain(es: seq<HdEntry>, h: nat): seq<HdEntry> {
    if es == [] then []
    else (if es[0].hash % HD_MAP_SIZE == h then [es[0]] else []) + Chain(es[1..], h)
  }

  /** The sequence number of the entry at dynamic index `i`. */
  function SeqAt(next: nat, i: nat): nat {
    (next + UINT32 - 1 - i % UINT32) % UINT32
  }

  /** The number after `next`. */
  function SeqNext(next: nat): (r: nat)
    ensures r < UINT32
  {
    (next + 1) % UINT32
  }

  ghost predicate SeqsOk(es: seq<HdEntry>, next: nat) {
    forall i :: 0 <= i < |es| ==> es[i].seqno == SeqAt(next, i)
  }

  /** Entries carry the token and hash of their names. */
  ghost predicate NamesOk(p: Tables, es: seq<HdEntry>)
    requires |p.statics| == STATIC_LENGTH
  {
    forall i :: 0 <= i < |es| ==>
      es[i].token == LookupToken(p, es[i].field.name) && es[i].hash == HashOf(p, es[i].field.name)
  }

  ghost predicate ChainsOk(es: seq<HdEntry>, chains: seq<seq<HdEntry>>) {
    |chains| == HD_MAP_SIZE && forall h :: 0 <= h < HD_MAP_SIZE ==> chains[h] == Chain(es, h)
  }

  lemma ChainPush(e: HdEntry, es: seq<HdEntry>, chains: seq<seq<HdEntry>>)
    requires ChainsOk(es, chains)
    ensures var h := e.hash % HD_MAP_SIZE;
            ChainsOk([e] + es, chains[h := [e] + chains[h]])
  {
    assert ([e] + es)[1..] == es;
  }

  lemma {:induction false} ChainPop(es: seq<HdEntry>, h: nat)
    requires es != []
    ensures var last := es[|es| - 1];
            Chain(es, h) == Chain(es[..|es| - 1], h) + if last.hash % HD_MAP_SIZE == h then [last] else []
  {
    var front, last := es[..|es| - 1], es[|es| - 1];
    if |es| > 1 {
      ChainPop(es[1..], h);
      assert es[1..][..|es| - 2] == front[1..] && es[1..][|es| - 2] == last;
      var x := if es[0].hash % HD_MAP_SIZE == h then [es[0]] else [];
      var y := if last.hash % HD_MAP_SIZE == h then [last] else [];
      ConcatAssoc(x, Chain(front[1..], h), y);
    } else {
      assert front == [] && es[1..] == [];
      assert Chain(front, h) == [] && Chain(es[1..], h) == [];
    }
  }

  lemma {:induction false} ChainMembers(es: seq<HdEntry>, h: nat, e: HdEntry)
    requires e in Chain(es, h)
    ensures e in es && e.hash % HD_MAP_SIZE == h
  {
    if es != [] && !(es[0].hash % HD_MAP_SIZE == h && e == es[0]) {
      assert e in Chain(es[1..], h);
      ChainMembers(es[1..], h, e);
    }
  }

  /** `nghttp2_nv` names and values compared with an entry by `hd_map_find`. */
  predicate NameMatches(e: HdEntry, nv: Nv, token: int, hash: nat) {
    token == e.token && (token == -1 ==> hash == e.hash && e.field.name == nv.name)
  }

  /** Comparing tokens and hashes is comparing names. */
  lemma NameMatchesIff(p: Tables, es: seq<HdEntry>, i: nat, nv: Nv)
    requires WfStatics(p) && NamesOk(p, es) && i < |es|
    ensures NameMatches(es[i], nv, LookupToken(p, nv.name), HashOf(p, nv.name)) <==> es[i].field.name == nv.name
  {
    assert TokenOk(p, nv.name);
  }

  /** The first entry of `es` with the name, or with name and value, or -1. */
  ghost function FirstOf(es: seq<HdEntry>, f: Field, exact: bool): (r: int)
    ensures -1 <= r < |es|
  {
    if exact then FindExact(Fields(es), f) else FindName(Fields(es), f.name)
  }

  ghost predicate Matches(e: HdEntry, f: Field, exact: bool) {
    if exact then e.field == f else e.field.name == f.name
  }

  /** `FirstOf` by its meaning. */
  lemma FirstOfIs(es: seq<HdEntry>, f: Field, exact: bool, r: int)
    requires -1 <= r < |es|
    requires r >= 0 ==> Matches(es[r], f, exact)
    requires forall i :: 0 <= i < (if r == -1 then |es| else r) ==> !Matches(es[i], f, exact)
    ensures FirstOf(es, f, exact) == r
  {
    var fs := Fields(es);
    assert forall i :: 0 <= i < |es| ==> fs[i] == es[i].field;
  }

  /** Scanning `c` finds the same entry as scanning `es`. */
  ghost predicate SameFirst(es: seq<HdEntry>, c: seq<HdEntry>, i: int, j: int) {
    (i == -1 <==> j == -1) && (i != -1 ==> 0 <= i < |es| && 0 <= j < |c| && c[j] == es[i])
  }

  lemma SameFirstPush(es: seq<HdEntry>, c: seq<HdEntry>, i: int, j: int, e: HdEntry, inChain: bool, hit: bool)
    requires SameFirst(es, c, i, j) && -1 <= i && -1 <= j && (hit ==> inChain)
    ensures var i' := if hit then 0 else if i == -1 then -1 else i + 1;
            var j' := if !inChain then j else if hit then 0 else if j == -1 then -1 else j + 1;
            SameFirst([e] + es, (if inChain then [e] else []) + c, i', j')
  {
    assert [] + c == c;
  }

  /** Scanning the chain of a name finds the same entry as scanning the table. */
  lemma {:induction false} ChainScan(p: Tables, es: seq<HdEntry>, f: Field, exact: bool, h: nat)
    requires |p.statics| == STATIC_LENGTH && NamesOk(p, es) && h == HashOf(p, f.name) % HD_MAP_SIZE
    ensures SameFirst(es, Chain(es, h), FirstOf(es, f, exact), FirstOf(Chain(es, h), f, exact))
  {
    if es == [] {
      FirstOfIs(es, f, exact, -1);
    } else {
      var e, rest := es[0], es[1..];
      var c := Chain(rest, h);
      ChainScan(p, rest, f, exact, h);
      FirstOfStep(es, f, exact);
      var inChain := e.hash % HD_MAP_SIZE == h;
      assert Matches(e, f, exact) ==> inChain;
      SameFirstPush(rest, c, FirstOf(rest, f, exact), FirstOf(c, f, exact), e, inChain, Matches(e, f, exact));
      assert [e] + rest == es;
      if inChain {
        assert Chain(es, h) == [e] + c && ([e] + c)[1..] == c;
        FirstOfStep([e] + c, f, exact);
      } else {
        assert Chain(es, h) == [] + c == c;
      }
    }
  }

  lemma FirstOfStep(es: seq<HdEntry>, f: Field, exact: bool)
    requires es != []
    ensures var r := FirstOf(es[1..], f, exact);
            FirstOf(es, f, exact) == if Matches(es[0], f, exact) then 0 else if r == -1 then -1 else r + 1
  {
    var fs := Fields(es);
    assert fs[0] == es[0].field && fs[1..] == Fields(es[1..]);
  }

  // ---------------------------------------------------------------------- emission

  datatype Status = Success | BufferError | HeaderCompError

  /** `size_t` lengths. */
  ghost predicate Sized(nv: Nv) {
    |nv.name| < SIZE_T && |nv.value| < SIZE_T
  }

  /** An integer after an opcode octet, through a 16-octet scratch buffer. */
  method EmitInt(bufs: Bufs, first: byte, n: nat, prefix: nat) returns (rv: Status)
    requires bufs.Valid() && 4 <= prefix <= 7 && n < SIZE_T
    modifies bufs
    ensures bufs.Valid() && rv == if |Encode(first, n, prefix)| <= old(bufs.Room()) then Success else BufferError
    ensures rv.Success? ==> bufs.Content() == old(bufs.Content()) + Encode(first, n, prefix)
    ensures rv.Success? ==> bufs.Room() == old(bufs.Room()) - |Encode(first, n, prefix)|
    ensures Grown(old(bufs.chunks), bufs.chunks, bufs.chunkLength, bufs.offset)
  {
    EncodedSizeFits(first, n, prefix);
    var blocklen := CountEncodedLength(n, prefix);
    if 16 < blocklen {
      return HeaderCompError;
    }
    var sb := EncodeLength(first, n, prefix);
    var ok := bufs.Add(sb);
    rv := if ok then Success else BufferError;
  }

  /** `emit_string`. */
  method EmitString(p: Tables, bufs: Bufs, s: seq<byte>) returns (rv: Status)
    requires WfCode(p.huff) && WfSyms(p.huff) && bufs.Valid() && |s| < SIZE_T
    modifies bufs
    ensures bufs.Valid() && rv == if |StringBytes(p, s)| <= old(bufs.Room()) then Success else BufferError
    ensures rv.Success? ==> bufs.Content() == old(bufs.Content()) + StringBytes(p, s)
    ensures rv.Success? ==> bufs.Room() == old(bufs.Room()) - |StringBytes(p, s)|
    ensures Grown(old(bufs.chunks), bufs.chunks, bufs.chunkLength, bufs.offset)
  {
    var enclen := EncodeCount(p.huff, s);
    var huffman := enclen < |s|;
    if !huffman {
      enclen := |s|;
    }
    ghost var data := StringData(p, s);
    assert enclen == |data|;
    ghost var content := bufs.Content();
    rv := EmitInt(bufs, if huffman then 0x80 else 0, enclen, 7);
    if !rv.Success? {
      return;
    }
    ghost var mid, head := bufs.chunks, Encode(if huffman then 0x80 else 0, enclen, 7);
    var ok;
    if huffman {
      ok := HuffEncode(p.huff, bufs, s);
    } else {
      ok := bufs.Add(s);
    }
    rv := if ok then Success else BufferError;
    ConcatAssoc(content, head, data);
    GrownTransitive(old(bufs.chunks), mid, bufs.chunks, bufs.chunkLength, bufs.offset);
  }

  /** The first part of `emit_indname_block` and `emit_newname_block`. */
  method EmitHead(p: Tables, bufs: Bufs, index: int, name: seq<byte>, mode: Mode) returns (rv: Status)
    requires WfCode(p.huff) && WfSyms(p.huff) && bufs.Valid() && |name| < SIZE_T && -1 <= index < UINT32
    modifies bufs
    ensures bufs.Valid()
    ensures rv == if |LiteralHead(p, index, name, mode)| <= old(bufs.Room()) then Success else BufferError
    ensures rv.Success? ==> bufs.Content() == old(bufs.Content()) + LiteralHead(p, index, name, mode)
    ensures rv.Success? ==> bufs.Room() == old(bufs.Room()) - |LiteralHead(p, index, name, mode)|
    ensures Grown(old(bufs.chunks), bufs.chunks, bufs.chunkLength, bufs.offset)
  {
    if index != -1 {
      rv := EmitInt(bufs, FirstByte(mode), index + 1, IndexPrefix(mode));
      return;
    }
    var ok := bufs.AddB(FirstByte(mode));
    if !ok {
      return BufferError;
    }
    ghost var mid := bufs.chunks;
    rv := EmitString(p, bufs, name);
    GrownTransitive(old(bufs.chunks), mid, bufs.chunks, bufs.chunkLength, bufs.offset);
    ConcatAssoc(old(bufs.Content()), [FirstByte(mode)], StringBytes(p, name));
  }

  /** `emit_indname_block` and `emit_newname_block`. */
  method EmitLiteral(p: Tables, bufs: Bufs, index: int, nv: Nv, mode: Mode) returns (rv: Status)
    requires WfCode(p.huff) && WfSyms(p.huff) && bufs.Valid() && Sized(nv) && -1 <= index < UINT32
    modifies bufs
    ensures bufs.Valid()
    ensures rv == if |LiteralBytes(p, index, nv, mode)| <= old(bufs.Room()) then Success else BufferError
    ensures rv.Success? ==> bufs.Content() == old(bufs.Content()) + LiteralBytes(p, index, nv, mode)
    ensures rv.Success? ==> bufs.Room() == old(bufs.Room()) - |LiteralBytes(p, index, nv, mode)|
    ensures Grown(old(bufs.chunks), bufs.chunks, bufs.chunkLength, bufs.offset)
  {
    rv := EmitHead(p, bufs, index, nv.name, mode);
    if !rv.Success? {
      return;
    }
    ghost var mid := bufs.chunks;
    rv := EmitString(p, bufs, nv.value);
    GrownTransitive(old(bufs.chunks), mid, bufs.chunks, bufs.chunkLength, bufs.offset);
    ConcatAssoc(old(bufs.Content()), LiteralHead(p, index, nv.name, mode), StringBytes(p, nv.value));
  }

  /** The two calls of `emit_table_size` at the head of a block. */
  method EmitSizes(bufs: Bufs, min: nat, max: nat) returns (rv: Status)
    requires bufs.Valid() && min < SIZE_T && max < SIZE_T
    modifies bufs
    ensures bufs.Valid() && rv == if |SizesBytes(min, max)| <= old(bufs.Room()) then Success else BufferError
    ensures rv.Success? ==> bufs.Content() == old(bufs.Content()) + SizesBytes(min, max)
    ensures rv.Success? ==> bufs.Room() == old(bufs.Room()) - |SizesBytes(min, max)|
    ensures Grown(old(bufs.chunks), bufs.chunks, bufs.chunkLength, bufs.offset)
  {
    if max <= min {
      rv := EmitInt(bufs, 0x20, max, 5);
      assert [] + SizeUpdateBytes(max) == SizeUpdateBytes(max);
      return;
    }
    rv := EmitInt(bufs, 0x20, min, 5);
    if !rv.Success? {
      return;
    }
    ghost var mid := bufs.chunks;
    rv := EmitInt(bufs, 0x20, max, 5);
    ConcatAssoc(old(bufs.Content()), SizeUpdateBytes(min), SizeUpdateBytes(max));
    GrownTransitive(old(bufs.chunks), mid, bufs.chunks, bufs.chunkLength, bufs.offset);
  }

  // ------------------------------------------------------------------------- search

  ghost predicate ComparesNames(c: seq<HdEntry>, nv: Nv, token: int, hash: nat) {
    forall i :: 0 <= i < |c| ==> (NameMatches(c[i], nv, token, hash) <==> c[i].field.name == nv.name)
  }

  /** `hd_map_find` on the chain of the name's hash. */
  method MapFind(c: seq<HdEntry>, nv: Nv, token: int, hash: nat, nameOnly: bool) returns (res: int, exact: bool)
    requires ComparesNames(c, nv, token, hash)
    ensures exact == (!nameOnly && FirstOf(c, FieldOf(nv), true) >= 0)
    ensures res == FirstOf(c, FieldOf(nv), exact)
  {
    res, exact := -1, false;
    var k := 0;
    while k < |c|
      invariant 0 <= k <= |c| && !exact && -1 <= res < k
      invariant res >= 0 ==> !nameOnly && c[res].field.name == nv.name
      invariant forall i :: 0 <= i < (if res == -1 then k else res) ==> c[i].field.name != nv.name
      invariant forall i :: 0 <= i < k ==> c[i].field != FieldOf(nv)
    {
      if NameMatches(c[k], nv, token, hash) {
        if res == -1 {
          res := k;
          if nameOnly {
            break;
          }
        }
        if c[k].field.value == nv.value {
          res, exact := k, true;
          FirstOfIs(c, FieldOf(nv), true, k);
          return;
        }
      }
      k := k + 1;
    }
    FirstOfIs(c, FieldOf(nv), false, res);
    if !nameOnly {
      FirstOfIs(c, FieldOf(nv), true, -1);
    }
  }

  /** `search_static_table`. */
  method SearchStatic(p: Tables, nv: Nv, token: nat, nameOnly: bool) returns (r: Found)
    requires |p.statics| == STATIC_LENGTH && token <= LAST_STATIC_TOKEN
    ensures var s := if nameOnly then -1 else FindStatic(p, token, nv.value, token);
            r == if s >= 0 then Found(s, true) else Found(token, false)
  {
    r := Found(token, false);
    if nameOnly {
      return;
    }
    var i := token;
    while i <= LAST_STATIC_TOKEN && p.statics[i].token == token
      invariant token <= i <= STATIC_LENGTH
      invariant FindStatic(p, token, nv.value, token) == FindStatic(p, token, nv.value, i)
    {
      if p.statics[i].field.value == nv.value {
        return Found(i, true);
      }
      i := i + 1;
    }
  }

  // ---------------------------------------------------------------- the encoder object

  lemma SeqDistance(next: nat, i: nat)
    requires next < UINT32 && i < UINT32
    ensures (next + UINT32 - 1 + UINT32 - SeqAt(next, i)) % UINT32 == i
  {
  }

  lemma SeqShift(next: nat, i: nat)
    requires next < UINT32 && i + 1 < UINT32
    ensures SeqAt(SeqNext(next), i + 1) == SeqAt(next, i)
    ensures SeqAt(SeqNext(next), 0) == next
  {
  }

  lemma SeqsPush(e: HdEntry, es: seq<HdEntry>, next: nat)
    requires SeqsOk(es, next) && e.seqno == next < UINT32 && |es| < 0x1000_0000
    ensures SeqsOk([e] + es, SeqNext(next))
  {
    SeqShift(next, 0);
    forall i | 1 <= i < |[e] + es|
      ensures ([e] + es)[i].seqno == SeqAt(SeqNext(next), i)
    {
      SeqShift(next, i - 1);
    }
  }

  /** The fields of a table with a new entry, and their room. */
  lemma FieldsPush(e: HdEntry, es: seq<HdEntry>)
    ensures Fields([e] + es) == [e.field] + Fields(es)
    ensures TableSize(Fields([e] + es)) == EntryRoom(e.field) + TableSize(Fields(es))
  {
    TableSizePush(e.field, Fields(es));
    assert Fields([e] + es) == [e.field] + Fields(es);
  }

  /** A new entry keeps sequence numbers, tokens and hashes, and adds its room. */
  lemma TablePush(p: Tables, e: HdEntry, es: seq<HdEntry>, next: nat)
    requires |p.statics| == STATIC_LENGTH && SeqsOk(es, next) && NamesOk(p, es)
    requires e.seqno == next < UINT32 && |es| < 0x1000_0000
    requires e.token == LookupToken(p, e.field.name) && e.hash == HashOf(p, e.field.name)
    ensures SeqsOk([e] + es, SeqNext(next)) && NamesOk(p, [e] + es)
    ensures Fields([e] + es) == [e.field] + Fields(es)
    ensures TableSize(Fields([e] + es)) == EntryRoom(e.field) + TableSize(Fields(es))
  {
    SeqsPush(e, es, next);
    FieldsPush(e, es);
  }

  /** `nghttp2_hd_deflater`, with `nghttp2_hd_context` folded in. */
  class Deflater {
    const p: Tables
    const cap: nat
    const ring: RingBuffer<HdEntry>
    ghost var entries: seq<HdEntry>
    var chains: seq<seq<HdEntry>>
    var bufsize: nat
    var max: nat
    var nextSeq: nat
    var bad: bool
    var minMax: nat
    var notify: bool

    ghost predicate Valid()
      reads this, ring, ring.buffer
    {
      && WfStatics(p) && WfCode(p.huff) && WfSyms(p.huff)
      && max <= UINT32_MAX && minMax <= UINT32_MAX
      && TableOk() && Stored() && bufsize <= max
    }

    /** The ring buffer holds the table, newest entry first. */
    ghost predicate Stored()
      reads this, ring, ring.buffer
    {
      ring.Valid() && ring.Contents() == entries
    }

    /** Size, sequence numbers, tokens, hashes and chains describe the table. */
    ghost predicate TableOk()
      reads this
    {
      && |p.statics| == STATIC_LENGTH && nextSeq < UINT32
      && bufsize == TableSize(Fields(entries)) <= UINT32_MAX
      && SeqsOk(entries, nextSeq) && NamesOk(p, entries) && ChainsOk(entries, chains)
    }

    /** What the header blocks depend on. */
    ghost function View(): Encoder
      reads this
    {
      Encoder(Fields(entries), max, cap, minMax, notify)
    }

    lemma EntryCount()
      requires TableOk()
      ensures |entries| < 0x1000_0000
    {
      TableLength(Fields(entries));
    }

    /** `nghttp2_hd_deflate_init2`. */
    constructor (p: Tables, cap: nat)
      requires WfStatics(p) && WfCode(p.huff) && WfSyms(p.huff)
      ensures Valid() && View() == InitialEncoder(cap) && !bad && this.p == p && max == Min(cap, 4096)
      ensures fresh(ring) && fresh(ring.buffer)
    {
      ring := new RingBuffer<HdEntry>(DEFAULT_TABLE_SIZE / ENTRY_OVERHEAD);
      this.p := p;
      this.cap := cap;
      entries := [];
      chains := seq(HD_MAP_SIZE, _ => []);
      bufsize := 0;
      nextSeq := 0;
      bad := false;
      minMax := UINT32_MAX;
      if cap < DEFAULT_TABLE_SIZE {
        notify, max := true, cap;
      } else {
        notify, max := false, DEFAULT_TABLE_SIZE;
      }
    }

    /** `hd_map_insert`: the newest entry is linked near the root. */
    method MapInsert(e: HdEntry)
      requires ChainsOk(entries, chains)
      modifies this`chains
      ensures ChainsOk([e] + entries, chains)
    {
      var h := e.hash % HD_MAP_SIZE;
      ChainPush(e, entries, chains);
      chains := chains[h := [e] + chains[h]];
    }

    /** `hd_map_remove` of the oldest entry. */
    method MapRemove(e: HdEntry)
      requires entries != [] && e == entries[|entries| - 1]
      requires ChainsOk(entries, chains) && SeqsOk(entries, nextSeq)
      requires |entries| < 0x1000_0000 && nextSeq < UINT32
      modifies this`chains
      ensures ChainsOk(entries[..|entries| - 1], chains)
    {
      var h := e.hash % HD_MAP_SIZE;
      ghost var rest := ChainsPop(entries, chains, nextSeq);
      var c := chains[h];
      var k := 0;
      while k < |c|
        invariant 0 <= k <= |rest|
      {
        if c[k] == e {
          break;
        }
        k := k + 1;
      }
      assert c[..k] + c[k + 1..] == rest;
      chains := chains[h := c[..k] + c[k + 1..]];
    }

    /** Removes the oldest entry from the table and from its chain. */
    method PopOldest()
      requires TableOk() && Stored() && entries != []
      modifies this`entries, this`chains, this`bufsize, ring`len
      ensures TableOk() && Stored() && entries == old(entries)[..|old(entries)| - 1]
      ensures Fields(entries) == old(Fields(entries))[..|old(entries)| - 1]
    {
      EntryCount();
      var e := ring.Get(ring.len - 1);
      MapRemove(e);
      assert Fields(entries)[..|entries| - 1] == Fields(entries[..|entries| - 1]);
      bufsize := bufsize - EntryRoom(e.field);
      ring.PopBack();
      entries := entries[..|entries| - 1];
    }

    /** The eviction loop of `hd_context_shrink_table_size` and `add_hd_table_incremental`. */
    method EvictTo(limit: int)
      requires TableOk() && Stored()
      modifies this`entries, this`chains, this`bufsize, ring`len
      ensures TableOk() && Stored() && Fields(entries) == Evict(old(Fields(entries)), limit)
    {
      while bufsize > limit && ring.len > 0
        invariant TableOk() && Stored() && Evict(Fields(entries), limit) == Evict(old(Fields(entries)), limit)
        decreases |entries|
      {
        PopOldest();
      }
    }

    /** `add_hd_table_incremental`. */
    method AddIncremental(f: Field, token: int, hash: nat)
      requires TableOk() && Stored() && max <= UINT32_MAX
      requires token == LookupToken(p, f.name) && hash == HashOf(p, f.name)
      modifies this`entries, this`chains, this`bufsize, this`nextSeq, ring, ring.buffer
      ensures ring.buffer == old(ring.buffer) || fresh(ring.buffer)
      ensures TableOk() && Stored() && bufsize <= max
      ensures Fields(entries) == AddEntry(old(Fields(entries)), max, f)
    {
      var room := EntryRoom(f);
      ghost var t := Fields(entries);
      EvictTo(max - room);
      if room > max {
        EvictAll(t, max - room);
        return;
      }
      AddEntryFits(t, max, f, Fields(entries));
      PushNewest(HdEntry(f, token, nextSeq, hash));
    }

    /** The entry goes into the ring buffer, which grows when it is full. */
    method Store(e: HdEntry)
      requires Stored() && |entries| < 0x1000_0000
      modifies this`entries, ring, ring.buffer
      ensures ring.buffer == old(ring.buffer) || fresh(ring.buffer)
      ensures Stored() && entries == [e] + old(entries)
    {
      ring.PushFront(e);
      entries := [e] + entries;
    }

    /** The end of `add_hd_table_incremental`, when the entry fits. */
    method PushNewest(e: HdEntry)
      requires TableOk() && Stored() && bufsize + EntryRoom(e.field) <= UINT32_MAX && e.seqno == nextSeq
      requires e.token == LookupToken(p, e.field.name) && e.hash == HashOf(p, e.field.name)
      modifies this`entries, this`chains, this`bufsize, this`nextSeq, ring, ring.buffer
      ensures ring.buffer == old(ring.buffer) || fresh(ring.buffer)
      ensures TableOk() && Stored() && bufsize == old(bufsize) + EntryRoom(e.field)
      ensures Fields(entries) == [e.field] + old(Fields(entries))
    {
      EntryCount();
      TablePush(p, e, entries, nextSeq);
      MapInsert(e);
      Store(e);
      nextSeq := SeqNext(nextSeq);
      bufsize := bufsize + EntryRoom(e.field);
    }

    /** `search_hd_table`: the hash map agrees with a scan of the table. */
    method SearchHdTable(nv: Nv, token: int, mode: Mode, hash: nat) returns (r: Found)
      requires WfStatics(p) && TableOk()
      requires token == LookupToken(p, nv.name) && hash == HashOf(p, nv.name)
      ensures r == Search(p, Fields(entries), nv, mode)
    {
      var c := chains[hash % HD_MAP_SIZE];
      ghost var f := FieldOf(nv);
      ChainCompares(p, entries, nv);
      ChainScan(p, entries, f, true, hash % HD_MAP_SIZE);
      ChainScan(p, entries, f, false, hash % HD_MAP_SIZE);
      var k, exact := MapFind(c, nv, token, hash, mode.NeverIndexing?);
      if !exact && 0 <= token <= LAST_STATIC_TOKEN {
        r := SearchStatic(p, nv, token, mode.NeverIndexing?);
        return;
      }
      if k == -1 {
        return Found(-1, false);
      }
      var index := IndexOf(c[k].seqno, FirstOf(entries, f, exact));
      r := Found(index + STATIC_LENGTH, exact);
    }

    /** The place of an entry in the table, from its sequence number. */
    method IndexOf(seqno: nat, ghost i: nat) returns (index: nat)
      requires TableOk() && i < |entries| && seqno == entries[i].seqno
      ensures index == i
    {
      EntryCount();
      SeqDistance(nextSeq, i);
      index := (nextSeq + UINT32 - 1 + UINT32 - seqno) % UINT32;
    }

    /** `nghttp2_hd_table_get` on the encoder's own table. */
    method GetName(idx: nat) returns (name: seq<byte>)
      requires |p.statics| == STATIC_LENGTH && Stored() && idx < STATIC_LENGTH + |entries|
      ensures name == TableGet(p, Fields(entries), idx).name
    {
      if idx < STATIC_LENGTH {
        return p.statics[idx].field.name;
      }
      var e := ring.Get(idx - STATIC_LENGTH);
      name := e.field.name;
    }

    /** The table update of `deflate_nv` for a literal with indexing. */
    method IndexField(nv: Nv, index: int, token: int, hash: nat)
      requires WfStatics(p) && TableOk() && Stored() && max <= UINT32_MAX
      requires token == LookupToken(p, nv.name) && hash == HashOf(p, nv.name)
      requires -1 <= index < STATIC_LENGTH + |entries|
      requires index >= 0 ==> TableGet(p, Fields(entries), index).name == nv.name
      modifies this`entries, this`chains, this`bufsize, this`nextSeq, ring, ring.buffer
      ensures ring.buffer == old(ring.buffer) || fresh(ring.buffer)
      ensures TableOk() && Stored() && bufsize <= max
      ensures Fields(entries) == AddEntry(old(Fields(entries)), max, FieldOf(nv))
    {
      var name := nv.name;
      if index != -1 {
        name := GetName(index);
      }
      AddIncremental(Field(name, nv.value), token, hash);
    }

    /** `deflate_nv`: writes the octets of one field and updates the table as module Hpack says. */
    method DeflateNv(bufs: Bufs, nv: Nv) returns (rv: Status)
      requires Valid() && bufs.Valid() && Sized(nv)
      modifies this`entries, this`chains, this`bufsize, this`nextSeq, ring, ring.buffer, bufs
      ensures ring.buffer == old(ring.buffer) || fresh(ring.buffer)
      ensures Valid() && bufs.Valid()
      ensures View() == old(View()).(table := FieldTable(p, old(View()), nv))
      ensures rv == if |FieldBytes(p, old(View()), nv)| <= old(bufs.Room()) then Success else BufferError
      ensures rv.Success? ==> bufs.Content() == old(bufs.Content()) + FieldBytes(p, old(View()), nv)
      ensures rv.Success? ==> bufs.Room() == old(bufs.Room()) - |FieldBytes(p, old(View()), nv)|
      ensures Grown(old(bufs.chunks), bufs.chunks, bufs.chunkLength, bufs.offset)
    {
      var mode := ModeOf(p, max, nv);
      var r := SearchAndIndex(nv, mode);
      if r.exact {
        rv := EmitInt(bufs, 0x80, r.index + 1, 7);
      } else {
        rv := EmitLiteral(p, bufs, r.index, nv, mode);
      }
    }

    /** The part of `deflate_nv` that works on the table. */
    method SearchAndIndex(nv: Nv, mode: Mode) returns (r: Found)
      requires Valid() && mode == ModeOf(p, max, nv)
      modifies this`entries, this`chains, this`bufsize, this`nextSeq, ring, ring.buffer
      ensures ring.buffer == old(ring.buffer) || fresh(ring.buffer)
      ensures Valid() && r == Search(p, old(Fields(entries)), nv, mode)
      ensures -1 <= r.index < UINT32 && (r.exact ==> r.index >= 0)
      ensures View() == old(View()).(table := FieldTable(p, old(View()), nv))
    {
      var token := LookupToken(p, nv.name);
      var hash := 0;
      if token == -1 {
        hash := NameHash(nv.name);
      } else if token <= LAST_STATIC_TOKEN {
        hash := p.statics[token].hash;
      }
      r := SearchHdTable(nv, token, mode, hash);
      SearchSound(p, Fields(entries), nv, mode);
      EntryCount();
      if !r.exact && mode.WithIndexing? {
        IndexField(nv, r.index, token, hash);
      }
    }

    /** The size updates of `nghttp2_hd_deflate_hd_bufs`. */
    method EmitUpdates(bufs: Bufs) returns (rv: Status)
      requires Valid() && bufs.Valid()
      modifies this`minMax, this`notify, bufs
      ensures Valid() && bufs.Valid() && View() == Notified(old(View()))
      ensures rv == if |UpdateBytes(old(View()))| <= old(bufs.Room()) then Success else BufferError
      ensures rv.Success? ==> bufs.Content() == old(bufs.Content()) + UpdateBytes(old(View()))
      ensures rv.Success? ==> bufs.Room() == old(bufs.Room()) - |UpdateBytes(old(View()))|
      ensures Grown(old(bufs.chunks), bufs.chunks, bufs.chunkLength, bufs.offset)
    {
      if !notify {
        return Success;
      }
      var min := minMax;
      notify := false;
      minMax := UINT32_MAX;
      rv := EmitSizes(bufs, min, max);
    }

    /** The field loop of `nghttp2_hd_deflate_hd_bufs`. */
    method EmitFields(bufs: Bufs, nvs: seq<Nv>) returns (rv: Status)
      requires Valid() && bufs.Valid() && forall i :: 0 <= i < |nvs| ==> Sized(nvs[i])
      modifies this`entries, this`chains, this`bufsize, this`nextSeq, ring, ring.buffer, bufs
      ensures ring.buffer == old(ring.buffer) || fresh(ring.buffer)
      ensures Valid() && bufs.Valid()
      ensures rv == if |FieldsBytes(p, old(View()), nvs)| <= old(bufs.Room()) then Success else BufferError
      ensures rv.Success? ==> View() == old(View()).(table := FieldsTable(p, old(View()), nvs))
      ensures rv.Success? ==> bufs.Content() == old(bufs.Content()) + FieldsBytes(p, old(View()), nvs)
      ensures rv.Success? ==> bufs.Room() == old(bufs.Room()) - |FieldsBytes(p, old(View()), nvs)|
      ensures Grown(old(bufs.chunks), bufs.chunks, bufs.chunkLength, bufs.offset)
    {
      var i := 0;
      ghost var all, content := FieldsBytes(p, View(), nvs), bufs.Content();
      assert nvs[0..] == nvs;
      while i < |nvs|
        invariant ring.buffer == old(ring.buffer) || fresh(ring.buffer)
        invariant 0 <= i <= |nvs| && Valid() && bufs.Valid()
        invariant bufs.Content() + FieldsBytes(p, View(), nvs[i..]) == content + all
        invariant bufs.Room() - |FieldsBytes(p, View(), nvs[i..])| == old(bufs.Room()) - |all|
        invariant View() == old(View()).(table := View().table)
        invariant FieldsTable(p, View(), nvs[i..]) == FieldsTable(p, old(View()), nvs)
        invariant Grown(old(bufs.chunks), bufs.chunks, bufs.chunkLength, bufs.offset)
      {
        ghost var mid, view, before := bufs.chunks, View(), bufs.Content();
        ghost var rest := FieldsBytes(p, view.(table := FieldTable(p, view, nvs[i])), nvs[i + 1..]);
        assert nvs[i..][0] == nvs[i] && nvs[i..][1..] == nvs[i + 1..];
        rv := DeflateNv(bufs, nvs[i]);
        GrownTransitive(old(bufs.chunks), mid, bufs.chunks, bufs.chunkLength, bufs.offset);
        if !rv.Success? {
          return;
        }
        ConcatAssoc(before, FieldBytes(p, view, nvs[i]), rest);
        i := i + 1;
      }
      assert nvs[i..] == [];
      rv := Success;
    }

    /** The octets of a block. */
    method EmitBlock(bufs: Bufs, nvs: seq<Nv>) returns (rv: Status)
      requires Valid() && bufs.Valid() && forall i :: 0 <= i < |nvs| ==> Sized(nvs[i])
      modifies this`minMax, this`notify, this`entries, this`chains, this`bufsize, this`nextSeq, ring, ring.buffer, bufs
      ensures ring.buffer == old(ring.buffer) || fresh(ring.buffer)
      ensures Valid() && bufs.Valid()
      ensures rv == if |BlockBytes(p, old(View()), nvs)| <= old(bufs.Room()) then Success else BufferError
      ensures rv.Success? ==> View() == AfterBlock(p, old(View()), nvs)
      ensures rv.Success? ==> bufs.Content() == old(bufs.Content()) + BlockBytes(p, old(View()), nvs)
      ensures Grown(old(bufs.chunks), bufs.chunks, bufs.chunkLength, bufs.offset)
    {
      rv := EmitUpdates(bufs);
      if rv.Success? {
        ghost var mid, view := bufs.chunks, View();
        rv := EmitFields(bufs, nvs);
        GrownTransitive(old(bufs.chunks), mid, bufs.chunks, bufs.chunkLength, bufs.offset);
        ConcatAssoc(old(bufs.Content()), UpdateBytes(old(View())), FieldsBytes(p, view, nvs));
      }
    }

    /** `nghttp2_hd_deflate_hd_bufs`: a failed call leaves the encoder unusable. */
    method DeflateHdBufs(bufs: Bufs, nvs: seq<Nv>) returns (rv: Status)
      requires Valid() && bufs.Valid() && forall i :: 0 <= i < |nvs| ==> Sized(nvs[i])
      modifies this, ring, ring.buffer, bufs
      ensures ring.buffer == old(ring.buffer) || fresh(ring.buffer)
      ensures Valid() && bufs.Valid()
      ensures old(bad) ==> rv == HeaderCompError
      ensures !old(bad) ==> rv == if |BlockBytes(p, old(View()), nvs)| <= old(bufs.Room()) then Success else BufferError
      ensures rv.Success? ==> !bad && View() == AfterBlock(p, old(View()), nvs)
      ensures rv.Success? ==> bufs.Content() == old(bufs.Content()) + BlockBytes(p, old(View()), nvs)
      ensures !rv.Success? ==> bad
      ensures Grown(old(bufs.chunks), bufs.chunks, bufs.chunkLength, bufs.offset)
    {
      if bad {
        return HeaderCompError;
      }
      rv := EmitBlock(bufs, nvs);
      if !rv.Success? {
        bad := true;
      }
    }

    /** `nghttp2_hd_deflate_change_table_size`. */
    method ChangeTableSize(settings: nat)
      requires Valid() && settings <= UINT32_MAX
      modifies this`entries, this`chains, this`bufsize, this`max, this`minMax, this`notify, ring`len
      ensures Valid() && View() == ChangeEncoderSize(old(View()), settings)
    {
      var next := Min(settings, cap);
      max := next;
      minMax := Min(minMax, next);
      notify := true;
      EvictTo(next);
    }
  }

  /** In the chain of a name, comparing tokens and hashes is comparing names. */
  lemma ChainCompares(p: Tables, es: seq<HdEntry>, nv: Nv)
    requires WfStatics(p) && NamesOk(p, es)
    ensures ComparesNames(Chain(es, HashOf(p, nv.name) % HD_MAP_SIZE), nv, LookupToken(p, nv.name), HashOf(p, nv.name))
  {
    var h := HashOf(p, nv.name) % HD_MAP_SIZE;
    var c := Chain(es, h);
    forall i | 0 <= i < |c|
      ensures NameMatches(c[i], nv, LookupToken(p, nv.name), HashOf(p, nv.name)) <==> c[i].field.name == nv.name
    {
      assert c[i] in c;
      ChainMembers(es, h, c[i]);
      var j :| 0 <= j < |es| && es[j] == c[i];
      NameMatchesIff(p, es, j, nv);
    }
  }

  /** The oldest entry is the last of its chain, and only there. */
  lemma ChainsPop(es: seq<HdEntry>, chains: seq<seq<HdEntry>>, next: nat) returns (rest: seq<HdEntry>)
    requires es != [] && ChainsOk(es, chains) && SeqsOk(es, next)
    requires |es| < 0x1000_0000 && next < UINT32
    ensures var e := es[|es| - 1];
            var h := e.hash % HD_MAP_SIZE;
            && chains[h] == rest + [e]
            && (forall i :: 0 <= i < |rest| ==> rest[i] != e)
            && ChainsOk(es[..|es| - 1], chains[h := rest])
  {
    var front, e := es[..|es| - 1], es[|es| - 1];
    var h := e.hash % HD_MAP_SIZE;
    rest := Chain(front, h);
    ChainPop(es, h);
    NotInFront(es, h, next);
    forall g | 0 <= g < HD_MAP_SIZE && g != h
      ensures Chain(es, g) == Chain(front, g)
    {
      ChainPop(es, g);
    }
  }

  /** The entry that leaves is in the chain once. */
  lemma NotInFront(es: seq<HdEntry>, h: nat, next: nat)
    requires es != [] && SeqsOk(es, next) && |es| < 0x1000_0000 && next < UINT32
    ensures var rest := Chain(es[..|es| - 1], h); forall i :: 0 <= i < |rest| ==> rest[i] != es[|es| - 1]
  {
    var front, e := es[..|es| - 1], es[|es| - 1];
    var rest := Chain(front, h);
    forall i | 0 <= i < |rest|
      ensures rest[i] != e
    {
      assert rest[i] in rest;
      ChainMembers(front, h, rest[i]);
      var j :| 0 <= j < |front| && front[j] == rest[i];
      assert es[j] == rest[i];
      SeqDistinct(next, j, |es| - 1);
    }
  }

  lemma SeqDistinct(next: nat, i: nat, j: nat)
    requires next < UINT32 && i < j < 0x1000_0000
    ensures SeqAt(next, i) != SeqAt(next, j)
  {
  }
}
