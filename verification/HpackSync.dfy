/**
  * Encoder and decoder in step: every header block written by the encoder is read back as the
  * fields it was made from, and leaves both dynamic tables equal, over any run of header blocks
  * and SETTINGS_HEADER_TABLE_SIZE changes.
  */
module HpackSync {
  import opened Bytes
  import opened HpackInteger
  import opened HpackTable
  import opened Huffman
  import opened Hpack
  import opened HpackInflate

  // -------------------------------------------------------------- reading what was written

  /** Two decoders that treat the next octet alike. */
  lemma SameStep(p: Tables, d: Decoder, d': Decoder, bytes: seq<byte>)
    requires WfTables(p) && WfDecoder(p, d) && WfDecoder(p, d') && bytes != []
    requires Step(p, d, bytes[0]) == Step(p, d', bytes[0])
    ensures Run(p, d, bytes) == Run(p, d', bytes)
  {
  }

  /** A step without output. */
  lemma ThenQuiet(p: Tables, r: StepResult, d: Decoder, rest: seq<byte>)
    requires WfTables(p) && WfDecoder(p, d) && r == Next(d, [])
    ensures Then(p, r, rest) == Run(p, d, rest)
  {
    PrependNone(Run(p, d, rest));
  }

  /** Reading an integer that was just started. */
  lemma RunInt(p: Tables, d: Decoder, first: byte, n: nat, rest: seq<byte>) returns (s: nat)
    requires WfTables(p) && WfDecoder(p, d) && IntPhase(d.phase) && d.left == 0
    requires n <= IntMax(d) ==> n <= UINT32_MAX
    ensures var bytes := Encode(first, n, IntPrefix(d));
            && (n <= IntMax(d) ==> Run(p, d, bytes + rest) == Then(p, AfterInt(p, d.(left := n, shift := s)), rest))
            && (n > IntMax(d) ==> Run(p, d, bytes + rest) == RunBad([]))
  {
    var bytes := Encode(first, n, IntPrefix(d));
    if n <= UINT32_MAX {
      IntegerRoundTrip(first, n, IntPrefix(d), []);
    } else {
      IntegerTooLarge(first, n, IntPrefix(d), []);
    }
    assert bytes + [] == bytes;
    var r := DecodeInt(0, 0, bytes, IntPrefix(d));
    s := if r.IntValue? then r.shift else 0;
    IntBulk(p, d, bytes, rest);
    assert bytes[|bytes|..] + rest == rest;
  }

  /** The first octet of an integer keeps the bits above the prefix. */
  lemma FirstOctet(first: byte, n: nat, prefix: nat)
    requires 4 <= prefix <= 7 && first % (PrefixMax(prefix) + 1) == 0
    ensures first <= Encode(first, n, prefix)[0] <= first + PrefixMax(prefix)
    ensures n > 0 ==> Encode(first, n, prefix)[0] > first
  {
  }

  /** A size update at the head of a block. */
  lemma RunSizeUpdate(p: Tables, d: Decoder, size: nat, rest: seq<byte>) returns (d': Decoder)
    requires WfTables(p) && WfDecoder(p, d) && BetweenBlocks(d)
    requires size <= Min(d.minMax, d.settingsMax) && size <= UINT32_MAX
    ensures WfDecoder(p, d') && Run(p, d, SizeUpdateBytes(size) + rest) == Run(p, d', rest)
    ensures d'.table == Evict(d.table, size) && d'.max == size && d'.minMax == UINT32_MAX
    ensures d'.settingsMax == d.settingsMax && d'.phase == InflateStart
  {
    var bytes := SizeUpdateBytes(size);
    FirstOctet(0x20, size, 5);
    var d0 := IndexedStart(p, d, ReadTableSize);
    assert (bytes + rest)[0] == bytes[0];
    SameStep(p, d, d0, bytes + rest);
    var s := RunInt(p, d0, 0x20, size, rest);
    d' := AfterTableSize(d0.(left := size, shift := s));
    PrependNone(Run(p, d', rest));
  }

  /** The fields of a decoder that matter when a literal is committed. */
  ghost predicate SameLiteral(d: Decoder, d': Decoder) {
    && d'.table == d.table && d'.max == d.max && d'.settingsMax == d.settingsMax && d'.minMax == d.minMax
    && d'.op == d.op && d'.index == d.index && d'.indexRequired == d.indexRequired && d'.noIndex == d.noIndex
  }

  /** A string whose length has been read, started with the decoder `d0`. */
  lemma RunString(p: Tables, d0: Decoder, s: seq<byte>, rest: seq<byte>) returns (d': Decoder)
    requires WfTables(p) && WellFormed(p.huff) && WfDecoder(p, d0)
    requires NamePhase(d0.phase) || ValuePhase(d0.phase)
    requires d0.huffman == UsesHuffman(p, s) == HuffPhase(d0.phase)
    requires d0.left == |StringData(p, s)| > 0
    requires d0.huffman ==> d0.ctx == INITIAL_CONTEXT
    requires (if NamePhase(d0.phase) then d0.name else d0.value) == []
    ensures WfDecoder(p, d') && d'.left == 0 && d'.phase == d0.phase && SameLiteral(d0, d')
    ensures NamePhase(d0.phase) ==> d'.name == s
    ensures ValuePhase(d0.phase) ==> d'.value == s && d'.name == d0.name
    ensures Run(p, d0, StringData(p, s) + rest) == Then(p, AfterString(p, d'), rest)
  {
    var data := StringData(p, s);
    StringBulk(p, d0, data, rest);
    d' := StringRead(p, d0, s, data);
  }

  /** The whole of a string in one step. */
  lemma StringRead(p: Tables, d0: Decoder, s: seq<byte>, data: seq<byte>) returns (d': Decoder)
    requires WfTables(p) && WellFormed(p.huff) && WfDecoder(p, d0)
    requires NamePhase(d0.phase) || ValuePhase(d0.phase)
    requires d0.huffman == UsesHuffman(p, s) == HuffPhase(d0.phase)
    requires data == StringData(p, s) && d0.left == |data| > 0
    requires d0.huffman ==> d0.ctx == INITIAL_CONTEXT
    requires (if NamePhase(d0.phase) then d0.name else d0.value) == []
    ensures WfDecoder(p, d') && d'.left == 0 && d'.phase == d0.phase && SameLiteral(d0, d')
    ensures NamePhase(d0.phase) ==> d'.name == s
    ensures ValuePhase(d0.phase) ==> d'.value == s && d'.name == d0.name
    ensures StringStep(p, d0, data) == AfterString(p, d')
  {
    var ctx := d0.ctx;
    if HuffPhase(d0.phase) {
      HuffmanRoundTrip(p.huff, s, data);
      ctx := Decode(p.huff, INITIAL_CONTEXT, data).ctx;
    }
    assert [] + s == s;
    assert ReadChunk(p, d0, data) == HuffOk(ctx, s);
    d' := Extend(d0, ctx, s, |data|);
  }

  lemma StringHead(p: Tables, s: seq<byte>)
    requires |p.huff.codes| == 257
    ensures StringBytes(p, s) != [] && ((StringBytes(p, s)[0] >= 128) == UsesHuffman(p, s))
  {
    FirstOctet(if UsesHuffman(p, s) then 0x80 else 0, |StringData(p, s)|, 7);
  }

  /** The flag octet of a string's length. */
  ghost function StringFlag(p: Tables, s: seq<byte>): byte
    requires |p.huff.codes| == 257
  {
    if UsesHuffman(p, s) then 0x80 else 0
  }

  /** The length of a string, read by a decoder that waits for it. */
  lemma RunLength(p: Tables, d: Decoder, s: seq<byte>, rest: seq<byte>) returns (sh: nat)
    requires WfTables(p) && |p.huff.codes| == 257 && WfDecoder(p, d)
    requires d.phase == NewnameCheckNamelen || d.phase == CheckValuelen
    ensures var d0 := LengthStart(p, d, StringFlag(p, s)).(left := |StringData(p, s)|, shift := sh);
            && (|StringData(p, s)| > MAX_NV ==> Run(p, d, StringBytes(p, s) + rest) == RunBad([]))
            && (|StringData(p, s)| <= MAX_NV ==>
                  IntRead(p, d0) &&
                  Run(p, d, StringBytes(p, s) + rest) == Then(p, AfterInt(p, d0), StringData(p, s) + rest))
  {
    var data, flag := StringData(p, s), StringFlag(p, s);
    var d0 := LengthStart(p, d, flag);
    sh := RunInt(p, d0, flag, |data|, data + rest);
    var bytes := StringBytes(p, s) + rest;
    assert bytes == Encode(flag, |data|, 7) + (data + rest) by {
      ConcatAssoc(Encode(flag, |data|, 7), data, rest);
    }
    StringHead(p, s);
    assert bytes[0] == StringBytes(p, s)[0];
    LengthSameStep(p, d, flag, bytes);
  }

  /** The first octet of a length counts for the length as well as for the flag. */
  lemma LengthSameStep(p: Tables, d: Decoder, flag: byte, bytes: seq<byte>)
    requires WfTables(p) && WfDecoder(p, d) && (d.phase.NewnameCheckNamelen? || d.phase.CheckValuelen?)
    requires bytes != [] && (bytes[0] >= 128) == (flag >= 128)
    ensures Run(p, d, bytes) == Run(p, LengthStart(p, d, flag), bytes)
  {
    SameStep(p, d, LengthStart(p, d, flag), bytes);
  }

  lemma EmptyData(p: Tables, s: seq<byte>)
    requires |p.huff.codes| == 257 && WfCode(p.huff) && StringData(p, s) == []
    ensures s == []
  {
  }

  /** A value: the decoder commits the field with it. */
  lemma RunValue(p: Tables, d: Decoder, s: seq<byte>, rest: seq<byte>) returns (d': Decoder)
    requires WfTables(p) && WellFormed(p.huff) && WfDecoder(p, d) && d.phase == CheckValuelen
    requires |StringData(p, s)| <= MAX_NV
    ensures WfDecoder(p, d') && ValuePhase(d'.phase) && SameLiteral(d, d') && d'.name == d.name && d'.value == s
    ensures Run(p, d, StringBytes(p, s) + rest) == Then(p, Commit(p, d'), rest)
  {
    var sh := RunLength(p, d, s, rest);
    var data := StringData(p, s);
    var d1 := ValueStart(p, LengthStart(p, d, StringFlag(p, s)).(left := |data|, shift := sh));
    if data == [] {
      d' := d1;
      assert data + rest == rest;
      EmptyData(p, s);
    } else {
      PrependNone(Run(p, d1, data + rest));
      d' := RunString(p, d1, s, rest);
    }
  }

  lemma LazyName(p: Tables, d: Decoder, rest: seq<byte>)
    requires WfTables(p) && WfDecoder(p, d) && NamePhase(d.phase) && d.left == 0 && rest != []
    ensures Run(p, d, rest) == Run(p, NameDone(p, d), rest)
  {
    SameStep(p, d, NameDone(p, d), rest);
  }

  /** A new name; the rest of the block must not be empty, since an empty name is finished lazily. */
  lemma RunName(p: Tables, d: Decoder, s: seq<byte>, rest: seq<byte>) returns (d': Decoder)
    requires WfTables(p) && WellFormed(p.huff) && WfDecoder(p, d) && d.phase == NewnameCheckNamelen && rest != []
    requires |StringData(p, s)| <= MAX_NV
    ensures WfDecoder(p, d') && d'.phase == CheckValuelen && SameLiteral(d, d') && d'.name == s
    ensures Run(p, d, StringBytes(p, s) + rest) == Run(p, d', rest)
  {
    var sh := RunLength(p, d, s, rest);
    var data := StringData(p, s);
    var d1 := NameStart(p, LengthStart(p, d, StringFlag(p, s)).(left := |data|, shift := sh));
    PrependNone(Run(p, d1, data + rest));
    if data == [] {
      assert data + rest == rest;
      EmptyData(p, s);
      d' := NameDone(p, d1);
      LazyName(p, d1, rest);
    } else {
      var d2 := RunString(p, d1, s, rest);
      d' := NameDone(p, d2);
      PrependNone(Run(p, d', rest));
    }
  }

  // ------------------------------------------------------------------------- one field

  /** Both ends have the same table and the decoder expects a field. */
  ghost predicate InField(e: Encoder, d: Decoder) {
    d.table == e.table && d.max == e.max && (d.phase.Opcode? || d.phase.InflateStart?)
  }

  /** `d'` is `d` after a field. */
  ghost predicate FieldDone(e: Encoder, table: seq<Field>, d: Decoder, d': Decoder) {
    && d'.table == table && d'.max == e.max && d'.phase == Opcode
    && d'.settingsMax == d.settingsMax && d'.minMax == d.minMax
  }

  /** The field that the decoder emits for `nv`. */
  function Expected(p: Tables, nv: Nv): Header {
    Header(FieldOf(nv), Sensitive(p, nv))
  }

  lemma ExpectedMode(p: Tables, max: nat, nv: Nv)
    ensures ModeOf(p, max, nv).NeverIndexing? == Sensitive(p, nv)
  {
  }

  lemma RunIndexed(p: Tables, d: Decoder, index: nat, rest: seq<byte>) returns (d': Decoder)
    requires WfTables(p) && WfDecoder(p, d) && (d.phase.Opcode? || d.phase.InflateStart?)
    requires index < STATIC_LENGTH + |d.table| && index + 1 <= UINT32_MAX
    ensures WfDecoder(p, d') && d'.table == d.table && d'.max == d.max && d'.phase == Opcode
    ensures d'.settingsMax == d.settingsMax && d'.minMax == d.minMax
    ensures Run(p, d, IndexedBytes(index) + rest) ==
            Prepend([Header(TableGet(p, d.table, index), false)], Run(p, d', rest))
  {
    var bytes := IndexedBytes(index) + rest;
    var d0 := IndexedStart(p, d, ReadIndex);
    FirstOctet(0x80, index + 1, 7);
    assert bytes[0] == IndexedBytes(index)[0];
    SameStep(p, d, d0, bytes);
    var s := RunInt(p, d0, 0x80, index + 1, rest);
    d' := d0.(left := index + 1, shift := s, index := index, phase := Opcode);
  }

  lemma LiteralOctet(mode: Mode, n: nat)
    requires n > 0
    ensures var b := Encode(FirstByte(mode), n, IndexPrefix(mode))[0];
            && b / 32 != 1 && b < 128 && b != 0x40 && b != 0 && b != 0x10
            && ((b >= 64) == mode.WithIndexing?) && ((b / 16 == 1) == mode.NeverIndexing?)
  {
    FirstOctet(FirstByte(mode), n, IndexPrefix(mode));
  }

  /** The opcode and the index of the name of a literal. */
  lemma RunNameIndex(p: Tables, d: Decoder, index: nat, mode: Mode, head: seq<byte>, rest: seq<byte>)
    returns (d': Decoder)
    requires WfTables(p) && WfDecoder(p, d) && (d.phase.Opcode? || d.phase.InflateStart?)
    requires index < STATIC_LENGTH + |d.table| && index + 1 <= UINT32_MAX
    requires head == Encode(FirstByte(mode), index + 1, IndexPrefix(mode))
    ensures WfDecoder(p, d') && d'.phase == CheckValuelen && d'.op == OpIndname && d'.index == index
    ensures d'.table == d.table && d'.max == d.max && d'.settingsMax == d.settingsMax && d'.minMax == d.minMax
    ensures d'.indexRequired == mode.WithIndexing? && d'.noIndex == mode.NeverIndexing?
    ensures Run(p, d, head + rest) == Run(p, d', rest)
  {
    LiteralOctet(mode, index + 1);
    var d0 := LiteralStart(p, d, head[0]);
    assert (head + rest)[0] == head[0];
    SameStep(p, d, d0, head + rest);
    d' := RunStartedIndex(p, d0, FirstByte(mode), index, rest);
  }

  lemma RunStartedIndex(p: Tables, d: Decoder, first: byte, index: nat, rest: seq<byte>) returns (d': Decoder)
    requires WfTables(p) && WfDecoder(p, d) && d.phase.ReadIndex? && d.op.OpIndname? && d.left == 0
    requires index < STATIC_LENGTH + |d.table| && index + 1 <= UINT32_MAX
    ensures WfDecoder(p, d') && d'.phase == CheckValuelen && d'.op == OpIndname && d'.index == index
    ensures d'.table == d.table && d'.max == d.max && d'.settingsMax == d.settingsMax && d'.minMax == d.minMax
    ensures d'.indexRequired == d.indexRequired && d'.noIndex == d.noIndex
    ensures Run(p, d, Encode(first, index + 1, IntPrefix(d)) + rest) == Run(p, d', rest)
  {
    var bytes := Encode(first, index + 1, IntPrefix(d)) + rest;
    var s := RunInt(p, d, first, index + 1, rest);
    var d1 := d.(left := index + 1, shift := s);
    d' := d1.(index := index, phase := CheckValuelen);
    IndexRead(p, d1, index, d');
    assert Run(p, d, bytes) == Then(p, AfterInt(p, d1), rest);
    ThenQuiet(p, AfterInt(p, d1), d', rest);
  }

  lemma IndexRead(p: Tables, d: Decoder, index: nat, d': Decoder)
    requires WfTables(p) && d.phase.ReadIndex? && d.op.OpIndname? && d.left == index + 1
    requires ContextOk(p.huff, d.ctx) && TableSize(d.table) <= d.max && index < STATIC_LENGTH + |d.table|
    requires d' == d.(index := index, phase := CheckValuelen)
    ensures IntRead(p, d) && WfDecoder(p, d') && AfterInt(p, d) == Next(d', [])
  {
  }

  /** The opcode and the octets of a new name. */
  lemma RunNewName(p: Tables, d: Decoder, name: seq<byte>, mode: Mode, head: seq<byte>, rest: seq<byte>)
    returns (d': Decoder)
    requires WfTables(p) && WellFormed(p.huff) && WfDecoder(p, d) && (d.phase.Opcode? || d.phase.InflateStart?)
    requires |StringData(p, name)| <= MAX_NV && rest != [] && head == LiteralHead(p, -1, name, mode)
    ensures WfDecoder(p, d') && d'.phase == CheckValuelen && d'.op == OpNewname && d'.name == name
    ensures d'.table == d.table && d'.max == d.max && d'.settingsMax == d.settingsMax && d'.minMax == d.minMax
    ensures d'.indexRequired == mode.WithIndexing? && d'.noIndex == mode.NeverIndexing?
    ensures Run(p, d, head + rest) == Run(p, d', rest)
  {
    var d0 := LiteralStart(p, d, FirstByte(mode));
    ConcatAssoc([FirstByte(mode)], StringBytes(p, name), rest);
    RunStep(p, d, FirstByte(mode), StringBytes(p, name) + rest);
    PrependNone(Run(p, d0, StringBytes(p, name) + rest));
    d' := RunName(p, d0, name, rest);
  }

  /** The strings of a field fit what the decoder accepts, as far as they are written out. */
  ghost predicate FieldFits(p: Tables, e: Encoder, nv: Nv)
    requires |p.statics| == STATIC_LENGTH && |p.huff.codes| == 257
  {
    var r := Search(p, e.table, nv, ModeOf(p, e.max, nv));
    r.exact || (|StringData(p, nv.value)| <= MAX_NV && (r.index == -1 ==> |StringData(p, nv.name)| <= MAX_NV))
  }

  /** The name part of a literal, both forms. */
  lemma RunLiteralHead(p: Tables, e: Encoder, d: Decoder, nv: Nv, r: Found, mode: Mode, rest: seq<byte>)
    returns (d': Decoder)
    requires WfStatics(p) && WfTables(p) && WellFormed(p.huff) && WfDecoder(p, d) && InField(e, d)
    requires -1 <= r.index < STATIC_LENGTH + |d.table| && r.index + 1 <= UINT32_MAX && rest != []
    requires r.index >= 0 ==> TableGet(p, d.table, r.index).name == nv.name
    requires r.index == -1 ==> |StringData(p, nv.name)| <= MAX_NV
    ensures WfDecoder(p, d') && d'.phase == CheckValuelen
    ensures (if d'.op.OpIndname? then TableGet(p, d'.table, d'.index).name else d'.name) == nv.name
    ensures d'.table == d.table && d'.max == d.max && d'.settingsMax == d.settingsMax && d'.minMax == d.minMax
    ensures d'.indexRequired == mode.WithIndexing? && d'.noIndex == mode.NeverIndexing?
    ensures Run(p, d, LiteralHead(p, r.index, nv.name, mode) + rest) == Run(p, d', rest)
  {
    var head := LiteralHead(p, r.index, nv.name, mode);
    if r.index == -1 {
      d' := RunNewName(p, d, nv.name, mode, head, rest);
    } else {
      d' := RunNameIndex(p, d, r.index, mode, head, rest);
    }
  }

  /** A literal field. */
  lemma RunLiteral(p: Tables, e: Encoder, d: Decoder, nv: Nv, r: Found, mode: Mode, rest: seq<byte>)
    returns (d': Decoder)
    requires WfStatics(p) && WfTables(p) && WellFormed(p.huff) && WfDecoder(p, d) && InField(e, d)
    requires -1 <= r.index < STATIC_LENGTH + |d.table| && r.index + 1 <= UINT32_MAX
    requires r.index >= 0 ==> TableGet(p, d.table, r.index).name == nv.name
    requires |StringData(p, nv.value)| <= MAX_NV && (r.index == -1 ==> |StringData(p, nv.name)| <= MAX_NV)
    ensures WfDecoder(p, d')
    ensures FieldDone(e, if mode.WithIndexing? then AddEntry(e.table, e.max, FieldOf(nv)) else e.table, d, d')
    ensures Run(p, d, LiteralBytes(p, r.index, nv, mode) + rest) ==
            Prepend([Header(FieldOf(nv), mode.NeverIndexing?)], Run(p, d', rest))
  {
    var tail := StringBytes(p, nv.value) + rest;
    StringHead(p, nv.value);
    var d1 := RunLiteralHead(p, e, d, nv, r, mode, tail);
    ConcatAssoc(LiteralHead(p, r.index, nv.name, mode), StringBytes(p, nv.value), rest);
    var d2 := RunValue(p, d1, nv.value, rest);
    d' := Commit(p, d2).d;
  }

  /** Every field is read back as it was written, and both tables change alike. */
  lemma RunField(p: Tables, e: Encoder, d: Decoder, nv: Nv, rest: seq<byte>) returns (d': Decoder)
    requires WfStatics(p) && WfTables(p) && WellFormed(p.huff) && WfDecoder(p, d) && InField(e, d)
    requires FieldFits(p, e, nv) && e.max <= UINT32_MAX
    ensures WfDecoder(p, d') && FieldDone(e, FieldTable(p, e, nv), d, d')
    ensures Run(p, d, FieldBytes(p, e, nv) + rest) == Prepend([Expected(p, nv)], Run(p, d', rest))
  {
    var mode := ModeOf(p, e.max, nv);
    var r := Search(p, e.table, nv, mode);
    SearchSound(p, e.table, nv, mode);
    ExpectedMode(p, e.max, nv);
    TableLength(e.table);
    if r.exact {
      d' := RunIndexed(p, d, r.index, rest);
    } else {
      d' := RunLiteral(p, e, d, nv, r, mode, rest);
    }
  }

  // ------------------------------------------------------------------- header blocks

  ghost predicate FieldsFit(p: Tables, e: Encoder, nvs: seq<Nv>)
    requires |p.statics| == STATIC_LENGTH && |p.huff.codes| == 257
    decreases |nvs|
  {
    nvs == [] || (FieldFits(p, e, nvs[0]) && FieldsFit(p, e.(table := FieldTable(p, e, nvs[0])), nvs[1..]))
  }

  function ExpectedFields(p: Tables, nvs: seq<Nv>): seq<Header> {
    if nvs == [] then [] else [Expected(p, nvs[0])] + ExpectedFields(p, nvs[1..])
  }

  lemma {:induction false} RunFields(p: Tables, e: Encoder, d: Decoder, nvs: seq<Nv>) returns (d': Decoder)
    requires WfStatics(p) && WfTables(p) && WellFormed(p.huff) && WfDecoder(p, d) && InField(e, d)
    requires FieldsFit(p, e, nvs) && e.max <= UINT32_MAX
    ensures WfDecoder(p, d') && MayEnd(d') && d'.table == FieldsTable(p, e, nvs) && d'.max == e.max
    ensures d'.settingsMax == d.settingsMax && d'.minMax == d.minMax
    ensures Run(p, d, FieldsBytes(p, e, nvs)) == RunOk(d', ExpectedFields(p, nvs))
    decreases |nvs|
  {
    if nvs == [] {
      d' := d;
    } else {
      var e' := e.(table := FieldTable(p, e, nvs[0]));
      var d1 := RunField(p, e, d, nvs[0], FieldsBytes(p, e', nvs[1..]));
      d' := RunFields(p, e', d1, nvs[1..]);
    }
  }

  /**
    * What holds between the blocks.  While a change of the table size has not been announced, the
    * decoder's table is the encoder's with possibly more old entries, which the smallest
    * announced size will evict.
    */
  ghost predicate InStep(e: Encoder, d: Decoder) {
    && BetweenBlocks(d)
    && TableSize(e.table) <= e.max <= UINT32_MAX && e.max <= e.cap && e.minMax <= UINT32_MAX
    && e.max <= d.settingsMax
    && if e.notify then
         && Min(e.minMax, e.max) <= d.minMax
         && (e.minMax <= e.max || e.max == e.cap)
         && Evict(d.table, Min(e.minMax, e.max)) == e.table
       else
         d.table == e.table && d.max == e.max && d.phase == InflateStart && d.minMax == UINT32_MAX == e.minMax
  }

  /** One or two size updates bring the decoder's table to the encoder's. */
  lemma RunUpdates(p: Tables, e: Encoder, d: Decoder, rest: seq<byte>) returns (d': Decoder)
    requires WfTables(p) && WfDecoder(p, d) && InStep(e, d)
    ensures WfDecoder(p, d') && InField(Notified(e), d') && d'.phase == InflateStart && d'.minMax == UINT32_MAX
    ensures d'.settingsMax == d.settingsMax
    ensures Run(p, d, UpdateBytes(e) + rest) == Run(p, d', rest)
  {
    if !e.notify {
      assert UpdateBytes(e) + rest == rest;
      d' := d;
    } else if e.max > e.minMax {
      ConcatAssoc(SizeUpdateBytes(e.minMax), SizeUpdateBytes(e.max), rest);
      var d1 := RunSizeUpdate(p, d, e.minMax, SizeUpdateBytes(e.max) + rest);
      d' := RunSizeUpdate(p, d1, e.max, rest);
      EvictNothing(e.table, e.max);
    } else {
      assert [] + SizeUpdateBytes(e.max) == SizeUpdateBytes(e.max);
      d' := RunSizeUpdate(p, d, e.max, rest);
    }
  }

  /** A header block: the fields come back in order and both ends are in step again. */
  lemma RunBlock(p: Tables, e: Encoder, d: Decoder, nvs: seq<Nv>) returns (d': Decoder)
    requires WfStatics(p) && WfTables(p) && WellFormed(p.huff) && WfDecoder(p, d) && InStep(e, d)
    requires FieldsFit(p, Notified(e), nvs)
    ensures Run(p, d, BlockBytes(p, e, nvs)) == RunOk(d', ExpectedFields(p, nvs))
    ensures WfDecoder(p, d') && MayEnd(d') && d'.table == AfterBlock(p, e, nvs).table
    ensures WfDecoder(p, EndHeaders(d')) && InStep(AfterBlock(p, e, nvs), EndHeaders(d'))
  {
    var e1 := Notified(e);
    var d1 := RunUpdates(p, e, d, FieldsBytes(p, e1, nvs));
    d' := RunFields(p, e1, d1, nvs);
    FieldsTableFits(p, e1, nvs);
    InStepAgain(p, e, AfterBlock(p, e, nvs), d, d');
  }

  /** After a block nothing is left to announce. */
  lemma InStepAgain(p: Tables, e: Encoder, e': Encoder, d: Decoder, d': Decoder)
    requires InStep(e, d) && e' == Notified(e).(table := d'.table) && TableSize(e'.table) <= e'.max
    requires WfDecoder(p, d') && MayEnd(d') && d'.max == e'.max
    requires d'.settingsMax == d.settingsMax && d'.minMax == UINT32_MAX
    ensures WfDecoder(p, EndHeaders(d')) && InStep(e', EndHeaders(d'))
  {
  }

  lemma {:induction false} FieldsTableFits(p: Tables, e: Encoder, nvs: seq<Nv>)
    requires |p.statics| == STATIC_LENGTH && TableSize(e.table) <= e.max
    ensures TableSize(FieldsTable(p, e, nvs)) <= e.max
    decreases |nvs|
  {
    if nvs != [] {
      FieldsTableFits(p, e.(table := FieldTable(p, e, nvs[0])), nvs[1..]);
    }
  }

  // ------------------------------------------------------------------ strings too long

  lemma RejectNewName(p: Tables, d: Decoder, name: seq<byte>, mode: Mode, rest: seq<byte>)
    requires WfTables(p) && |p.huff.codes| == 257 && WfDecoder(p, d) && (d.phase.Opcode? || d.phase.InflateStart?)
    requires MAX_NV < |StringData(p, name)|
    ensures Run(p, d, [FirstByte(mode)] + StringBytes(p, name) + rest) == RunBad([])
  {
    var d0 := LiteralStart(p, d, FirstByte(mode));
    ConcatAssoc([FirstByte(mode)], StringBytes(p, name), rest);
    RunStep(p, d, FirstByte(mode), StringBytes(p, name) + rest);
    PrependNone(Run(p, d0, StringBytes(p, name) + rest));
    var _ := RunLength(p, d0, name, rest);
  }

  lemma RejectValue(p: Tables, e: Encoder, d: Decoder, nv: Nv, r: Found, mode: Mode, rest: seq<byte>)
    requires WfStatics(p) && WfTables(p) && WellFormed(p.huff) && WfDecoder(p, d) && InField(e, d)
    requires -1 <= r.index < STATIC_LENGTH + |d.table| && r.index + 1 <= UINT32_MAX
    requires r.index >= 0 ==> TableGet(p, d.table, r.index).name == nv.name
    requires r.index == -1 ==> |StringData(p, nv.name)| <= MAX_NV
    requires MAX_NV < |StringData(p, nv.value)|
    ensures Run(p, d, LiteralBytes(p, r.index, nv, mode) + rest) == RunBad([])
  {
    var tail := StringBytes(p, nv.value) + rest;
    StringHead(p, nv.value);
    var d1 := RunLiteralHead(p, e, d, nv, r, mode, tail);
    ConcatAssoc(LiteralHead(p, r.index, nv.name, mode), StringBytes(p, nv.value), rest);
    var _ := RunLength(p, d1, nv.value, rest);
  }

  /** A field with a string over the limit is refused as soon as its length is read. */
  lemma RejectField(p: Tables, e: Encoder, d: Decoder, nv: Nv, rest: seq<byte>)
    requires WfStatics(p) && WfTables(p) && WellFormed(p.huff) && WfDecoder(p, d) && InField(e, d)
    requires !FieldFits(p, e, nv) && e.max <= UINT32_MAX
    ensures Run(p, d, FieldBytes(p, e, nv) + rest) == RunBad([])
  {
    var mode := ModeOf(p, e.max, nv);
    var r := Search(p, e.table, nv, mode);
    SearchSound(p, e.table, nv, mode);
    TableLength(e.table);
    if r.index == -1 && |StringData(p, nv.name)| > MAX_NV {
      ConcatAssoc(LiteralHead(p, r.index, nv.name, mode), StringBytes(p, nv.value), rest);
      RejectNewName(p, d, nv.name, mode, StringBytes(p, nv.value) + rest);
    } else {
      RejectValue(p, e, d, nv, r, mode, rest);
    }
  }

  lemma {:induction false} RejectFields(p: Tables, e: Encoder, d: Decoder, nvs: seq<Nv>)
    requires WfStatics(p) && WfTables(p) && WellFormed(p.huff) && WfDecoder(p, d) && InField(e, d)
    requires !FieldsFit(p, e, nvs) && e.max <= UINT32_MAX
    ensures Run(p, d, FieldsBytes(p, e, nvs)).RunBad?
    decreases |nvs|
  {
    var e' := e.(table := FieldTable(p, e, nvs[0]));
    if FieldFits(p, e, nvs[0]) {
      var d1 := RunField(p, e, d, nvs[0], FieldsBytes(p, e', nvs[1..]));
      RejectFields(p, e', d1, nvs[1..]);
    } else {
      RejectField(p, e, d, nvs[0], FieldsBytes(p, e', nvs[1..]));
    }
  }

  /** The decoder accepts a block exactly when every string written out is within its limit. */
  lemma BlockAccepted(p: Tables, e: Encoder, d: Decoder, nvs: seq<Nv>)
    requires WfStatics(p) && WfTables(p) && WellFormed(p.huff) && WfDecoder(p, d) && InStep(e, d)
    ensures Run(p, d, BlockBytes(p, e, nvs)).RunOk? <==> FieldsFit(p, Notified(e), nvs)
  {
    if FieldsFit(p, Notified(e), nvs) {
      var _ := RunBlock(p, e, d, nvs);
    } else {
      var d1 := RunUpdates(p, e, d, FieldsBytes(p, Notified(e), nvs));
      RejectFields(p, Notified(e), d1, nvs);
    }
  }

  // ------------------------------------------------------------------------ settings

  function MinOf(sizes: seq<nat>): (m: nat)
    requires sizes != []
    ensures m <= sizes[|sizes| - 1]
  {
    if |sizes| == 1 then sizes[0] else Min(sizes[0], MinOf(sizes[1..]))
  }

  /** The encoder's end applies every SETTINGS_HEADER_TABLE_SIZE of a SETTINGS frame in turn. */
  function ChangeAll(e: Encoder, sizes: seq<nat>): Encoder
    decreases |sizes|
  {
    if sizes == [] then e else ChangeAll(ChangeEncoderSize(e, sizes[0]), sizes[1..])
  }

  /** The decoder's end applies the smallest of them and then the last, once they are acknowledged. */
  function ApplySettings(d: Decoder, sizes: seq<nat>): Decoder
    requires BetweenBlocks(d) && sizes != []
  {
    var m, last := MinOf(sizes), sizes[|sizes| - 1];
    ChangeDecoderSize(if m < last then ChangeDecoderSize(d, m) else d, last)
  }

  /** Only the smallest and the last size matter to the encoder. */
  lemma {:induction false} ChangeAllShape(e: Encoder, sizes: seq<nat>)
    requires sizes != []
    ensures ChangeAll(e, sizes) ==
            e.(max := Min(sizes[|sizes| - 1], e.cap), minMax := Min(e.minMax, Min(MinOf(sizes), e.cap)),
               notify := true, table := Evict(e.table, Min(MinOf(sizes), e.cap)))
    decreases |sizes|
  {
    var e1 := ChangeEncoderSize(e, sizes[0]);
    if |sizes| == 1 {
      assert sizes[1..] == [];
    } else {
      ChangeAllShape(e1, sizes[1..]);
      EvictTwice(e.table, Min(sizes[0], e.cap), Min(MinOf(sizes[1..]), e.cap));
    }
  }

  /** Only the smallest and the last size matter to the decoder's table. */
  lemma ApplySettingsShape(d: Decoder, sizes: seq<nat>)
    requires BetweenBlocks(d) && sizes != []
    ensures var d' := ApplySettings(d, sizes);
            && BetweenBlocks(d') && d'.table == Evict(d.table, MinOf(sizes))
            && d'.max == d'.settingsMax == sizes[|sizes| - 1] && TableSize(d'.table) <= d'.max
            && (d'.minMax == d.minMax || d'.minMax >= MinOf(sizes))
  {
    EvictTwice(d.table, MinOf(sizes), sizes[|sizes| - 1]);
  }

  /** The smallest size announced to the decoder evicts what the encoder evicted. */
  lemma SettingsTable(e: Encoder, d: Decoder, m: nat)
    requires InStep(e, d)
    ensures Evict(Evict(d.table, m), Min(e.minMax, Min(m, e.cap))) == Evict(e.table, Min(m, e.cap))
  {
    EvictTwice(d.table, m, Min(e.minMax, Min(m, e.cap)));
    if e.notify {
      EvictTwice(d.table, Min(e.minMax, e.max), Min(m, e.cap));
    } else {
      EvictTwice(d.table, e.max, Min(m, e.cap));
      EvictNothing(e.table, e.max);
      EvictTwice(d.table, e.max, Min(e.minMax, Min(m, e.cap)));
    }
  }

  /** The same in terms of the smallest size `m` and the last size `last` alone. */
  lemma SizesInStep(e: Encoder, d: Decoder, d': Decoder, m: nat, last: nat)
    requires InStep(e, d) && m <= last <= UINT32_MAX
    requires BetweenBlocks(d') && d'.table == Evict(d.table, m) && d'.settingsMax == last
    requires d'.minMax == d.minMax || d'.minMax >= m
    ensures InStep(e.(max := Min(last, e.cap), minMax := Min(e.minMax, Min(m, e.cap)), notify := true,
                      table := Evict(e.table, Min(m, e.cap))), d')
  {
    SettingsTable(e, d, m);
    EvictFits(e.table, Min(m, e.cap));
  }

  /** A SETTINGS frame keeps both ends in step. */
  lemma SettingsInStep(p: Tables, e: Encoder, d: Decoder, sizes: seq<nat>)
    requires WfTables(p) && WfDecoder(p, d) && InStep(e, d)
    requires sizes != [] && forall i :: 0 <= i < |sizes| ==> sizes[i] <= UINT32_MAX
    ensures WfDecoder(p, ApplySettings(d, sizes)) && InStep(ChangeAll(e, sizes), ApplySettings(d, sizes))
  {
    ApplySettingsWf(p, d, sizes);
    ChangeAllShape(e, sizes);
    ApplySettingsShape(d, sizes);
    assert sizes[|sizes| - 1] <= UINT32_MAX;
    SizesInStep(e, d, ApplySettings(d, sizes), MinOf(sizes), sizes[|sizes| - 1]);
  }

  lemma ChangeDecoderWf(p: Tables, d: Decoder, size: nat)
    requires WfDecoder(p, d) && BetweenBlocks(d)
    ensures WfDecoder(p, ChangeDecoderSize(d, size))
  {
  }

  lemma ApplySettingsWf(p: Tables, d: Decoder, sizes: seq<nat>)
    requires WfDecoder(p, d) && BetweenBlocks(d) && sizes != []
    ensures WfDecoder(p, ApplySettings(d, sizes))
  {
    ChangeDecoderWf(p, d, MinOf(sizes));
    ChangeDecoderWf(p, ChangeDecoderSize(d, MinOf(sizes)), sizes[|sizes| - 1]);
    ChangeDecoderWf(p, d, sizes[|sizes| - 1]);
  }

  lemma EvictFits(t: seq<Field>, limit: nat)
    ensures TableSize(Evict(t, limit)) <= limit
  {
  }

  // ---------------------------------------------------------------------------- runs

  /** What happens on a connection: a header block, or a SETTINGS frame with its acknowledgement. */
  datatype Event = Block(nvs: seq<Nv>) | Settings(sizes: seq<nat>)

  ghost predicate EventOk(p: Tables, e: Encoder, event: Event)
    requires |p.statics| == STATIC_LENGTH && |p.huff.codes| == 257
  {
    match event
    case Block(nvs) => FieldsFit(p, Notified(e), nvs)
    case Settings(sizes) => sizes != [] && forall i :: 0 <= i < |sizes| ==> sizes[i] <= UINT32_MAX
  }

  function EncoderAfter(p: Tables, e: Encoder, event: Event): Encoder
    requires |p.statics| == STATIC_LENGTH
  {
    match event
    case Block(nvs) => AfterBlock(p, e, nvs)
    case Settings(sizes) => ChangeAll(e, sizes)
  }

  ghost predicate EventsOk(p: Tables, e: Encoder, events: seq<Event>)
    requires |p.statics| == STATIC_LENGTH && |p.huff.codes| == 257
    decreases |events|
  {
    events == [] || (EventOk(p, e, events[0]) && EventsOk(p, EncoderAfter(p, e, events[0]), events[1..]))
  }

  /** Every block of the run is accepted, gives its fields back and leaves both tables equal. */
  ghost predicate StaysInStep(p: Tables, e: Encoder, d: Decoder, events: seq<Event>)
    requires WfStatics(p) && WfTables(p) && |p.huff.codes| == 257 && WfDecoder(p, d) && BetweenBlocks(d)
    requires EventsOk(p, e, events)
    decreases |events|
  {
    if events == [] then true
    else
      match events[0]
      case Block(nvs) =>
        var r := Run(p, d, BlockBytes(p, e, nvs));
        && r.RunOk? && r.out == ExpectedFields(p, nvs) && MayEnd(r.d)
        && r.d.table == AfterBlock(p, e, nvs).table && r.d.max == AfterBlock(p, e, nvs).max
        && WfDecoder(p, EndHeaders(r.d))
        && StaysInStep(p, AfterBlock(p, e, nvs), EndHeaders(r.d), events[1..])
      case Settings(sizes) =>
        && WfDecoder(p, ApplySettings(d, sizes)) && BetweenBlocks(ApplySettings(d, sizes))
        && StaysInStep(p, ChangeAll(e, sizes), ApplySettings(d, sizes), events[1..])
  }

  lemma {:induction false} RunEvents(p: Tables, e: Encoder, d: Decoder, events: seq<Event>)
    requires WfStatics(p) && WfTables(p) && WellFormed(p.huff) && WfDecoder(p, d) && InStep(e, d)
    requires EventsOk(p, e, events)
    ensures StaysInStep(p, e, d, events)
    decreases |events|
  {
    if events != [] {
      match events[0] {
        case Block(nvs) =>
          var d' := RunBlock(p, e, d, nvs);
          RunEvents(p, AfterBlock(p, e, nvs), EndHeaders(d'), events[1..]);
        case Settings(sizes) =>
          SettingsInStep(p, e, d, sizes);
          RunEvents(p, ChangeAll(e, sizes), ApplySettings(d, sizes), events[1..]);
      }
    }
  }

  /** Two fresh ends stay in step, whatever limit the encoder was given. */
  lemma AlwaysInStep(p: Tables, cap: nat, events: seq<Event>)
    requires WfStatics(p) && WfTables(p) && WellFormed(p.huff)
    requires EventsOk(p, InitialEncoder(cap), events)
    ensures WfDecoder(p, INITIAL_DECODER) && StaysInStep(p, InitialEncoder(cap), INITIAL_DECODER, events)
  {
    RunEvents(p, InitialEncoder(cap), INITIAL_DECODER, events);
  }
}
