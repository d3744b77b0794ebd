/**
  * What the decoder of lib/nghttp2_hd.c makes of any sequence of representations (RFC 7541 section 6),
  * also of those its own encoder never writes: which it refuses, and what the others mean.
  */
module HpackReading {
  import opened Bytes
  import opened HpackInteger
  import opened HpackTable
  import opened Huffman
  import opened Hpack
  import opened HpackInflate
  import opened HpackSync

  /** A string literal. */
  datatype Text = Text(huffman: bool, data: seq<byte>)

  /** A size update, a reference, or a literal whose name is written out if `index` is 0. */
  datatype Repr = Update(size: nat) | Ref(index: nat) | Literal(mode: Mode, index: nat, name: Text, value: Text)

  function Flag(s: Text): byte {
    if s.huffman then 0x80 else 0
  }

  function TextBytes(s: Text): seq<byte> {
    Encode(Flag(s), |s.data|, 7) + s.data
  }

  function LiteralOpcode(mode: Mode, index: nat): seq<byte> {
    match mode
    case WithIndexing => Encode(0x40, index, 6)
    case WithoutIndexing => Encode(0x00, index, 4)
    case NeverIndexing => Encode(0x10, index, 4)
  }

  function ReprBytes(r: Repr): seq<byte> {
    match r
    case Update(size) => Encode(0x20, size, 5)
    case Ref(index) => Encode(0x80, index, 7)
    case Literal(mode, index, name, value) =>
      LiteralOpcode(mode, index) + (NameBytes(index, name) + TextBytes(value))
  }

  function Wire(rs: seq<Repr>): seq<byte> {
    if rs == [] then [] else ReprBytes(rs[0]) + Wire(rs[1..])
  }

  // ------------------------------------------------------------------------ the meaning

  /**
    * The dynamic table with its size, the size last acknowledged, the largest size the next update may
    * name, whether one is owed, and whether the block is still at its head.
    */
  datatype View = View(table: seq<Field>, max: nat, settings: nat, limit: nat, owed: bool, head: bool)

  datatype Reading = Refused | Read(v: View, out: seq<Header>)

  datatype Spoken = Nonsense | Says(text: seq<byte>)

  /** At most 65536 octets as they come, and a whole Huffman string with proper padding. */
  function TextOf(p: Tables, s: Text): Spoken
    requires WfTables(p)
  {
    if |s.data| > 65536 then Nonsense
    else if !s.huffman then Says(s.data)
    else
      match Decode(p.huff, INITIAL_CONTEXT, s.data)
      case HuffFail => Nonsense
      case HuffOk(ctx, out) => if ctx.accept then Says(out) else Nonsense
  }

  /** The name of a literal. */
  function NameOf(p: Tables, t: seq<Field>, index: nat, name: Text): Spoken
    requires WfTables(p)
  {
    if index == 0 then TextOf(p, name)
    else if index > 61 + |t| then Nonsense
    else Says(TableGet(p, t, index - 1).name)
  }

  /** One representation. */
  function ReadOne(p: Tables, v: View, r: Repr): Reading
    requires WfTables(p)
  {
    match r
    case Update(size) =>
      if !v.head || size > v.limit || size > v.settings then Refused
      else Read(v.(table := Evict(v.table, size), max := size, limit := UINT32_MAX, owed := false), [])
    case Ref(index) =>
      if v.owed || index == 0 || index > 61 + |v.table| then Refused
      else Read(v.(head := false), [Header(TableGet(p, v.table, index - 1), false)])
    case Literal(mode, index, name, value) =>
      var n, x := NameOf(p, v.table, index, name), TextOf(p, value);
      if v.owed || n.Nonsense? || x.Nonsense? then Refused
      else
        var f := Field(n.text, x.text);
        Read(v.(head := false, table := if mode.WithIndexing? then AddEntry(v.table, v.max, f) else v.table),
             [Header(f, mode.NeverIndexing?)])
  }

  datatype Outcome = Stopped(out: seq<Header>) | Finished(v: View, out: seq<Header>)

  function Before(out: seq<Header>, o: Outcome): Outcome {
    match o
    case Stopped(rest) => Stopped(out + rest)
    case Finished(v, rest) => Finished(v, out + rest)
  }

  /** One after the other, up to the first that is refused. */
  function ReadAll(p: Tables, v: View, rs: seq<Repr>): Outcome
    requires WfTables(p)
    decreases |rs|
  {
    if rs == [] then Finished(v, [])
    else
      match ReadOne(p, v, rs[0])
      case Refused => Stopped([])
      case Read(v', out) => Before(out, ReadAll(p, v', rs[1..]))
  }

  // ------------------------------------------------------------------ the decoder means that

  function ViewOf(d: Decoder): View {
    View(d.table, d.max, d.settingsMax, d.minMax, d.phase.ExpectTableSize?, !d.phase.Opcode?)
  }

  /** Between two representations, with sizes of 32 bits. */
  ghost predicate Ready(p: Tables, d: Decoder) {
    && WfDecoder(p, d) && (BetweenBlocks(d) || d.phase.Opcode?)
    && d.max <= UINT32_MAX && d.minMax <= UINT32_MAX
  }

  /** What one representation does to the decoder, which comes to `d'` if it takes it. */
  ghost predicate Agrees(p: Tables, d: Decoder, bytes: seq<byte>, rest: seq<byte>, r: Reading, d': Decoder)
    requires WfTables(p) && WfDecoder(p, d)
  {
    match r
    case Refused => Run(p, d, bytes + rest) == RunBad([])
    case Read(v, out) => Ready(p, d') && ViewOf(d') == v && Run(p, d, bytes + rest) == Prepend(out, Run(p, d', rest))
  }

  /** A decoder that owes a size update takes nothing else. */
  lemma OwedFirst(p: Tables, d: Decoder, input: seq<byte>)
    requires WfTables(p) && WfDecoder(p, d) && d.phase.ExpectTableSize? && input != [] && input[0] / 32 != 1
    ensures Run(p, d, input) == RunBad([])
  {
  }

  lemma ReadUpdate(p: Tables, d: Decoder, size: nat, rest: seq<byte>) returns (d': Decoder)
    requires WfTables(p) && Ready(p, d)
    ensures Agrees(p, d, ReprBytes(Update(size)), rest, ReadOne(p, ViewOf(d), Update(size)), d')
  {
    var bytes := Encode(0x20, size, 5);
    FirstOctet(0x20, size, 5);
    assert (bytes + rest)[0] == bytes[0];
    d' := d;
    if !d.phase.Opcode? {
      var d0 := IndexedStart(p, d, ReadTableSize);
      SameStep(p, d, d0, bytes + rest);
      var s := RunInt(p, d0, 0x20, size, rest);
      if size <= IntMax(d0) {
        d' := AfterTableSize(d0.(left := size, shift := s));
        PrependNone(Run(p, d', rest));
      }
    }
  }

  lemma ReadRef(p: Tables, d: Decoder, index: nat, rest: seq<byte>) returns (d': Decoder)
    requires WfTables(p) && Ready(p, d)
    ensures Agrees(p, d, ReprBytes(Ref(index)), rest, ReadOne(p, ViewOf(d), Ref(index)), d')
  {
    var bytes := Encode(0x80, index, 7);
    FirstOctet(0x80, index, 7);
    assert (bytes + rest)[0] == bytes[0];
    TableLength(d.table);
    d' := d;
    if d.phase.ExpectTableSize? {
      OwedFirst(p, d, bytes + rest);
    } else if 0 < index <= 61 + |d.table| {
      d' := RunIndexed(p, d, index - 1, rest);
    } else {
      BadRef(p, d, index, rest);
    }
  }

  /** An index of 0 or beyond the tables. */
  lemma BadRef(p: Tables, d: Decoder, index: nat, rest: seq<byte>)
    requires WfTables(p) && Ready(p, d) && !d.phase.ExpectTableSize? && (index == 0 || index > 61 + |d.table|)
    ensures Run(p, d, Encode(0x80, index, 7) + rest) == RunBad([])
  {
    var bytes := Encode(0x80, index, 7);
    FirstOctet(0x80, index, 7);
    assert (bytes + rest)[0] == bytes[0];
    var d0 := IndexedStart(p, d, ReadIndex);
    SameStep(p, d, d0, bytes + rest);
    var _ := RunInt(p, d0, 0x80, index, rest);
  }

  // ---------------------------------------------------------------------------- literals

  /** The length of a string, read by a decoder that waits for it. */
  lemma ReadLength(p: Tables, d: Decoder, s: Text, rest: seq<byte>) returns (sh: nat)
    requires WfTables(p) && WfDecoder(p, d) && (d.phase.NewnameCheckNamelen? || d.phase.CheckValuelen?)
    ensures var d0 := LengthStart(p, d, Flag(s)).(left := |s.data|, shift := sh);
            && (|s.data| > 65536 ==> Run(p, d, TextBytes(s) + rest) == RunBad([]))
            && (|s.data| <= 65536 ==>
                  IntRead(p, d0) && Run(p, d, TextBytes(s) + rest) == Then(p, AfterInt(p, d0), s.data + rest))
  {
    TextSplit(s, rest);
    LengthSameStep(p, d, Flag(s), TextBytes(s) + rest);
    sh := ReadStarted(p, LengthStart(p, d, Flag(s)), Flag(s), |s.data|, s.data + rest);
  }

  lemma TextSplit(s: Text, rest: seq<byte>)
    ensures TextBytes(s) + rest == Encode(Flag(s), |s.data|, 7) + (s.data + rest)
    ensures TextBytes(s) + rest != [] && ((TextBytes(s) + rest)[0] >= 128) == (Flag(s) >= 128)
  {
    ConcatAssoc(Encode(Flag(s), |s.data|, 7), s.data, rest);
    FirstOctet(Flag(s), |s.data|, 7);
  }

  /** A length that has been started. */
  lemma ReadStarted(p: Tables, d: Decoder, flag: byte, n: nat, rest: seq<byte>) returns (sh: nat)
    requires WfTables(p) && WfDecoder(p, d) && d.left == 0
    requires d.phase.NewnameReadNamelen? || d.phase.ReadValuelen?
    ensures n > 65536 ==> Run(p, d, Encode(flag, n, 7) + rest) == RunBad([])
    ensures n <= 65536 ==>
              var d0 := d.(left := n, shift := sh);
              IntRead(p, d0) && Run(p, d, Encode(flag, n, 7) + rest) == Then(p, AfterInt(p, d0), rest)
  {
    assert IntMax(d) == 65536 && IntPrefix(d) == 7;
    sh := RunInt(p, d, flag, n, rest);
  }

  /** `d'` is `d0` with its string read. */
  ghost predicate TextRead(p: Tables, d0: Decoder, text: seq<byte>, d': Decoder) {
    && WfDecoder(p, d') && d'.left == 0 && d'.phase == d0.phase && SameLiteral(d0, d')
    && (NamePhase(d0.phase) ==> d'.name == text)
    && (ValuePhase(d0.phase) ==> d'.value == text && d'.name == d0.name)
  }

  /** The octets of a string. */
  lemma ReadData(p: Tables, d0: Decoder, s: Text, rest: seq<byte>) returns (d': Decoder)
    requires WfTables(p) && WfDecoder(p, d0) && (NamePhase(d0.phase) || ValuePhase(d0.phase))
    requires s.huffman == HuffPhase(d0.phase) && (s.huffman ==> d0.ctx == INITIAL_CONTEXT)
    requires 0 < d0.left == |s.data| <= 65536 && (if NamePhase(d0.phase) then d0.name else d0.value) == []
    ensures TextOf(p, s).Nonsense? ==> Run(p, d0, s.data + rest) == RunBad([])
    ensures TextOf(p, s).Says? ==>
              TextRead(p, d0, TextOf(p, s).text, d') && Run(p, d0, s.data + rest) == Then(p, AfterString(p, d'), rest)
  {
    StringBulk(p, d0, s.data, rest);
    d' := ReadChunkText(p, d0, s);
  }

  /** The whole of a string in one step. */
  lemma ReadChunkText(p: Tables, d0: Decoder, s: Text) returns (d': Decoder)
    requires WfTables(p) && WfDecoder(p, d0) && (NamePhase(d0.phase) || ValuePhase(d0.phase))
    requires s.huffman == HuffPhase(d0.phase) && (s.huffman ==> d0.ctx == INITIAL_CONTEXT)
    requires 0 < d0.left == |s.data| <= 65536 && (if NamePhase(d0.phase) then d0.name else d0.value) == []
    ensures TextOf(p, s).Nonsense? ==> StringStep(p, d0, s.data) == Bad
    ensures TextOf(p, s).Says? ==>
              TextRead(p, d0, TextOf(p, s).text, d') && StringStep(p, d0, s.data) == AfterString(p, d')
  {
    d' := d0;
    if TextOf(p, s).Says? {
      var text := TextOf(p, s).text;
      var ctx := if s.huffman then Decode(p.huff, INITIAL_CONTEXT, s.data).ctx else d0.ctx;
      assert [] + text == text;
      assert ReadChunk(p, d0, s.data) == HuffOk(ctx, text);
      d' := Extend(d0, ctx, text, |s.data|);
    }
  }

  lemma EmptyText(p: Tables, s: Text)
    requires WfTables(p) && s.data == []
    ensures TextOf(p, s) == Says([])
  {
  }

  lemma ReadValue(p: Tables, d: Decoder, s: Text, rest: seq<byte>) returns (d': Decoder)
    requires WfTables(p) && WfDecoder(p, d) && d.phase.CheckValuelen?
    ensures TextOf(p, s).Nonsense? ==> Run(p, d, TextBytes(s) + rest) == RunBad([])
    ensures TextOf(p, s).Says? ==>
              && WfDecoder(p, d') && ValuePhase(d'.phase) && SameLiteral(d, d') && d'.name == d.name
              && d'.value == TextOf(p, s).text && Run(p, d, TextBytes(s) + rest) == Then(p, Commit(p, d'), rest)
  {
    var sh := ReadLength(p, d, s, rest);
    d' := d;
    if |s.data| <= 65536 {
      var d1 := ValueStart(p, LengthStart(p, d, Flag(s)).(left := |s.data|, shift := sh));
      if s.data == [] {
        d' := d1;
        assert s.data + rest == rest;
        EmptyText(p, s);
      } else {
        PrependNone(Run(p, d1, s.data + rest));
        d' := ReadData(p, d1, s, rest);
      }
    }
  }

  lemma ReadName(p: Tables, d: Decoder, s: Text, rest: seq<byte>) returns (d': Decoder)
    requires WfTables(p) && WfDecoder(p, d) && d.phase.NewnameCheckNamelen? && rest != []
    ensures TextOf(p, s).Nonsense? ==> Run(p, d, TextBytes(s) + rest) == RunBad([])
    ensures TextOf(p, s).Says? ==>
              && WfDecoder(p, d') && d'.phase == CheckValuelen && SameLiteral(d, d')
              && d'.name == TextOf(p, s).text && Run(p, d, TextBytes(s) + rest) == Run(p, d', rest)
  {
    var sh := ReadLength(p, d, s, rest);
    d' := d;
    if |s.data| <= 65536 {
      var d1 := NameStart(p, LengthStart(p, d, Flag(s)).(left := |s.data|, shift := sh));
      PrependNone(Run(p, d1, s.data + rest));
      if s.data == [] {
        assert s.data + rest == rest;
        EmptyText(p, s);
        d' := NameDone(p, d1);
        LazyName(p, d1, rest);
      } else {
        var d2 := ReadData(p, d1, s, rest);
        if TextOf(p, s).Says? {
          d' := NameDone(p, d2);
          PrependNone(Run(p, d', rest));
        }
      }
    }
  }

  /** The literal now being read. */
  ghost predicate Begun(d: Decoder, d': Decoder, mode: Mode) {
    && d'.table == d.table && d'.max == d.max && d'.settingsMax == d.settingsMax && d'.minMax == d.minMax
    && d'.indexRequired == mode.WithIndexing? && d'.noIndex == mode.NeverIndexing?
  }

  lemma OpcodeIs(mode: Mode, index: nat)
    ensures LiteralOpcode(mode, index) == Encode(FirstByte(mode), index, IndexPrefix(mode))
    ensures index == 0 ==> LiteralOpcode(mode, index) == [FirstByte(mode)]
    ensures LiteralOpcode(mode, index)[0] / 32 != 1
  {
    FirstOctet(FirstByte(mode), index, IndexPrefix(mode));
  }

  /** `d'` is about to read the value of a literal whose name is `name`. */
  ghost predicate Headed(p: Tables, d: Decoder, mode: Mode, name: seq<byte>, d': Decoder)
    requires WfTables(p)
  {
    && WfDecoder(p, d') && d'.phase == CheckValuelen && Begun(d, d', mode)
    && (if d'.op.OpIndname? then d'.index < 61 + |d.table| && TableGet(p, d.table, d'.index).name == name
        else d'.name == name)
  }

  /** The opcode of a literal with a new name, and the name. */
  lemma ReadNewName(p: Tables, d: Decoder, mode: Mode, name: Text, rest: seq<byte>) returns (d': Decoder)
    requires WfTables(p) && Ready(p, d) && !d.phase.ExpectTableSize? && rest != []
    ensures TextOf(p, name).Nonsense? ==> Run(p, d, [FirstByte(mode)] + (TextBytes(name) + rest)) == RunBad([])
    ensures TextOf(p, name).Says? ==>
              && Headed(p, d, mode, TextOf(p, name).text, d')
              && Run(p, d, [FirstByte(mode)] + (TextBytes(name) + rest)) == Run(p, d', rest)
  {
    var d0 := LiteralStart(p, d, FirstByte(mode));
    RunStep(p, d, FirstByte(mode), TextBytes(name) + rest);
    PrependNone(Run(p, d0, TextBytes(name) + rest));
    d' := ReadName(p, d0, name, rest);
  }

  /** The octets of the name of a literal, if it is written out. */
  function NameBytes(index: nat, name: Text): seq<byte> {
    if index == 0 then TextBytes(name) else []
  }

  /** The opcode of a literal, and its name. */
  lemma ReadHead(p: Tables, d: Decoder, mode: Mode, index: nat, name: Text, rest: seq<byte>) returns (d': Decoder)
    requires WfTables(p) && Ready(p, d) && !d.phase.ExpectTableSize? && rest != []
    ensures var n := NameOf(p, d.table, index, name);
            var bytes := LiteralOpcode(mode, index) + (NameBytes(index, name) + rest);
            && (n.Nonsense? ==> Run(p, d, bytes) == RunBad([]))
            && (n.Says? ==> Headed(p, d, mode, n.text, d') && Run(p, d, bytes) == Run(p, d', rest))
  {
    OpcodeIs(mode, index);
    if index == 0 {
      d' := ReadNewName(p, d, mode, name, rest);
    } else {
      assert [] + rest == rest;
      d' := ReadNameIndex(p, d, mode, index, LiteralOpcode(mode, index), rest);
    }
  }

  lemma ReadNameIndex(p: Tables, d: Decoder, mode: Mode, index: nat, op: seq<byte>, rest: seq<byte>)
    returns (d': Decoder)
    requires WfTables(p) && Ready(p, d) && !d.phase.ExpectTableSize? && index > 0
    requires op == Encode(FirstByte(mode), index, IndexPrefix(mode))
    ensures index > 61 + |d.table| ==> Run(p, d, op + rest) == RunBad([])
    ensures index <= 61 + |d.table| ==>
              && WfDecoder(p, d') && d'.phase == CheckValuelen && Begun(d, d', mode)
              && d'.op == OpIndname && d'.index == index - 1 && Run(p, d, op + rest) == Run(p, d', rest)
  {
    TableLength(d.table);
    d' := d;
    if index <= 61 + |d.table| {
      d' := RunNameIndex(p, d, index - 1, mode, op, rest);
    } else {
      LiteralOctet(mode, index);
      var d0 := LiteralStart(p, d, op[0]);
      assert (op + rest)[0] == op[0];
      SameStep(p, d, d0, op + rest);
      var _ := RunInt(p, d0, FirstByte(mode), index, rest);
    }
  }

  lemma LiteralSplit(mode: Mode, index: nat, name: Text, value: Text, rest: seq<byte>)
    ensures ReprBytes(Literal(mode, index, name, value)) + rest ==
            LiteralOpcode(mode, index) + (NameBytes(index, name) + (TextBytes(value) + rest))
  {
    ConcatAssoc(LiteralOpcode(mode, index), NameBytes(index, name) + TextBytes(value), rest);
    ConcatAssoc(NameBytes(index, name), TextBytes(value), rest);
  }

  /** The field goes out, and into the table if it is to be indexed. */
  lemma CommitLiteral(p: Tables, d: Decoder, mode: Mode, name: seq<byte>, d1: Decoder, d2: Decoder, rest: seq<byte>)
    returns (d': Decoder)
    requires WfTables(p) && Ready(p, d) && Headed(p, d, mode, name, d1)
    requires WfDecoder(p, d2) && ValuePhase(d2.phase) && SameLiteral(d1, d2) && d2.name == d1.name
    ensures var f := Field(name, d2.value);
            && Ready(p, d')
            && Then(p, Commit(p, d2), rest) == Prepend([Header(f, mode.NeverIndexing?)], Run(p, d', rest))
            && ViewOf(d') == View(if mode.WithIndexing? then AddEntry(d.table, d.max, f) else d.table,
                                  d.max, d.settingsMax, d.minMax, false, false)
  {
    d' := Commit(p, d2).d;
  }

  lemma ReadLiteral(p: Tables, d: Decoder, mode: Mode, index: nat, name: Text, value: Text, rest: seq<byte>)
    returns (d': Decoder)
    requires WfTables(p) && Ready(p, d)
    ensures var r := Literal(mode, index, name, value);
            Agrees(p, d, ReprBytes(r), rest, ReadOne(p, ViewOf(d), r), d')
  {
    LiteralSplit(mode, index, name, value, rest);
    d' := d;
    if d.phase.ExpectTableSize? {
      OpcodeIs(mode, index);
      OwedFirst(p, d, ReprBytes(Literal(mode, index, name, value)) + rest);
    } else {
      var d1 := ReadHead(p, d, mode, index, name, TextBytes(value) + rest);
      var n := NameOf(p, d.table, index, name);
      if n.Says? {
        var d2 := ReadValue(p, d1, value, rest);
        if TextOf(p, value).Says? {
          d' := CommitLiteral(p, d, mode, n.text, d1, d2, rest);
        }
      }
    }
  }

  // -------------------------------------------------------------------------- whole blocks

  /** The decoder takes a representation exactly if it means something, and then does what it means. */
  lemma RunRepr(p: Tables, d: Decoder, r: Repr, rest: seq<byte>) returns (d': Decoder)
    requires WfTables(p) && Ready(p, d)
    ensures Agrees(p, d, ReprBytes(r), rest, ReadOne(p, ViewOf(d), r), d')
  {
    match r {
      case Update(size) => d' := ReadUpdate(p, d, size, rest);
      case Ref(index) => d' := ReadRef(p, d, index, rest);
      case Literal(mode, index, name, value) => d' := ReadLiteral(p, d, mode, index, name, value, rest);
    }
  }

  /**
    * Any sequence of representations: the decoder emits the fields, fails and ends up as the meaning
    * says; and the block may end there exactly if no size update is owed.
    */
  lemma {:induction false} RunReprs(p: Tables, d: Decoder, rs: seq<Repr>) returns (d': Decoder)
    requires WfTables(p) && Ready(p, d)
    ensures match ReadAll(p, ViewOf(d), rs)
            case Stopped(out) => Run(p, d, Wire(rs)) == RunBad(out)
            case Finished(v, out) =>
              Run(p, d, Wire(rs)) == RunOk(d', out) && Ready(p, d') && ViewOf(d') == v && (MayEnd(d') <==> !v.owed)
    decreases |rs|
  {
    d' := d;
    if rs != [] {
      var d1 := RunRepr(p, d, rs[0], Wire(rs[1..]));
      if ReadOne(p, ViewOf(d), rs[0]).Read? {
        d' := RunReprs(p, d1, rs[1..]);
      }
    }
  }

  // ------------------------------------------------------------------------ blocks cut short

  /** The block is refused, or cannot end here. */
  ghost predicate Unfinished(r: RunResult) {
    r.RunOk? ==> !MayEnd(r.d)
  }

  lemma IntCut(p: Tables, d: Decoder, first: byte, n: nat, k: nat)
    requires WfTables(p) && WfDecoder(p, d) && IntPhase(d.phase) && d.left == 0 && k < |Encode(first, n, IntPrefix(d))|
    ensures Unfinished(Run(p, d, Encode(first, n, IntPrefix(d))[..k]))
  {
    var prefix := IntPrefix(d);
    var bytes := Encode(first, n, prefix);
    var a := bytes[..k];
    assert a + bytes[k..] == bytes && bytes + [] == bytes && a + [] == a;
    if n <= UINT32_MAX {
      IntegerRoundTrip(first, n, prefix, []);
    } else {
      IntegerTooLarge(first, n, prefix, []);
    }
    DecodeIntChunks(0, 0, a, bytes[k..], prefix);
    IntBulk(p, d, a, []);
  }

  /** An integer that begins a representation or a string. */
  lemma StartCut(p: Tables, d: Decoder, d0: Decoder, first: byte, n: nat, k: nat)
    requires WfTables(p) && WfDecoder(p, d) && WfDecoder(p, d0) && IntPhase(d0.phase) && d0.left == 0
    requires 0 < k < |Encode(first, n, IntPrefix(d0))|
    requires var b := Encode(first, n, IntPrefix(d0))[0]; Step(p, d, b) == Step(p, d0, b)
    ensures Unfinished(Run(p, d, Encode(first, n, IntPrefix(d0))[..k]))
  {
    SameStep(p, d, d0, Encode(first, n, IntPrefix(d0))[..k]);
    IntCut(p, d0, first, n, k);
  }

  lemma UpdateCut(p: Tables, d: Decoder, size: nat, k: nat)
    requires WfTables(p) && Ready(p, d) && 0 < k < |Encode(0x20, size, 5)|
    ensures Unfinished(Run(p, d, Encode(0x20, size, 5)[..k]))
  {
    FirstOctet(0x20, size, 5);
    if !d.phase.Opcode? {
      StartCut(p, d, IndexedStart(p, d, ReadTableSize), 0x20, size, k);
    }
  }

  lemma RefCut(p: Tables, d: Decoder, index: nat, k: nat)
    requires WfTables(p) && Ready(p, d) && 0 < k < |Encode(0x80, index, 7)|
    ensures Unfinished(Run(p, d, Encode(0x80, index, 7)[..k]))
  {
    FirstOctet(0x80, index, 7);
    if d.phase.ExpectTableSize? {
      OwedFirst(p, d, Encode(0x80, index, 7)[..k]);
    } else {
      StartCut(p, d, IndexedStart(p, d, ReadIndex), 0x80, index, k);
    }
  }

  /** Some of the octets of a string. */
  lemma DataCut(p: Tables, d: Decoder, a: seq<byte>)
    requires WfTables(p) && WfDecoder(p, d) && (NamePhase(d.phase) || ValuePhase(d.phase)) && |a| < d.left
    ensures Unfinished(Run(p, d, a))
  {
    if a != [] {
      StringBulk(p, d, a, []);
      assert a + [] == a;
    }
  }

  lemma CutSplit(a: seq<byte>, b: seq<byte>, k: nat)
    requires k <= |a + b|
    ensures k >= |a| ==> (a + b)[..k] == a + b[..k - |a|]
    ensures k <= |a| ==> (a + b)[..k] == a[..k]
    ensures k > 0 && a != [] ==> (a + b)[..k] != [] && (a + b)[..k][0] == a[0]
  {
  }

  lemma TextCut(p: Tables, d: Decoder, s: Text, k: nat)
    requires WfTables(p) && WfDecoder(p, d) && (d.phase.NewnameCheckNamelen? || d.phase.CheckValuelen?)
    requires k < |TextBytes(s)|
    ensures Unfinished(Run(p, d, TextBytes(s)[..k]))
  {
    var e := Encode(Flag(s), |s.data|, 7);
    CutSplit(e, s.data, k);
    if k >= |e| {
      TextDataCut(p, d, s, s.data[..k - |e|]);
    } else if k > 0 {
      LengthCut(p, d, Flag(s), |s.data|, k);
    }
  }

  lemma LengthCut(p: Tables, d: Decoder, flag: byte, n: nat, k: nat)
    requires WfTables(p) && WfDecoder(p, d) && (d.phase.NewnameCheckNamelen? || d.phase.CheckValuelen?)
    requires 0 < k < |Encode(flag, n, 7)| && (flag == 0 || flag == 0x80)
    ensures Unfinished(Run(p, d, Encode(flag, n, 7)[..k]))
  {
    FirstOctet(flag, n, 7);
    StartCut(p, d, LengthStart(p, d, flag), flag, n, k);
  }

  lemma TextDataCut(p: Tables, d: Decoder, s: Text, a: seq<byte>)
    requires WfTables(p) && WfDecoder(p, d) && (d.phase.NewnameCheckNamelen? || d.phase.CheckValuelen?)
    requires |a| < |s.data|
    ensures Unfinished(Run(p, d, Encode(Flag(s), |s.data|, 7) + a))
  {
    var e := Encode(Flag(s), |s.data|, 7);
    FirstOctet(Flag(s), |s.data|, 7);
    CutSplit(e, a, |e + a|);
    LengthSameStep(p, d, Flag(s), e + a);
    StartedCut(p, LengthStart(p, d, Flag(s)), Flag(s), |s.data|, a);
  }

  lemma StartedCut(p: Tables, d: Decoder, flag: byte, n: nat, a: seq<byte>)
    requires WfTables(p) && WfDecoder(p, d) && d.left == 0 && |a| < n
    requires d.phase.NewnameReadNamelen? || d.phase.ReadValuelen?
    ensures Unfinished(Run(p, d, Encode(flag, n, 7) + a))
  {
    var sh := ReadStarted(p, d, flag, n, a);
    if n <= 65536 {
      var d1 := d.(left := n, shift := sh);
      var d2 := if d.phase.ReadValuelen? then ValueStart(p, d1) else NameStart(p, d1);
      PrependNone(Run(p, d2, a));
      DataCut(p, d2, a);
    }
  }

  /** A new name without what follows it. */
  lemma NameAlone(p: Tables, d: Decoder, s: Text)
    requires WfTables(p) && WfDecoder(p, d) && d.phase.NewnameCheckNamelen?
    ensures Unfinished(Run(p, d, TextBytes(s)))
  {
    var sh := ReadLength(p, d, s, []);
    assert TextBytes(s) + [] == TextBytes(s) && s.data + [] == s.data;
    if |s.data| <= 65536 {
      var d1 := NameStart(p, LengthStart(p, d, Flag(s)).(left := |s.data|, shift := sh));
      PrependNone(Run(p, d1, s.data));
      DataAlone(p, d1, s);
    }
  }

  lemma DataAlone(p: Tables, d: Decoder, s: Text)
    requires WfTables(p) && WfDecoder(p, d) && NamePhase(d.phase) && d.left == |s.data| <= 65536
    ensures Unfinished(Run(p, d, s.data))
  {
    if s.data != [] {
      StringBulk(p, d, s.data, []);
      assert s.data + [] == s.data;
    }
  }

  /** A literal with a new name, cut after its opcode. */
  lemma NewNameCut(p: Tables, d: Decoder, name: Text, value: Text, j: nat)
    requires WfTables(p) && WfDecoder(p, d) && d.phase.NewnameCheckNamelen? && j < |TextBytes(name) + TextBytes(value)|
    ensures Unfinished(Run(p, d, (TextBytes(name) + TextBytes(value))[..j]))
  {
    var nb, vb := TextBytes(name), TextBytes(value);
    if j < |nb| {
      assert (nb + vb)[..j] == nb[..j];
      TextCut(p, d, name, j);
    } else if j == |nb| {
      assert (nb + vb)[..j] == nb;
      NameAlone(p, d, name);
    } else {
      var i := j - |nb|;
      assert (nb + vb)[..j] == nb + vb[..i];
      var d' := ReadName(p, d, name, vb[..i]);
      if TextOf(p, name).Says? {
        TextCut(p, d', value, i);
      }
    }
  }

  /** A literal cut inside its opcode. */
  lemma OpcodeCut(p: Tables, d: Decoder, mode: Mode, index: nat, k: nat, bytes: seq<byte>)
    requires WfTables(p) && Ready(p, d) && !d.phase.ExpectTableSize? && index > 0
    requires 0 < k < |LiteralOpcode(mode, index)| && bytes == LiteralOpcode(mode, index)[..k]
    ensures Unfinished(Run(p, d, bytes))
  {
    OpcodeIs(mode, index);
    LiteralOctet(mode, index);
    StartCut(p, d, LiteralStart(p, d, LiteralOpcode(mode, index)[0]), FirstByte(mode), index, k);
  }

  /** A literal cut behind its opcode. */
  lemma NewRestCut(p: Tables, d: Decoder, mode: Mode, name: Text, value: Text, j: nat, bytes: seq<byte>)
    requires WfTables(p) && Ready(p, d) && !d.phase.ExpectTableSize? && j < |TextBytes(name) + TextBytes(value)|
    requires bytes == [FirstByte(mode)] + (TextBytes(name) + TextBytes(value))[..j]
    ensures Unfinished(Run(p, d, bytes))
  {
    var rest := (TextBytes(name) + TextBytes(value))[..j];
    var d0 := LiteralStart(p, d, FirstByte(mode));
    RunStep(p, d, FirstByte(mode), rest);
    PrependNone(Run(p, d0, rest));
    NewNameCut(p, d0, name, value, j);
  }

  lemma IndexedRestCut(p: Tables, d: Decoder, mode: Mode, index: nat, value: Text, j: nat, bytes: seq<byte>)
    requires WfTables(p) && Ready(p, d) && !d.phase.ExpectTableSize? && index > 0 && j < |TextBytes(value)|
    requires bytes == LiteralOpcode(mode, index) + TextBytes(value)[..j]
    ensures Unfinished(Run(p, d, bytes))
  {
    OpcodeIs(mode, index);
    var d' := ReadNameIndex(p, d, mode, index, LiteralOpcode(mode, index), TextBytes(value)[..j]);
    if index <= 61 + |d.table| {
      TextCut(p, d', value, j);
    }
  }

  /** What follows the opcode of a literal. */
  function LiteralTail(index: nat, name: Text, value: Text): seq<byte> {
    if index == 0 then TextBytes(name) + TextBytes(value) else TextBytes(value)
  }

  lemma LiteralIs(mode: Mode, index: nat, name: Text, value: Text)
    ensures ReprBytes(Literal(mode, index, name, value)) == LiteralOpcode(mode, index) + LiteralTail(index, name, value)
  {
    assert [] + TextBytes(value) == TextBytes(value);
  }

  /** Where a literal can be cut. */
  ghost predicate CutAt(op: seq<byte>, tail: seq<byte>, k: nat, bytes: seq<byte>) {
    && 0 < k < |op| + |tail| && bytes != [] && op != [] && bytes[0] == op[0]
    && (if k < |op| then bytes == op[..k] else bytes == op + tail[..k - |op|])
  }

  lemma CutCases(op: seq<byte>, tail: seq<byte>, k: nat)
    requires 0 < k < |op + tail| && op != []
    ensures CutAt(op, tail, k, (op + tail)[..k])
  {
    CutSplit(op, tail, k);
  }

  lemma NewLiteralCut(p: Tables, d: Decoder, mode: Mode, name: Text, value: Text, k: nat, bytes: seq<byte>)
    requires WfTables(p) && Ready(p, d) && !d.phase.ExpectTableSize?
    requires CutAt([FirstByte(mode)], TextBytes(name) + TextBytes(value), k, bytes)
    ensures Unfinished(Run(p, d, bytes))
  {
    NewRestCut(p, d, mode, name, value, k - 1, bytes);
  }

  lemma IndexedLiteralCut(p: Tables, d: Decoder, mode: Mode, index: nat, value: Text, k: nat, bytes: seq<byte>)
    requires WfTables(p) && Ready(p, d) && !d.phase.ExpectTableSize? && index > 0
    requires CutAt(LiteralOpcode(mode, index), TextBytes(value), k, bytes)
    ensures Unfinished(Run(p, d, bytes))
  {
    if k < |LiteralOpcode(mode, index)| {
      OpcodeCut(p, d, mode, index, k, bytes);
    } else {
      IndexedRestCut(p, d, mode, index, value, k - |LiteralOpcode(mode, index)|, bytes);
    }
  }

  lemma LiteralCut(p: Tables, d: Decoder, mode: Mode, index: nat, name: Text, value: Text, k: nat, bytes: seq<byte>)
    requires WfTables(p) && Ready(p, d)
    requires CutAt(LiteralOpcode(mode, index), LiteralTail(index, name, value), k, bytes)
    ensures Unfinished(Run(p, d, bytes))
  {
    if d.phase.ExpectTableSize? {
      OpcodeIs(mode, index);
      OwedFirst(p, d, bytes);
    } else if index == 0 {
      OpcodeIs(mode, index);
      NewLiteralCut(p, d, mode, name, value, k, bytes);
    } else {
      IndexedLiteralCut(p, d, mode, index, value, k, bytes);
    }
  }

  /** A representation that breaks off. */
  lemma ReprCut(p: Tables, d: Decoder, r: Repr, k: nat)
    requires WfTables(p) && Ready(p, d) && 0 < k < |ReprBytes(r)|
    ensures Unfinished(Run(p, d, ReprBytes(r)[..k]))
  {
    match r {
      case Update(size) => UpdateCut(p, d, size, k);
      case Ref(index) => RefCut(p, d, index, k);
      case Literal(mode, index, name, value) =>
        OpcodeIs(mode, index);
        LiteralIs(mode, index, name, value);
        CutCases(LiteralOpcode(mode, index), LiteralTail(index, name, value), k);
        LiteralCut(p, d, mode, index, name, value, k, ReprBytes(r)[..k]);
    }
  }

  /** A block that breaks off inside a representation is never taken for a whole one. */
  lemma {:induction false} BlockCut(p: Tables, d: Decoder, rs: seq<Repr>, r: Repr, k: nat)
    requires WfTables(p) && Ready(p, d) && 0 < k < |ReprBytes(r)|
    ensures Unfinished(Run(p, d, Wire(rs) + ReprBytes(r)[..k]))
    decreases |rs|
  {
    var rest := ReprBytes(r)[..k];
    if rs == [] {
      assert Wire(rs) + rest == rest;
      ReprCut(p, d, r, k);
    } else {
      ConcatAssoc(ReprBytes(rs[0]), Wire(rs[1..]), rest);
      var d1 := RunRepr(p, d, rs[0], Wire(rs[1..]) + rest);
      if ReadOne(p, ViewOf(d), rs[0]).Read? {
        BlockCut(p, d1, rs[1..], r, k);
      }
    }
  }

  // ------------------------------------------------------------------ changes of the table size

  /** Nothing but a size update of at most `limit` is taken, not even the end of the block. */
  ghost predicate Awaits(p: Tables, d: Decoder, limit: nat)
    requires WfTables(p) && WfDecoder(p, d)
  {
    && !MayEnd(d)
    && (forall input {:trigger Run(p, d, input)} ::
          input != [] && input[0] / 32 != 1 ==> Run(p, d, input) == RunBad([]))
    && (forall size: nat, rest {:trigger Encode(0x20, size, 5) + rest} ::
          size > limit ==> Run(p, d, Encode(0x20, size, 5) + rest) == RunBad([]))
  }

  /** After the size has been lowered the encoder owes an update that is no larger. */
  lemma LoweredSize(p: Tables, d: Decoder, settings: nat)
    requires WfTables(p) && WfDecoder(p, d) && BetweenBlocks(d) && settings < d.max
    ensures WfDecoder(p, ChangeDecoderSize(d, settings)) && Awaits(p, ChangeDecoderSize(d, settings), settings)
  {
    var d' := ChangeDecoderSize(d, settings);
    forall input {:trigger Run(p, d', input)} | input != [] && input[0] / 32 != 1
      ensures Run(p, d', input) == RunBad([])
    {
      OwedFirst(p, d', input);
    }
    forall size: nat, rest {:trigger Encode(0x20, size, 5) + rest} | size > settings
      ensures Run(p, d', Encode(0x20, size, 5) + rest) == RunBad([])
    {
      UpdateTooLarge(p, d', size, rest);
    }
  }

  lemma UpdateTooLarge(p: Tables, d: Decoder, size: nat, rest: seq<byte>)
    requires WfTables(p) && WfDecoder(p, d) && BetweenBlocks(d) && (size > d.minMax || size > d.settingsMax)
    ensures Run(p, d, Encode(0x20, size, 5) + rest) == RunBad([])
  {
    var bytes := Encode(0x20, size, 5);
    FirstOctet(0x20, size, 5);
    assert (bytes + rest)[0] == bytes[0];
    var d0 := IndexedStart(p, d, ReadTableSize);
    SameStep(p, d, d0, bytes + rest);
    var _ := RunInt(p, d0, 0x20, size, rest);
  }

  /** Raising the size, or naming it again, asks nothing of the encoder and evicts nothing. */
  lemma RaisedSize(p: Tables, d: Decoder, settings: nat)
    requires WfDecoder(p, d) && BetweenBlocks(d) && settings >= d.max
    ensures ViewOf(ChangeDecoderSize(d, settings)) == ViewOf(d).(max := settings, settings := settings)
  {
    EvictNothing(d.table, settings);
  }

  /** An update that is owed stays owed whatever sizes follow. */
  lemma StaysOwed(d: Decoder, settings: nat)
    requires BetweenBlocks(d)
    ensures ViewOf(ChangeDecoderSize(d, settings)).owed <==> ViewOf(d).owed || settings < d.max
  {
  }
}
