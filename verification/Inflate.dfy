/**
  * The HPACK decoder as a machine that takes one octet at a time: the reference for the inflater
  * object, whose loop in lib/nghttp2_hd.c reads integers and strings in bulk.
  */
module HpackInflate {
  import opened Bytes
  import opened HpackInteger
  import opened HpackTable
  import opened Huffman
  import opened Hpack

  /** `nghttp2_hd_inflate_state`. */
  datatype Phase =
    | ExpectTableSize
    | InflateStart
    | Opcode
    | ReadTableSize
    | ReadIndex
    | NewnameCheckNamelen
    | NewnameReadNamelen
    | NewnameReadNamehuff
    | NewnameReadName
    | CheckValuelen
    | ReadValuelen
    | ReadValuehuff
    | ReadValue

  /** `nghttp2_hd_opcode`. */
  datatype Op = OpNone | OpIndexed | OpNewname | OpIndname

  /** `nghttp2_hd_inflater`. */
  datatype Decoder = Decoder(
    table: seq<Field>,
    max: nat,
    settingsMax: nat,
    minMax: nat,
    phase: Phase,
    op: Op,
    left: nat,
    index: nat,
    shift: nat,
    huffman: bool,
    indexRequired: bool,
    noIndex: bool,
    ctx: HuffContext,
    name: seq<byte>,
    value: seq<byte>)

  /** An emitted field; `noIndex` is `NGHTTP2_NV_FLAG_NO_INDEX`. */
  datatype Header = Header(field: Field, noIndex: bool)

  const MAX_NV: nat := 65536

  ghost predicate WfTables(p: Tables) {
    |p.statics| == STATIC_LENGTH && Closed(p.huff)
  }

  predicate IntPhase(phase: Phase) {
    phase.ReadTableSize? || phase.ReadIndex? || phase.NewnameReadNamelen? || phase.ReadValuelen?
  }

  predicate NamePhase(phase: Phase) {
    phase.NewnameReadNamehuff? || phase.NewnameReadName?
  }

  predicate ValuePhase(phase: Phase) {
    phase.ReadValuehuff? || phase.ReadValue?
  }

  predicate HuffPhase(phase: Phase) {
    phase.NewnameReadNamehuff? || phase.ReadValuehuff?
  }

  /** The index of a name has been read and will be used when the value is complete. */
  predicate IndexPending(d: Decoder) {
    d.op.OpIndname? && (d.phase.CheckValuelen? || d.phase.ReadValuelen? || ValuePhase(d.phase))
  }

  /** A new name is being read. */
  predicate NamePending(d: Decoder) {
    d.phase.NewnameCheckNamelen? || d.phase.NewnameReadNamelen? || NamePhase(d.phase)
  }

  ghost predicate WfDecoder(p: Tables, d: Decoder) {
    && ContextOk(p.huff, d.ctx)
    && TableSize(d.table) <= d.max
    && (IntPhase(d.phase) ==> d.left <= IntMax(d) && (d.left == 0 ==> d.shift == 0))
    && (HuffPhase(d.phase) && d.left == 0 ==> d.ctx.accept)
    && (IndexPending(d) ==> d.index < STATIC_LENGTH + |d.table|)
    && (NamePending(d) ==> d.op.OpNewname?)
  }

  // ------------------------------------------------------------------- one octet

  datatype StepResult = Bad | Next(d: Decoder, out: seq<Header>)

  ghost predicate WfStep(p: Tables, r: StepResult) {
    r.Next? ==> WfDecoder(p, r.d)
  }

  /** `hd_inflate_commit_newname` and `hd_inflate_commit_indname`. */
  function Commit(p: Tables, d: Decoder): (r: StepResult)
    requires WfTables(p) && WfDecoder(p, d) && ValuePhase(d.phase)
    ensures WfStep(p, r)
  {
    var name := if d.op.OpIndname? then TableGet(p, d.table, d.index).name else d.name;
    var f := Field(name, d.value);
    var table := if d.indexRequired then AddEntry(d.table, d.max, f) else d.table;
    Next(d.(table := table, phase := Opcode), [Header(f, d.noIndex)])
  }

  function IntPrefix(d: Decoder): (prefix: nat)
    ensures 4 <= prefix <= 7
  {
    match d.phase
    case ReadTableSize => 5
    case ReadIndex => if d.op.OpIndexed? then 7 else if d.indexRequired then 6 else 4
    case _ => 7
  }

  /** The largest acceptable integer in each integer phase. */
  function IntMax(d: Decoder): nat {
    match d.phase
    case ReadTableSize => Min(d.minMax, d.settingsMax)
    case ReadIndex => STATIC_LENGTH + |d.table|
    case _ => MAX_NV
  }

  /** A decoder whose integer in `left` is complete. */
  ghost predicate IntRead(p: Tables, d: Decoder) {
    && ContextOk(p.huff, d.ctx)
    && TableSize(d.table) <= d.max
    && d.left <= IntMax(d)
    && (IndexPending(d) ==> d.index < STATIC_LENGTH + |d.table|)
    && (NamePending(d) ==> d.op.OpNewname?)
  }

  function AfterTableSize(d: Decoder): (r: Decoder)
    ensures TableSize(r.table) <= r.max
  {
    d.(minMax := UINT32_MAX, max := d.left, table := Evict(d.table, d.left), phase := InflateStart)
  }

  function AfterIndex(p: Tables, d: Decoder): (r: StepResult)
    requires WfTables(p) && IntRead(p, d) && d.phase.ReadIndex?
    ensures WfStep(p, r)
  {
    if d.left == 0 then Bad
    else if d.op.OpIndexed? then
      Next(d.(index := d.left - 1, phase := Opcode), [Header(TableGet(p, d.table, d.left - 1), false)])
    else Next(d.(index := d.left - 1, phase := CheckValuelen), [])
  }

  /** A new name of `left` octets begins. */
  function NameStart(p: Tables, d: Decoder): (r: Decoder)
    requires WfTables(p) && IntRead(p, d) && d.phase.NewnameReadNamelen?
    ensures WfDecoder(p, r)
  {
    d.(name := [], phase := if d.huffman then NewnameReadNamehuff else NewnameReadName,
       ctx := if d.huffman then INITIAL_CONTEXT else d.ctx)
  }

  /** A value of `left` octets begins. */
  function ValueStart(p: Tables, d: Decoder): (r: Decoder)
    requires WfTables(p) && IntRead(p, d) && d.phase.ReadValuelen?
    ensures WfDecoder(p, r) && ValuePhase(r.phase)
  {
    d.(value := [], phase := if d.huffman then ReadValuehuff else ReadValue,
       ctx := if d.huffman then INITIAL_CONTEXT else d.ctx)
  }

  function AfterValuelen(p: Tables, d: Decoder): (r: StepResult)
    requires WfTables(p) && IntRead(p, d) && d.phase.ReadValuelen?
    ensures WfStep(p, r)
  {
    if d.left == 0 then Commit(p, ValueStart(p, d)) else Next(ValueStart(p, d), [])
  }

  /** The step after an integer has been read into `left`. */
  function AfterInt(p: Tables, d: Decoder): (r: StepResult)
    requires WfTables(p) && IntRead(p, d) && IntPhase(d.phase)
    ensures WfStep(p, r)
  {
    match d.phase
    case ReadTableSize => Next(AfterTableSize(d), [])
    case ReadIndex => AfterIndex(p, d)
    case NewnameReadNamelen => Next(NameStart(p, d), [])
    case ReadValuelen => AfterValuelen(p, d)
  }

  /** One octet of an integer. */
  function StepInt(p: Tables, d: Decoder, b: byte): (r: StepResult)
    requires WfTables(p) && WfDecoder(p, d) && IntPhase(d.phase)
    ensures WfStep(p, r)
  {
    match IntStep(d.left, d.shift, b, IntPrefix(d))
    case IntError => Bad
    case IntMore(n, s) => if n > IntMax(d) then Bad else Next(d.(left := n, shift := s), [])
    case IntDone(n, s) => if n > IntMax(d) then Bad else AfterInt(p, d.(left := n, shift := s))
  }

  /** What the octets `a` of a string stand for. */
  function ReadChunk(p: Tables, d: Decoder, a: seq<byte>): (r: HuffResult)
    requires WfTables(p) && ContextOk(p.huff, d.ctx)
    ensures r.HuffOk? ==> ContextOk(p.huff, r.ctx)
  {
    if HuffPhase(d.phase) then Decode(p.huff, d.ctx, a) else HuffOk(d.ctx, a)
  }

  /** The string being read, longer by `out`, with `n` octets less to go. */
  function Extend(d: Decoder, ctx: HuffContext, out: seq<byte>, n: nat): Decoder
    requires n <= d.left
  {
    if NamePhase(d.phase) then d.(name := d.name + out, ctx := ctx, left := d.left - n)
    else d.(value := d.value + out, ctx := ctx, left := d.left - n)
  }

  /** Some octets of a string with `left` octets to go. */
  function StringStep(p: Tables, d: Decoder, a: seq<byte>): (r: StepResult)
    requires WfTables(p) && WfDecoder(p, d) && (NamePhase(d.phase) || ValuePhase(d.phase)) && |a| <= d.left
    ensures WfStep(p, r)
  {
    match ReadChunk(p, d, a)
    case HuffFail => Bad
    case HuffOk(ctx, out) =>
      if HuffPhase(d.phase) && |a| == d.left && !ctx.accept then Bad
      else AfterString(p, Extend(d, ctx, out, |a|))
  }

  /** The step after some octets of a string have been read. */
  function AfterString(p: Tables, d: Decoder): (r: StepResult)
    requires WfTables(p) && WfDecoder(p, d) && (NamePhase(d.phase) || ValuePhase(d.phase))
    ensures WfStep(p, r)
  {
    if d.left > 0 then Next(d, [])
    else if NamePhase(d.phase) then Next(NameDone(p, d), [])
    else Commit(p, d)
  }

  /** The length of a string begins with octet `b`. */
  function LengthStart(p: Tables, d: Decoder, b: byte): (r: Decoder)
    requires WfTables(p) && WfDecoder(p, d) && (d.phase.NewnameCheckNamelen? || d.phase.CheckValuelen?)
    ensures WfDecoder(p, r) && IntPhase(r.phase)
  {
    d.(huffman := b >= 128, left := 0, shift := 0,
       phase := if d.phase.CheckValuelen? then ReadValuelen else NewnameReadNamelen)
  }

  /** A name is complete; an empty one is only finished when the next octet comes. */
  function NameDone(p: Tables, d: Decoder): (r: Decoder)
    requires WfTables(p) && WfDecoder(p, d) && NamePhase(d.phase)
    ensures WfDecoder(p, r)
  {
    d.(phase := CheckValuelen)
  }

  /** A size update or an indexed field begins. */
  function IndexedStart(p: Tables, d: Decoder, phase: Phase): (r: Decoder)
    requires WfTables(p) && WfDecoder(p, d) && (phase.ReadTableSize? || phase.ReadIndex?)
    ensures WfDecoder(p, r) && IntPhase(r.phase)
  {
    d.(op := OpIndexed, phase := phase, left := 0, shift := 0)
  }

  /** A literal begins: opcode octets 0x00 to 0x1f and 0x40 to 0x7f. */
  function LiteralStart(p: Tables, d: Decoder, b: byte): (r: Decoder)
    requires WfTables(p) && WfDecoder(p, d)
    ensures WfDecoder(p, r)
  {
    var d' := d.(indexRequired := b >= 64, noIndex := b / 16 == 1, left := 0, shift := 0);
    if b == 0x40 || b == 0 || b == 0x10 then d'.(op := OpNewname, phase := NewnameCheckNamelen)
    else d'.(op := OpIndname, phase := ReadIndex)
  }

  /** The first octet of a representation. */
  function StepOpcode(p: Tables, d: Decoder, b: byte): (r: StepResult)
    requires WfTables(p) && WfDecoder(p, d)
    ensures WfStep(p, r)
  {
    if d.phase.ExpectTableSize? && b / 32 != 1 then Bad
    else if b / 32 == 1 then
      if d.phase.Opcode? then Bad else StepInt(p, IndexedStart(p, d, ReadTableSize), b)
    else if b >= 128 then StepInt(p, IndexedStart(p, d, ReadIndex), b)
    else
      var d' := LiteralStart(p, d, b);
      if d'.op.OpNewname? then Next(d', []) else StepInt(p, d', b)
  }

  /** One octet. */
  function Step(p: Tables, d: Decoder, b: byte): (r: StepResult)
    requires WfTables(p) && WfDecoder(p, d)
    ensures WfStep(p, r)
  {
    if d.phase.ExpectTableSize? || d.phase.InflateStart? || d.phase.Opcode? then StepOpcode(p, d, b)
    else if d.phase.NewnameCheckNamelen? || d.phase.CheckValuelen? then StepInt(p, LengthStart(p, d, b), b)
    else if IntPhase(d.phase) then StepInt(p, d, b)
    else if d.left > 0 then StringStep(p, d, [b])
    else if NamePhase(d.phase) then StepInt(p, LengthStart(p, NameDone(p, d), b), b)
    else Bad
  }

  // --------------------------------------------------------------- strings of octets

  datatype RunResult = RunBad(out: seq<Header>) | RunOk(d: Decoder, out: seq<Header>)

  function Prepend(out: seq<Header>, r: RunResult): RunResult {
    match r
    case RunBad(o) => RunBad(out + o)
    case RunOk(d, o) => RunOk(d, out + o)
  }

  /** The fields emitted and the state reached, or the fields emitted before an error. */
  function Run(p: Tables, d: Decoder, input: seq<byte>): (r: RunResult)
    requires WfTables(p) && WfDecoder(p, d)
    ensures r.RunOk? ==> WfDecoder(p, r.d)
    decreases |input|
  {
    if input == [] then RunOk(d, [])
    else
      match Step(p, d, input[0])
      case Bad => RunBad([])
      case Next(d', out) => Prepend(out, Run(p, d', input[1..]))
  }

  /** The run on `rest` after a step. */
  function Then(p: Tables, r: StepResult, rest: seq<byte>): RunResult
    requires WfTables(p) && WfStep(p, r)
  {
    match r
    case Bad => RunBad([])
    case Next(d, out) => Prepend(out, Run(p, d, rest))
  }

  lemma PrependTwice(a: seq<Header>, b: seq<Header>, r: RunResult)
    ensures Prepend(a, Prepend(b, r)) == Prepend(a + b, r)
  {
    ConcatAssoc(a, b, r.out);
  }

  lemma PrependNone(r: RunResult)
    ensures Prepend([], r) == r
  {
    assert [] + r.out == r.out;
  }

  lemma RunStep(p: Tables, d: Decoder, b: byte, rest: seq<byte>)
    requires WfTables(p) && WfDecoder(p, d)
    ensures Run(p, d, [b] + rest) == Then(p, Step(p, d, b), rest)
  {
    assert ([b] + rest)[0] == b && ([b] + rest)[1..] == rest;
  }

  /**
    * Chunking does not matter: feeding `a` and then `b` emits the same fields, reaches the same
    * state and gives the same verdict as feeding `a + b`.
    */
  lemma {:induction false} RunChunks(p: Tables, d: Decoder, a: seq<byte>, b: seq<byte>)
    requires WfTables(p) && WfDecoder(p, d)
    ensures Run(p, d, a + b) ==
            match Run(p, d, a)
            case RunBad(out) => RunBad(out)
            case RunOk(d', out) => Prepend(out, Run(p, d', b))
    decreases |a|
  {
    if a == [] {
      assert a + b == b;
      PrependNone(Run(p, d, b));
    } else {
      assert (a + b)[0] == a[0] && (a + b)[1..] == a[1..] + b;
      match Step(p, d, a[0]) {
        case Bad =>
        case Next(d', out) =>
          RunChunks(p, d', a[1..], b);
          match Run(p, d', a[1..]) {
            case RunBad(_) =>
            case RunOk(d'', out') => PrependTwice(out, out', Run(p, d'', b));
          }
      }
    }
  }

  /** Feeding a list of chunks one after the other. */
  function RunAll(p: Tables, d: Decoder, chunks: seq<seq<byte>>): (r: RunResult)
    requires WfTables(p) && WfDecoder(p, d)
    decreases |chunks|
  {
    if chunks == [] then RunOk(d, [])
    else
      match Run(p, d, chunks[0])
      case RunBad(out) => RunBad(out)
      case RunOk(d', out) => Prepend(out, RunAll(p, d', chunks[1..]))
  }

  ghost function Flatten(chunks: seq<seq<byte>>): seq<byte> {
    if chunks == [] then [] else chunks[0] + Flatten(chunks[1..])
  }

  /** Any way of cutting the input gives the result of feeding it whole. */
  lemma {:induction false} AnyChunking(p: Tables, d: Decoder, chunks: seq<seq<byte>>)
    requires WfTables(p) && WfDecoder(p, d)
    ensures RunAll(p, d, chunks) == Run(p, d, Flatten(chunks))
    decreases |chunks|
  {
    if chunks != [] {
      RunChunks(p, d, chunks[0], Flatten(chunks[1..]));
      match Run(p, d, chunks[0]) {
        case RunBad(_) =>
        case RunOk(d', _) => AnyChunking(p, d', chunks[1..]);
      }
    }
  }

  // ---------------------------------------------------------------------- in bulk

  lemma {:induction false} DecodeIntGrows(n: nat, shift: nat, a: seq<byte>, prefix: nat)
    requires 4 <= prefix <= 7 && n > 0
    ensures var r := DecodeInt(n, shift, a, prefix);
            !r.IntFail? ==> n <= r.n
    decreases |a|
  {
    if a != [] {
      ContinueIntGrows(n, shift, a[0]);
      match IntStep(n, shift, a[0], prefix) {
        case IntMore(v, s) => DecodeIntGrows(v, s, a[1..], prefix);
        case _ =>
      }
    }
  }

  /** What follows once `DecodeInt` gave `r` on the octets `a`. */
  function AfterRead(p: Tables, d: Decoder, r: IntResult, a: seq<byte>, rest: seq<byte>): RunResult
    requires WfTables(p) && WfDecoder(p, d) && IntPhase(d.phase)
    requires r.IntValue? ==> r.consumed <= |a|
    requires r.IntPartial? && r.n == 0 ==> r.shift == 0
  {
    match r
    case IntFail => RunBad([])
    case IntPartial(n, s) =>
      if n > IntMax(d) then RunBad([]) else Run(p, d.(left := n, shift := s), rest)
    case IntValue(n, s, c) =>
      if n > IntMax(d) then RunBad([]) else Then(p, AfterInt(p, d.(left := n, shift := s)), a[c..] + rest)
  }

  /** Reading an integer in bulk is reading it octet by octet. */
  lemma {:induction false} IntBulk(p: Tables, d: Decoder, a: seq<byte>, rest: seq<byte>)
    requires WfTables(p) && WfDecoder(p, d) && IntPhase(d.phase)
    ensures var r := DecodeInt(d.left, d.shift, a, IntPrefix(d));
            (r.IntPartial? && r.n == 0 ==> r.shift == 0) &&
            Run(p, d, a + rest) == AfterRead(p, d, r, a, rest)
    decreases |a|
  {
    if a == [] {
      assert a + rest == rest;
    } else {
      assert a + rest == [a[0]] + (a[1..] + rest);
      RunStep(p, d, a[0], a[1..] + rest);
      match IntStep(d.left, d.shift, a[0], IntPrefix(d)) {
        case IntError =>
        case IntDone(n, s) =>
        case IntMore(n, s) =>
          IntMorePositive(d.left, d.shift, a[0], IntPrefix(d));
          DecodeIntGrows(n, s, a[1..], IntPrefix(d));
          if n <= IntMax(d) {
            IntBulkMore(p, d, n, s, a, rest);
          }
      }
    }
  }

  lemma IntMorePositive(n: nat, shift: nat, b: byte, prefix: nat)
    requires 4 <= prefix <= 7
    ensures IntStep(n, shift, b, prefix).IntMore? ==> IntStep(n, shift, b, prefix).n > 0
  {
  }

  lemma {:induction false} IntBulkMore(p: Tables, d: Decoder, n: nat, s: nat, a: seq<byte>, rest: seq<byte>)
    requires WfTables(p) && WfDecoder(p, d) && IntPhase(d.phase) && a != [] && 0 < n <= IntMax(d)
    requires IntStep(d.left, d.shift, a[0], IntPrefix(d)) == IntMore(n, s)
    requires Run(p, d, a + rest) == Then(p, StepInt(p, d, a[0]), a[1..] + rest)
    ensures var r := DecodeInt(d.left, d.shift, a, IntPrefix(d));
            (r.IntPartial? && r.n == 0 ==> r.shift == 0) &&
            Run(p, d, a + rest) == AfterRead(p, d, r, a, rest)
    decreases |a|, 0
  {
    var d' := d.(left := n, shift := s);
    PrependNone(Run(p, d', a[1..] + rest));
    IntBulk(p, d', a[1..], rest);
    var r' := DecodeInt(n, s, a[1..], IntPrefix(d));
    assert DecodeInt(d.left, d.shift, a, IntPrefix(d)) == Later(r', 1);
    AfterReadLater(p, d, d', r', a, rest);
  }

  lemma AfterReadLater(p: Tables, d: Decoder, d': Decoder, r: IntResult, a: seq<byte>, rest: seq<byte>)
    requires WfTables(p) && WfDecoder(p, d) && IntPhase(d.phase) && a != []
    requires WfDecoder(p, d') && d' == d.(left := d'.left, shift := d'.shift)
    requires r.IntValue? ==> r.consumed < |a|
    requires r.IntPartial? && r.n == 0 ==> r.shift == 0
    ensures AfterRead(p, d, Later(r, 1), a, rest) == AfterRead(p, d', r, a[1..], rest)
  {
    if r.IntValue? {
      assert a[1..][r.consumed..] == a[r.consumed + 1..];
    }
  }

  lemma ReadChunkSplit(p: Tables, d: Decoder, a: seq<byte>)
    requires WfTables(p) && ContextOk(p.huff, d.ctx) && |a| > 1
    ensures var r := ReadChunk(p, d, a[..1]);
            && (r.HuffFail? ==> ReadChunk(p, d, a).HuffFail?)
            && (r.HuffOk? ==>
                  var r' := ReadChunk(p, d.(ctx := r.ctx), a[1..]);
                  ReadChunk(p, d, a) == if r'.HuffFail? then HuffFail else HuffOk(r'.ctx, r.out + r'.out))
  {
    assert a == a[..1] + a[1..];
    if HuffPhase(d.phase) {
      DecodeChunks(p.huff, d.ctx, a[..1], a[1..]);
    }
  }

  lemma StringStepSplit(p: Tables, d: Decoder, a: seq<byte>)
    requires WfTables(p) && WfDecoder(p, d) && (NamePhase(d.phase) || ValuePhase(d.phase))
    requires 1 < |a| <= d.left
    ensures match StringStep(p, d, a[..1])
            case Bad => StringStep(p, d, a) == Bad
            case Next(d', out) =>
              && out == [] && d'.phase == d.phase && d'.left == d.left - 1
              && StringStep(p, d, a) == StringStep(p, d', a[1..])
  {
    ReadChunkSplit(p, d, a);
    match ReadChunk(p, d, a[..1]) {
      case HuffFail =>
      case HuffOk(ctx, out) =>
        var d' := Extend(d, ctx, out, 1);
        assert StringStep(p, d, a[..1]) == Next(d', []);
        assert ReadChunk(p, d', a[1..]) == ReadChunk(p, d.(ctx := ctx), a[1..]);
        match ReadChunk(p, d', a[1..]) {
          case HuffFail =>
          case HuffOk(ctx', out') => ExtendTwice(d, ctx, out, 1, ctx', out', |a| - 1);
        }
    }
  }

  lemma ExtendTwice(d: Decoder, ctx: HuffContext, out: seq<byte>, m: nat, ctx': HuffContext, out': seq<byte>, n: nat)
    requires m + n <= d.left
    ensures Extend(Extend(d, ctx, out, m), ctx', out', n) == Extend(d, ctx', out + out', m + n)
  {
    ConcatAssoc(if NamePhase(d.phase) then d.name else d.value, out, out');
  }

  /** Reading a string in bulk is reading it octet by octet. */
  lemma {:induction false} StringBulk(p: Tables, d: Decoder, a: seq<byte>, rest: seq<byte>)
    requires WfTables(p) && WfDecoder(p, d) && (NamePhase(d.phase) || ValuePhase(d.phase))
    requires 1 <= |a| <= d.left
    ensures Run(p, d, a + rest) == Then(p, StringStep(p, d, a), rest)
    decreases |a|
  {
    assert a + rest == [a[0]] + (a[1..] + rest);
    RunStep(p, d, a[0], a[1..] + rest);
    assert a[..1] == [a[0]];
    if |a| == 1 {
      assert a == [a[0]] && a[1..] + rest == rest;
    } else {
      StringStepSplit(p, d, a);
      match StringStep(p, d, a[..1]) {
        case Bad =>
        case Next(d', _) =>
          StringBulk(p, d', a[1..], rest);
          PrependNone(Run(p, d', a[1..] + rest));
      }
    }
  }

  // ------------------------------------------------------------- between the blocks

  /** `nghttp2_hd_inflate_init`. */
  const INITIAL_DECODER: Decoder :=
    Decoder([], DEFAULT_TABLE_SIZE, DEFAULT_TABLE_SIZE, UINT32_MAX, InflateStart, OpNone, 0, 0, 0,
            false, false, false, INITIAL_CONTEXT, [], [])

  predicate BetweenBlocks(d: Decoder) {
    d.phase.ExpectTableSize? || d.phase.InflateStart?
  }

  /** `nghttp2_hd_inflate_change_table_size`, refused in the middle of a block. */
  function ChangeDecoderSize(d: Decoder, settings: nat): (r: Decoder)
    requires BetweenBlocks(d)
    ensures BetweenBlocks(r) && TableSize(r.table) <= settings
  {
    var lower := d.max > settings;
    d.(phase := if lower then ExpectTableSize else d.phase,
       minMax := if lower then settings else d.minMax,
       settingsMax := settings, max := settings, table := Evict(d.table, settings))
  }

  /** `nghttp2_hd_inflate_end_headers`. */
  function EndHeaders(d: Decoder): Decoder {
    d.(phase := InflateStart)
  }

  /** The states in which a header block may end. */
  predicate MayEnd(d: Decoder) {
    d.phase.Opcode? || d.phase.InflateStart?
  }
}
