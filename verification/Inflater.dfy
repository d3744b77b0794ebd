/**
  * The inflater object of lib/nghttp2_hd.c.  Its loop reads integers and strings in bulk and
  * stops after each emitted field; it does what the octet machine of module HpackInflate does.
  */
module HpackInflater {
  import opened Bytes
  import opened HpackInteger
  import opened HpackTable
  import opened Huffman
  import opened Hpack
  import opened HpackInflate
  import opened HpackReading

  // ------------------------------------------------------------- following the machine

  /** The run from a state of the loop; an empty value is committed without another octet. */
  function Resume(p: Tables, d: Decoder, rest: seq<byte>): RunResult
    requires WfTables(p) && WfDecoder(p, d)
  {
    if ValuePhase(d.phase) && d.left == 0 then Then(p, Commit(p, d), rest) else Run(p, d, rest)
  }

  /** The run on the first `k` octets goes through state `d` after `pos` octets. */
  ghost predicate Passes(p: Tables, v: Decoder, input: seq<byte>, pos: nat, d: Decoder, k: nat)
    requires WfTables(p) && WfDecoder(p, v) && WfDecoder(p, d) && pos <= k <= |input|
  {
    Run(p, v, input[..k]) == Resume(p, d, input[pos..k])
  }

  /** The run on the first `k` octets does the step `r` when it has read `pos` octets. */
  ghost predicate Does(p: Tables, v: Decoder, input: seq<byte>, pos: nat, r: StepResult, k: nat)
    requires WfTables(p) && WfDecoder(p, v) && WfStep(p, r) && pos <= k <= |input|
  {
    Run(p, v, input[..k]) == Then(p, r, input[pos..k])
  }

  /**
    * After `pos` octets of `input` the loop, started in `v`, is in state `d`.  When `lo` is
    * `pos + 1` the next octet has been looked at but not consumed.
    */
  ghost predicate Tracks(p: Tables, v: Decoder, input: seq<byte>, pos: nat, lo: nat, d: Decoder) {
    && WfTables(p) && WfDecoder(p, v) && WfDecoder(p, d)
    && pos <= lo <= pos + 1 && lo <= |input|
    && forall k {:trigger Passes(p, v, input, pos, d, k)} :: lo <= k <= |input| ==> Passes(p, v, input, pos, d, k)
  }

  /** From `pos` on, the run is the one after the step `r`. */
  ghost predicate Steps(p: Tables, v: Decoder, input: seq<byte>, pos: nat, r: StepResult) {
    && WfTables(p) && WfDecoder(p, v) && WfStep(p, r) && pos <= |input|
    && forall k {:trigger Does(p, v, input, pos, r, k)} :: pos <= k <= |input| ==> Does(p, v, input, pos, r, k)
  }

  lemma TrackStart(p: Tables, v: Decoder, input: seq<byte>)
    requires WfTables(p) && WfDecoder(p, v) && !(ValuePhase(v.phase) && v.left == 0)
    ensures Tracks(p, v, input, 0, 0, v)
  {
    forall k | 0 <= k <= |input|
      ensures Passes(p, v, input, 0, v, k)
    {
      assert input[..k] == input[0..k];
    }
  }

  /** A step without output. */
  lemma StepsTracks(p: Tables, v: Decoder, input: seq<byte>, pos: nat, d: Decoder)
    requires Steps(p, v, input, pos, Next(d, [])) && !(ValuePhase(d.phase) && d.left == 0)
    ensures Tracks(p, v, input, pos, pos, d)
  {
    forall k | pos <= k <= |input|
      ensures Passes(p, v, input, pos, d, k)
    {
      assert Does(p, v, input, pos, Next(d, []), k);
      PrependNone(Run(p, d, input[pos..k]));
    }
  }

  /** A step with output, at the point where it happens. */
  lemma StepsEmit(p: Tables, v: Decoder, input: seq<byte>, pos: nat, d: Decoder, h: Header)
    requires Steps(p, v, input, pos, Next(d, [h]))
    ensures Run(p, v, input[..pos]) == RunOk(d, [h])
  {
    assert Does(p, v, input, pos, Next(d, [h]), pos);
    assert input[pos..pos] == [];
    assert [h] + [] == [h];
  }

  lemma StepsBad(p: Tables, v: Decoder, input: seq<byte>, pos: nat)
    requires Steps(p, v, input, pos, Bad)
    ensures Run(p, v, input) == RunBad([])
  {
    assert Does(p, v, input, pos, Bad, |input|);
    assert input[..|input|] == input;
  }

  /** The loop has used up its input. */
  lemma TracksEnd(p: Tables, v: Decoder, input: seq<byte>, d: Decoder)
    requires Tracks(p, v, input, |input|, |input|, d) && !(ValuePhase(d.phase) && d.left == 0)
    ensures Run(p, v, input) == RunOk(d, [])
  {
    assert Passes(p, v, input, |input|, d, |input|);
    assert input[..|input|] == input && input[|input|..|input|] == [];
  }

  /** A change of state that treats the next octet alike. */
  lemma TrackSame(p: Tables, v: Decoder, input: seq<byte>, pos: nat, lo: nat, d: Decoder, d': Decoder)
    requires Tracks(p, v, input, pos, lo, d) && pos < |input| && WfDecoder(p, d')
    requires !ValuePhase(d.phase) && !ValuePhase(d'.phase)
    requires Step(p, d, input[pos]) == Step(p, d', input[pos])
    ensures Tracks(p, v, input, pos, pos + 1, d')
  {
    forall k | pos + 1 <= k <= |input|
      ensures Passes(p, v, input, pos, d', k)
    {
      assert Passes(p, v, input, pos, d, k);
      assert input[pos..k][0] == input[pos];
    }
  }

  /** From state `d`, reading on to `next` is the step `r`. */
  ghost predicate Leads(p: Tables, input: seq<byte>, pos: nat, d: Decoder, next: nat, r: StepResult, k: nat)
    requires WfTables(p) && WfDecoder(p, d) && WfStep(p, r) && pos <= next <= k <= |input|
  {
    Resume(p, d, input[pos..k]) == Then(p, r, input[next..k])
  }

  lemma TracksLead(p: Tables, v: Decoder, input: seq<byte>, pos: nat, lo: nat, d: Decoder, next: nat, r: StepResult)
    requires Tracks(p, v, input, pos, lo, d) && WfStep(p, r) && lo <= next <= |input|
    requires forall k {:trigger Leads(p, input, pos, d, next, r, k)} ::
               next <= k <= |input| ==> Leads(p, input, pos, d, next, r, k)
    ensures Steps(p, v, input, next, r)
  {
    forall k | next <= k <= |input|
      ensures Does(p, v, input, next, r, k)
    {
      assert Passes(p, v, input, pos, d, k);
      assert Leads(p, input, pos, d, next, r, k);
    }
  }

  /** One octet consumed by a step of the machine. */
  lemma TrackOctet(p: Tables, v: Decoder, input: seq<byte>, pos: nat, lo: nat, d: Decoder)
    requires Tracks(p, v, input, pos, lo, d) && pos < |input| && !ValuePhase(d.phase)
    ensures Steps(p, v, input, pos + 1, Step(p, d, input[pos]))
  {
    OctetLeads(p, input, pos, d, Step(p, d, input[pos]));
    TracksLead(p, v, input, pos, lo, d, pos + 1, Step(p, d, input[pos]));
  }

  lemma OctetLeads(p: Tables, input: seq<byte>, pos: nat, d: Decoder, r: StepResult)
    requires WfTables(p) && WfDecoder(p, d) && pos < |input| && !ValuePhase(d.phase) && r == Step(p, d, input[pos])
    ensures WfStep(p, r)
    ensures forall k {:trigger Leads(p, input, pos, d, pos + 1, r, k)} ::
               pos + 1 <= k <= |input| ==> Leads(p, input, pos, d, pos + 1, r, k)
  {
    var next := pos + 1;
    forall k | next <= k <= |input|
      ensures Leads(p, input, pos, d, next, r, k)
    {
      assert input[pos..k] == [input[pos]] + input[next..k];
      RunStep(p, d, input[pos], input[next..k]);
    }
  }

  /** An integer that is refused, or that the input does not complete. */
  lemma TrackIntEnd(p: Tables, v: Decoder, input: seq<byte>, pos: nat, lo: nat, d: Decoder, r: IntResult)
    requires Tracks(p, v, input, pos, lo, d) && pos < |input| && IntPhase(d.phase)
    requires r == DecodeInt(d.left, d.shift, input[pos..], IntPrefix(d))
    ensures r.IntFail? || r.n > IntMax(d) ==> Run(p, v, input) == RunBad([])
    ensures r.IntPartial? && r.n <= IntMax(d) ==>
              WfDecoder(p, d.(left := r.n, shift := r.shift)) &&
              Run(p, v, input) == RunOk(d.(left := r.n, shift := r.shift), [])
  {
    var a := input[pos..];
    assert Passes(p, v, input, pos, d, |input|);
    assert input[..|input|] == input && input[pos..|input|] == a;
    IntBulk(p, d, a, []);
    assert a + [] == a;
  }

  /** An integer read in bulk and complete, ending at `pos'` in state `d'`. */
  lemma TrackInt(p: Tables, v: Decoder, input: seq<byte>, pos: nat, lo: nat, d: Decoder, r: IntResult,
                 pos': nat, d': Decoder)
    requires Tracks(p, v, input, pos, lo, d) && pos < |input| && IntPhase(d.phase)
    requires r == DecodeInt(d.left, d.shift, input[pos..], IntPrefix(d)) && r.IntValue? && r.n <= IntMax(d)
    requires pos' == pos + r.consumed && d' == d.(left := r.n, shift := r.shift)
    ensures pos < pos' <= |input| && IntRead(p, d') && IntPhase(d'.phase)
    ensures Steps(p, v, input, pos', AfterInt(p, d'))
  {
    IntLeads(p, input, pos, d, r, pos', d', AfterInt(p, d'));
    TracksLead(p, v, input, pos, lo, d, pos', AfterInt(p, d'));
  }

  lemma IntLeads(p: Tables, input: seq<byte>, pos: nat, d: Decoder, r: IntResult, pos': nat, d': Decoder,
                 step: StepResult)
    requires WfTables(p) && WfDecoder(p, d) && pos < |input| && IntPhase(d.phase)
    requires r == DecodeInt(d.left, d.shift, input[pos..], IntPrefix(d)) && r.IntValue? && r.n <= IntMax(d)
    requires pos' == pos + r.consumed && d' == d.(left := r.n, shift := r.shift) && step == AfterInt(p, d')
    ensures WfStep(p, step)
    ensures forall k {:trigger Leads(p, input, pos, d, pos', step, k)} ::
               pos' <= k <= |input| ==> Leads(p, input, pos, d, pos', step, k)
  {
    forall k | pos' <= k <= |input|
      ensures Leads(p, input, pos, d, pos', step, k)
    {
      IntPrefixRun(p, d, input, pos, k, r, pos', d', step);
    }
  }

  /** Octets after the end of an integer do not matter to it. */
  lemma IntPrefixRun(p: Tables, d: Decoder, input: seq<byte>, pos: nat, k: nat, r: IntResult,
                     pos': nat, d': Decoder, step: StepResult)
    requires WfTables(p) && WfDecoder(p, d) && IntPhase(d.phase) && pos <= k <= |input|
    requires r == DecodeInt(d.left, d.shift, input[pos..], IntPrefix(d)) && r.IntValue? && r.n <= IntMax(d)
    requires pos' == pos + r.consumed <= k && d' == d.(left := r.n, shift := r.shift)
    requires IntRead(p, d') && IntPhase(d'.phase) && step == AfterInt(p, d')
    ensures Run(p, d, input[pos..k]) == Then(p, step, input[pos'..k])
  {
    var a := input[pos..k];
    var b := input[k..];
    assert input[pos..] == a + b;
    DecodeIntChunks(d.left, d.shift, a, b, IntPrefix(d));
    DecodeIntShort(d.left, d.shift, a, b, IntPrefix(d));
    IntBulk(p, d, a, []);
    assert a + [] == a && a[r.consumed..] + [] == input[pos'..k];
  }

  /** An integer that ends inside `a` is read from `a` alone. */
  lemma DecodeIntShort(n: nat, shift: nat, a: seq<byte>, b: seq<byte>, prefix: nat)
    requires 4 <= prefix <= 7
    requires var r := DecodeInt(n, shift, a + b, prefix); r.IntValue? && r.consumed <= |a|
    ensures DecodeInt(n, shift, a, prefix) == DecodeInt(n, shift, a + b, prefix)
  {
    DecodeIntChunks(n, shift, a, b, prefix);
  }

  /** A string read in bulk, up to `next`. */
  lemma TrackString(p: Tables, v: Decoder, input: seq<byte>, pos: nat, lo: nat, d: Decoder, next: nat, r: StepResult)
    requires Tracks(p, v, input, pos, lo, d) && (NamePhase(d.phase) || ValuePhase(d.phase))
    requires pos < next <= |input| && next - pos <= d.left
    requires r == StringStep(p, d, input[pos..next])
    ensures Steps(p, v, input, next, r)
  {
    var a := input[pos..next];
    forall k | next <= k <= |input|
      ensures Leads(p, input, pos, d, next, r, k)
    {
      assert input[pos..k] == a + input[next..k];
      StringBulk(p, d, a, input[next..k]);
    }
    TracksLead(p, v, input, pos, lo, d, next, r);
  }

  /** An empty value. */
  lemma TrackCommit(p: Tables, v: Decoder, input: seq<byte>, pos: nat, d: Decoder)
    requires Tracks(p, v, input, pos, pos, d) && ValuePhase(d.phase) && d.left == 0
    ensures Steps(p, v, input, pos, Commit(p, d))
  {
    forall k | pos <= k <= |input|
      ensures Does(p, v, input, pos, Commit(p, d), k)
    {
      assert Passes(p, v, input, pos, d, k);
    }
  }

  /** Some of a string, or an empty value. */
  lemma TrackText(p: Tables, v: Decoder, input: seq<byte>, pos: nat, d: Decoder, next: nat, r: StepResult)
    requires Tracks(p, v, input, pos, pos, d) && (NamePhase(d.phase) || ValuePhase(d.phase))
    requires pos <= next <= |input| && next - pos <= d.left && (next == pos ==> ValuePhase(d.phase) && d.left == 0)
    requires r == StringStep(p, d, input[pos..next])
    ensures Steps(p, v, input, next, r)
  {
    if next == pos {
      assert input[pos..next] == [] && d.value + [] == d.value;
      TrackCommit(p, v, input, pos, d);
    } else {
      TrackString(p, v, input, pos, pos, d, next, r);
    }
  }

  /** A string that is refused. */
  lemma TextBad(p: Tables, v: Decoder, input: seq<byte>, pos: nat, d: Decoder, next: nat)
    requires Tracks(p, v, input, pos, pos, d) && (NamePhase(d.phase) || ValuePhase(d.phase))
    requires pos <= next <= |input| && next - pos <= d.left && (next == pos ==> ValuePhase(d.phase) && d.left == 0)
    requires StringStep(p, d, input[pos..next]) == Bad
    ensures Run(p, v, input) == RunBad([])
  {
    TrackText(p, v, input, pos, d, next, Bad);
    StepsBad(p, v, input, next);
  }

  /** A string that goes on after the input, read from state `d0` to state `d`. */
  lemma StringPart(p: Tables, v: Decoder, input: seq<byte>, pos: nat, d0: Decoder, d: Decoder)
    requires Tracks(p, v, input, pos, pos, d0) && (NamePhase(d0.phase) || ValuePhase(d0.phase))
    requires pos < |input| && |input| - pos <= d0.left
    requires WfDecoder(p, d) && d.left > 0 && StringStep(p, d0, input[pos..|input|]) == Next(d, [])
    ensures Run(p, v, input) == RunOk(d, [])
  {
    TrackString(p, v, input, pos, pos, d0, |input|, Next(d, []));
    StepsTracks(p, v, input, |input|, d);
    TracksEnd(p, v, input, d);
  }

  /** A name read to its end, in state `d`. */
  lemma NameRead(p: Tables, v: Decoder, input: seq<byte>, pos: nat, d0: Decoder, next: nat, d: Decoder)
    requires Tracks(p, v, input, pos, pos, d0) && NamePhase(d0.phase) && d0.left > 0 && next == pos + d0.left <= |input|
    requires WfDecoder(p, d) && d.phase.CheckValuelen?
    requires StringStep(p, d0, input[pos..next]) == Next(d, [])
    ensures Tracks(p, v, input, next, next, d)
  {
    TrackString(p, v, input, pos, pos, d0, next, Next(d, []));
    StepsTracks(p, v, input, next, d);
  }

  // ------------------------------------------------------------------ parts of the loop

  /** The eviction loop of `hd_context_shrink_table_size` and `add_hd_table_incremental`. */
  method EvictTable(t0: seq<Field>, limit: int) returns (t: seq<Field>)
    ensures t == Evict(t0, limit)
  {
    t := t0;
    while TableSize(t) > limit && |t| > 0
      invariant Evict(t, limit) == Evict(t0, limit)
      decreases |t|
    {
      t := t[..|t| - 1];
    }
  }

  /** `add_hd_table_incremental` without a hash map. */
  method AddIncremental(t0: seq<Field>, max: nat, f: Field) returns (t: seq<Field>)
    ensures t == AddEntry(t0, max, f)
  {
    t := EvictTable(t0, max - EntryRoom(f));
    if EntryRoom(f) > max {
      EvictAll(t0, max - EntryRoom(f));
      return;
    }
    t := [f] + t;
  }

  /** `hd_inflate_commit_newname` and `hd_inflate_commit_indname`. */
  method CommitLiteral(p: Tables, d0: Decoder) returns (d: Decoder, h: Header)
    requires WfTables(p) && WfDecoder(p, d0) && ValuePhase(d0.phase)
    ensures Commit(p, d0) == Next(d, [h])
  {
    var n := d0.name;
    if d0.op.OpIndname? {
      n := TableGet(p, d0.table, d0.index).name;
    }
    var f := Field(n, d0.value);
    var table := d0.table;
    if d0.indexRequired {
      table := AddIncremental(table, d0.max, f);
    }
    d := d0.(table := table, phase := Opcode);
    h := Header(f, d0.noIndex);
  }

  /** `hd_inflate_read_huff` decodes a chunk; `hd_inflate_read` copies it. */
  method ReadOctets(p: Tables, d: Decoder, chunk: seq<byte>, final: bool) returns (r: HuffResult)
    requires WfTables(p) && ContextOk(p.huff, d.ctx)
    ensures r == match ReadChunk(p, d, chunk)
                 case HuffFail => HuffFail
                 case HuffOk(ctx, out) =>
                   if HuffPhase(d.phase) && final && !ctx.accept then HuffFail else HuffOk(ctx, out)
  {
    if HuffPhase(d.phase) {
      r := HuffDecode(p.huff, d.ctx, [], chunk, final);
      PrefixNone(Decode(p.huff, d.ctx, chunk));
    } else {
      r := HuffOk(d.ctx, chunk);
    }
  }

  lemma StringStepOk(p: Tables, d: Decoder, a: seq<byte>, ctx: HuffContext, out: seq<byte>)
    requires WfTables(p) && WfDecoder(p, d) && (NamePhase(d.phase) || ValuePhase(d.phase)) && |a| <= d.left
    requires ReadChunk(p, d, a) == HuffOk(ctx, out)
    requires !(HuffPhase(d.phase) && |a| == d.left && !ctx.accept)
    ensures WfDecoder(p, Extend(d, ctx, out, |a|))
    ensures StringStep(p, d, a) == AfterString(p, Extend(d, ctx, out, |a|))
  {
  }

  /** As much of the string as there is. */
  method ReadString(p: Tables, d0: Decoder, input: seq<byte>, pos: nat) returns (ok: bool, n: nat, d: Decoder)
    requires WfTables(p) && WfDecoder(p, d0) && (NamePhase(d0.phase) || ValuePhase(d0.phase)) && pos <= |input|
    ensures n == Min(|input| - pos, d0.left)
    ensures ok ==> WfDecoder(p, d) && d.phase == d0.phase && d.left == d0.left - n
    ensures StringStep(p, d0, input[pos..pos + n]) == if ok then AfterString(p, d) else Bad
  {
    n := Min(|input| - pos, d0.left);
    var chunk := input[pos..pos + n];
    var r := ReadOctets(p, d0, chunk, n == d0.left);
    if r.HuffFail? {
      return false, n, d0;
    }
    StringStepOk(p, d0, chunk, r.ctx, r.out);
    ok, d := true, Extend(d0, r.ctx, r.out, n);
  }

  /** How a case of the loop ends: go on, wait for input, return a field, or fail. */
  datatype Outcome = Continue | NeedMore | Emitted(h: Header) | Failed

  /** Between two calls no empty value is waiting to be committed. */
  ghost predicate Settled(p: Tables, d: Decoder) {
    WfTables(p) && WfDecoder(p, d) && !(ValuePhase(d.phase) && d.left == 0)
  }

  /** What a case of the loop has achieved when the call started in `v`. */
  ghost predicate Good(p: Tables, v: Decoder, input: seq<byte>, out: Outcome, pos: nat, lo: nat, d: Decoder) {
    match out
    case Continue => Tracks(p, v, input, pos, lo, d)
    case NeedMore =>
      Settled(p, d) && !MayEnd(d) && pos == |input| && WfDecoder(p, v) && Run(p, v, input) == RunOk(d, [])
    case Emitted(h) =>
      Settled(p, d) && pos <= |input| && WfDecoder(p, v) && Run(p, v, input[..pos]) == RunOk(d, [h])
    case Failed => WfTables(p) && WfDecoder(p, v) && Run(p, v, input) == RunBad([])
  }

  /** NGHTTP2_HD_STATE_EXPECT_TABLE_SIZE, _INFLATE_START and _OPCODE. */
  method CaseOpcode(p: Tables, d0: Decoder, input: seq<byte>, pos: nat, ghost v: Decoder)
    returns (out: Outcome, pos': nat, d: Decoder)
    requires (d0.phase.ExpectTableSize? || d0.phase.InflateStart? || d0.phase.Opcode?) && pos < |input|
    requires Tracks(p, v, input, pos, pos, d0)
    ensures Good(p, v, input, out, pos', pos + 1, d)
    ensures out.Continue? || out.Failed?
    ensures out.Continue? ==> !ValuePhase(d.phase) && (pos' == pos + 1 || (pos' == pos && IntPhase(d.phase)))
  {
    var b := input[pos];
    out, pos', d := Continue, pos, d0;
    TrackOctet(p, v, input, pos, pos, d0);
    if d0.phase.ExpectTableSize? && b / 32 != 1 {
      StepsBad(p, v, input, pos + 1);
      out := Failed;
    } else if b / 32 == 1 {
      if d0.phase.Opcode? {
        StepsBad(p, v, input, pos + 1);
        out := Failed;
      } else {
        d := d0.(op := OpIndexed, phase := ReadTableSize, left := 0, shift := 0);
        TrackSame(p, v, input, pos, pos, d0, IndexedStart(p, d0, ReadTableSize));
      }
    } else if b >= 128 {
      d := d0.(op := OpIndexed, phase := ReadIndex, left := 0, shift := 0);
      TrackSame(p, v, input, pos, pos, d0, IndexedStart(p, d0, ReadIndex));
    } else {
      out, pos', d := CaseLiteral(p, d0, input, pos, v);
    }
  }

  /** The literal representations of NGHTTP2_HD_STATE_OPCODE. */
  method CaseLiteral(p: Tables, d0: Decoder, input: seq<byte>, pos: nat, ghost v: Decoder)
    returns (out: Outcome, pos': nat, d: Decoder)
    requires (d0.phase.InflateStart? || d0.phase.Opcode?) && pos < |input|
    requires input[pos] < 128 && input[pos] / 32 != 1
    requires Tracks(p, v, input, pos, pos, d0)
    ensures out.Continue? && Good(p, v, input, out, pos', pos + 1, d)
    ensures !ValuePhase(d.phase) && (pos' == pos + 1 || (pos' == pos && IntPhase(d.phase)))
  {
    var b := input[pos];
    out, pos' := Continue, pos;
    d := d0.(indexRequired := b >= 64, noIndex := b / 16 == 1, left := 0, shift := 0);
    ghost var d' := LiteralStart(p, d0, b);
    if b == 0x40 || b == 0 || b == 0x10 {
      d := d.(op := OpNewname, phase := NewnameCheckNamelen);
      pos' := pos + 1;
      TrackOctet(p, v, input, pos, pos, d0);
      StepsTracks(p, v, input, pos + 1, d');
    } else {
      d := d.(op := OpIndname, phase := ReadIndex);
      TrackSame(p, v, input, pos, pos, d0, d');
    }
  }

  /** `hd_inflate_read_len` and the tests of its result. */
  method ReadLen(p: Tables, d0: Decoder, input: seq<byte>, pos: nat, prefix: nat, maxlen: nat,
                 ghost lo: nat, ghost v: Decoder)
    returns (out: Outcome, pos': nat, d: Decoder)
    requires IntPhase(d0.phase) && pos < |input| && Tracks(p, v, input, pos, lo, d0)
    requires prefix == IntPrefix(d0) && maxlen == IntMax(d0)
    ensures !out.Emitted? && (!out.Continue? ==> Good(p, v, input, out, pos', pos', d))
    ensures out.Continue? ==>
              && pos < pos' <= |input|
              && d == d0.(left := d.left, shift := d.shift) && IntRead(p, d)
              && Steps(p, v, input, pos', AfterInt(p, d))
  {
    var r := DecodeLength(d0.left, d0.shift, input[pos..], prefix);
    TrackIntEnd(p, v, input, pos, lo, d0, r);
    out, pos', d := Failed, |input|, d0;
    if r.IntFail? || r.n > maxlen {
      return;
    }
    d := d0.(left := r.n, shift := r.shift);
    if r.IntPartial? {
      return NeedMore, pos', d;
    }
    out, pos' := Continue, pos + r.consumed;
    TrackInt(p, v, input, pos, lo, d0, r, pos', d);
  }

  /** NGHTTP2_HD_STATE_READ_TABLE_SIZE. */
  method CaseTableSize(p: Tables, d0: Decoder, input: seq<byte>, pos: nat, ghost lo: nat, ghost v: Decoder)
    returns (out: Outcome, pos': nat, d: Decoder)
    requires d0.phase.ReadTableSize? && pos < |input| && Tracks(p, v, input, pos, lo, d0)
    ensures Good(p, v, input, out, pos', pos', d)
    ensures out.Continue? ==> pos' > pos && Settled(p, d)
  {
    out, pos', d := ReadLen(p, d0, input, pos, 5, Min(d0.minMax, d0.settingsMax), lo, v);
    if out.Continue? {
      ghost var d1 := AfterTableSize(d);
      var table := EvictTable(d.table, d.left);
      d := d.(minMax := UINT32_MAX, max := d.left, table := table, phase := InflateStart);
      assert d == d1;
      StepsTracks(p, v, input, pos', d1);
    }
  }

  /** NGHTTP2_HD_STATE_READ_INDEX. */
  method CaseIndex(p: Tables, d0: Decoder, input: seq<byte>, pos: nat, ghost lo: nat, ghost v: Decoder)
    returns (out: Outcome, pos': nat, d: Decoder)
    requires d0.phase.ReadIndex? && pos < |input| && Tracks(p, v, input, pos, lo, d0)
    ensures Good(p, v, input, out, pos', pos', d)
    ensures out.Continue? ==> pos' > pos && Settled(p, d)
  {
    var prefix := if d0.op.OpIndexed? then 7 else if d0.indexRequired then 6 else 4;
    out, pos', d := ReadLen(p, d0, input, pos, prefix, STATIC_LENGTH + |d0.table|, lo, v);
    if !out.Continue? {
      return;
    }
    ghost var step := AfterIndex(p, d);
    if d.left == 0 {
      StepsBad(p, v, input, pos');
      return Failed, pos', d;
    }
    if d.op.OpIndexed? {
      var h := Header(TableGet(p, d.table, d.left - 1), false);
      d := d.(index := d.left - 1, phase := Opcode);
      assert step == Next(d, [h]);
      StepsEmit(p, v, input, pos', d, h);
      return Emitted(h), pos', d;
    }
    d := d.(index := d.left - 1, phase := CheckValuelen);
    assert step == Next(d, []);
    StepsTracks(p, v, input, pos', d);
  }

  /** NGHTTP2_HD_STATE_NEWNAME_CHECK_NAMELEN and _NEWNAME_READ_NAMELEN. */
  method CaseNamelen(p: Tables, d0: Decoder, input: seq<byte>, pos: nat, ghost lo: nat, ghost v: Decoder)
    returns (out: Outcome, pos': nat, d: Decoder)
    requires (d0.phase.NewnameCheckNamelen? || d0.phase.NewnameReadNamelen?)
    requires pos < |input| && Tracks(p, v, input, pos, lo, d0)
    ensures Good(p, v, input, out, pos', pos', d)
    ensures out.Continue? ==> pos' > pos && Settled(p, d)
  {
    d := d0;
    ghost var lo' := lo;
    if d.phase.NewnameCheckNamelen? {
      d := d.(huffman := input[pos] >= 128, phase := NewnameReadNamelen, left := 0, shift := 0);
      TrackSame(p, v, input, pos, lo, d0, LengthStart(p, d0, input[pos]));
      lo' := pos + 1;
    }
    out, pos', d := ReadLen(p, d, input, pos, 7, MAX_NV, lo', v);
    if out.Continue? {
      ghost var d1 := NameStart(p, d);
      if d.huffman {
        d := d.(ctx := INITIAL_CONTEXT, phase := NewnameReadNamehuff);
      } else {
        d := d.(phase := NewnameReadName);
      }
      d := d.(name := []);
      assert d == d1;
      StepsTracks(p, v, input, pos', d1);
    }
  }

  /** NGHTTP2_HD_STATE_CHECK_VALUELEN and _READ_VALUELEN; the loop goes on even without input. */
  method CaseValuelen(p: Tables, d0: Decoder, input: seq<byte>, pos: nat, ghost lo: nat, ghost v: Decoder)
    returns (out: Outcome, pos': nat, d: Decoder)
    requires (d0.phase.CheckValuelen? || d0.phase.ReadValuelen?)
    requires pos < |input| && Tracks(p, v, input, pos, lo, d0)
    ensures Good(p, v, input, out, pos', pos', d)
    ensures out.Continue? ==> pos' > pos && ValuePhase(d.phase)
  {
    d := d0;
    ghost var lo' := lo;
    if d.phase.CheckValuelen? {
      d := d.(huffman := input[pos] >= 128, phase := ReadValuelen, left := 0, shift := 0);
      TrackSame(p, v, input, pos, lo, d0, LengthStart(p, d0, input[pos]));
      lo' := pos + 1;
    }
    out, pos', d := ReadLen(p, d, input, pos, 7, MAX_NV, lo', v);
    if out.Continue? {
      ghost var d1 := ValueStart(p, d);
      if d.huffman {
        d := d.(ctx := INITIAL_CONTEXT, phase := ReadValuehuff);
      } else {
        d := d.(phase := ReadValue);
      }
      d := d.(value := []);
      assert d == d1;
      StepsValue(p, v, input, pos', d1);
    }
  }

  /** The value begins; if it is empty it is committed in the next round. */
  lemma StepsValue(p: Tables, v: Decoder, input: seq<byte>, pos: nat, d: Decoder)
    requires WfTables(p) && WfDecoder(p, d) && ValuePhase(d.phase)
    requires Steps(p, v, input, pos, if d.left == 0 then Commit(p, d) else Next(d, []))
    ensures Tracks(p, v, input, pos, pos, d)
  {
    if d.left > 0 {
      StepsTracks(p, v, input, pos, d);
    } else {
      forall k | pos <= k <= |input|
        ensures Passes(p, v, input, pos, d, k)
      {
        assert Does(p, v, input, pos, Commit(p, d), k);
      }
    }
  }

  /** An empty name ends when the next octet is there. */
  lemma TrackNoName(p: Tables, v: Decoder, input: seq<byte>, pos: nat, d: Decoder)
    requires NamePhase(d.phase) && d.left == 0 && pos < |input| && Tracks(p, v, input, pos, pos, d)
    ensures Tracks(p, v, input, pos, pos + 1, d.(phase := CheckValuelen))
  {
    TrackSame(p, v, input, pos, pos, d, NameDone(p, d));
  }

  /** NGHTTP2_HD_STATE_NEWNAME_READ_NAME and _NEWNAME_READ_NAMEHUFF. */
  method CaseName(p: Tables, d0: Decoder, input: seq<byte>, pos: nat, ghost v: Decoder)
    returns (out: Outcome, pos': nat, d: Decoder)
    requires NamePhase(d0.phase) && pos < |input| && Tracks(p, v, input, pos, pos, d0)
    ensures Good(p, v, input, out, pos', if d0.left == 0 then pos + 1 else pos', d)
    ensures out.Continue? ==> d.phase.CheckValuelen? && (if d0.left > 0 then pos' > pos else pos' == pos)
  {
    if d0.left == 0 {
      TrackNoName(p, v, input, pos, d0);
      return Continue, pos, d0.(phase := CheckValuelen);
    }
    var ok, n;
    ok, n, d := ReadString(p, d0, input, pos);
    out, pos' := Failed, pos + n;
    if !ok {
      TextBad(p, v, input, pos, d0, pos');
      return;
    }
    if d.left > 0 {
      StringPart(p, v, input, pos, d0, d);
      return NeedMore, pos', d;
    }
    out, d := Continue, d.(phase := CheckValuelen);
    NameRead(p, v, input, pos, d0, pos', d);
  }

  /** NGHTTP2_HD_STATE_READ_VALUE and _READ_VALUEHUFF. */
  method CaseValue(p: Tables, d0: Decoder, input: seq<byte>, pos: nat, ghost v: Decoder)
    returns (out: Outcome, pos': nat, d: Decoder)
    requires ValuePhase(d0.phase) && pos <= |input| && Tracks(p, v, input, pos, pos, d0)
    ensures !out.Continue? && Good(p, v, input, out, pos', pos', d)
  {
    var ok, n;
    ok, n, d := ReadString(p, d0, input, pos);
    out, pos' := Failed, pos + n;
    if n == 0 < d0.left {
      TracksEnd(p, v, input, d0);
      return NeedMore, pos', d0;
    }
    if !ok {
      TextBad(p, v, input, pos, d0, pos');
      return;
    }
    if d.left > 0 {
      StringPart(p, v, input, pos, d0, d);
      return NeedMore, pos', d;
    }
    TrackText(p, v, input, pos, d0, pos', Commit(p, d));
    var h;
    d, h := CommitLiteral(p, d);
    StepsEmit(p, v, input, pos', d, h);
    out := Emitted(h);
  }

  // -------------------------------------------------------------------------- the loop

  /** Cases that consume nothing lead to cases that do. */
  ghost function Rank(phase: Phase): nat {
    if phase.ExpectTableSize? || phase.InflateStart? || phase.Opcode? || NamePhase(phase) then 1 else 0
  }

  /** A state of the loop: `busy` asks for another round even without input. */
  ghost predicate InLoop(p: Tables, v: Decoder, input: seq<byte>, pos: nat, lo: nat, busy: bool, d: Decoder) {
    && Tracks(p, v, input, pos, lo, d)
    && (lo == pos || IntPhase(d.phase) || d.phase.CheckValuelen?)
    && (if busy then ValuePhase(d.phase) else Settled(p, d))
  }

  /** One round of the loop of `nghttp2_hd_inflate_hd_nv`. */
  method Round(p: Tables, d0: Decoder, input: seq<byte>, pos: nat, busy0: bool, ghost lo0: nat, ghost v: Decoder)
    returns (out: Outcome, pos': nat, busy: bool, d: Decoder, ghost lo: nat)
    requires InLoop(p, v, input, pos, lo0, busy0, d0) && (pos < |input| || busy0)
    ensures !out.Continue? ==> Good(p, v, input, out, pos', lo, d)
    ensures out.Continue? ==> InLoop(p, v, input, pos', lo, busy, d)
    ensures out.Continue? ==> pos < pos' || (pos == pos' && Rank(d.phase) < Rank(d0.phase))
  {
    busy := false;
    if ValuePhase(d0.phase) {
      out, pos', d := CaseValue(p, d0, input, pos, v);
      lo := pos';
    } else if d0.phase.ExpectTableSize? || d0.phase.InflateStart? || d0.phase.Opcode? {
      out, pos', d := CaseOpcode(p, d0, input, pos, v);
      lo := pos + 1;
    } else if d0.phase.ReadTableSize? {
      out, pos', d := CaseTableSize(p, d0, input, pos, lo0, v);
      lo := pos';
    } else if d0.phase.ReadIndex? {
      out, pos', d := CaseIndex(p, d0, input, pos, lo0, v);
      lo := pos';
    } else if d0.phase.NewnameCheckNamelen? || d0.phase.NewnameReadNamelen? {
      out, pos', d := CaseNamelen(p, d0, input, pos, lo0, v);
      lo := pos';
    } else if NamePhase(d0.phase) {
      out, pos', d := CaseName(p, d0, input, pos, v);
      lo := if d0.left == 0 then pos + 1 else pos';
    } else {
      out, pos', d := CaseValuelen(p, d0, input, pos, lo0, v);
      busy, lo := true, pos';
    }
  }

  datatype Inflated =
    | InflateError
    | InflateField(consumed: nat, h: Header)
    | InflateDone(consumed: nat)

  /** What a call started in state `v` has done when it returns `r` and leaves state `d`. */
  ghost predicate Returned(p: Tables, v: Decoder, input: seq<byte>, final: bool, r: Inflated, d: Decoder)
    requires WfTables(p) && WfDecoder(p, v)
  {
    match r
    case InflateError =>
      var run := Run(p, v, input);
      run == RunBad([]) || (final && run.RunOk? && run.out == [] && !MayEnd(run.d))
    case InflateField(c, h) => c <= |input| && Settled(p, d) && Run(p, v, input[..c]) == RunOk(d, [h])
    case InflateDone(c) => c == |input| && Settled(p, d) && Run(p, v, input) == RunOk(d, []) && (final ==> MayEnd(d))
  }

  /** The loop of `nghttp2_hd_inflate_hd_nv`. */
  method InflateLoop(p: Tables, v: Decoder, input: seq<byte>, final: bool) returns (r: Inflated, d: Decoder)
    requires WfTables(p) && Settled(p, v)
    ensures Returned(p, v, input, final, r, d)
  {
    var pos, busy := 0, false;
    ghost var lo := 0;
    d := v;
    TrackStart(p, v, input);
    while pos != |input| || busy
      invariant InLoop(p, v, input, pos, lo, busy, d)
      decreases |input| - pos, Rank(d.phase)
    {
      var out;
      out, pos, busy, d, lo := Round(p, d, input, pos, busy, lo, v);
      match out {
        case Continue =>
        case Emitted(h) => return InflateField(pos, h), d;
        case Failed => return InflateError, d;
        case NeedMore => return if final then InflateError else InflateDone(pos), d;
      }
    }
    TracksEnd(p, v, input, d);
    r := if final && !MayEnd(d) then InflateError else InflateDone(pos);
  }

  // -------------------------------------------------------------------------- the object

  /** `nghttp2_hd_inflater`; once `bad` is set every call fails. */
  class Inflater {
    const p: Tables
    var d: Decoder
    var bad: bool

    ghost predicate Valid()
      reads this
    {
      WfTables(p) && WfDecoder(p, d) && (!bad ==> Settled(p, d))
    }

    /** `nghttp2_hd_inflate_init`. */
    constructor (p: Tables)
      requires WfTables(p)
      ensures Valid() && !bad && d == INITIAL_DECODER && this.p == p && d.table == [] && d.max == 4096
    {
      this.p := p;
      d := INITIAL_DECODER;
      bad := false;
    }

    /** `nghttp2_hd_inflate_hd_nv`. */
    method InflateHdNv(input: seq<byte>, final: bool) returns (r: Inflated)
      requires Valid()
      modifies this
      ensures Valid() && bad == r.InflateError?
      ensures old(bad) ==> bad
      ensures !old(bad) ==> Returned(p, old(d), input, final, r, d)
    {
      if bad {
        return InflateError;
      }
      var d';
      r, d' := InflateLoop(p, d, input, final);
      if r.InflateError? {
        bad := true;
      } else {
        d := d';
      }
    }

    /**
      * The decoding loop of `inflate_header_block`: it accepts exactly the inputs the octet machine
      * accepts, and returns the machine's fields.
      */
    method InflateHeaderBlock(input: seq<byte>, final: bool) returns (ok: bool, fields: seq<Header>)
      requires Valid() && !bad
      modifies this
      ensures Valid() && bad == !ok
      ensures var run := Run(p, old(d), input);
              && fields == run.out
              && (ok <==> run.RunOk? && (final ==> MayEnd(run.d)))
              && (ok ==> d == if final then EndHeaders(run.d) else run.d)
    {
      var rest := input;
      fields := [];
      ghost var whole := Run(p, d, input);
      PrependNone(whole);
      while true
        invariant Valid() && !bad
        invariant whole == Prepend(fields, Run(p, d, rest))
        decreases |rest|
      {
        ghost var d0 := d;
        var r := InflateHdNv(rest, final);
        match r {
          case InflateError =>
            assert fields + [] == fields;
            return false, fields;
          case InflateDone(_) =>
            assert fields + [] == fields;
            if final {
              d := d.(phase := InflateStart);
            }
            return true, fields;
          case InflateField(c, h) =>
            EmittedRest(p, d0, d, rest, c, h);
            PrependTwice(fields, [h], Run(p, d, rest[c..]));
            rest, fields := rest[c..], fields + [h];
        }
      }
    }

    /**
      * A header block that arrives in pieces, the last of them final or not: wherever it is cut, the
      * fields, the verdict and the state left are those of the octet machine on the whole.
      */
    method InflateChunks(chunks: seq<seq<byte>>, final: bool) returns (ok: bool, fields: seq<Header>)
      requires Valid() && !bad && (final ==> chunks != [])
      modifies this
      ensures Valid() && bad == !ok
      ensures var run := Run(p, old(d), Flatten(chunks));
              && fields == run.out
              && (ok <==> run.RunOk? && (final ==> MayEnd(run.d)))
              && (ok ==> d == if final then EndHeaders(run.d) else run.d)
    {
      ok, fields := true, [];
      ghost var whole := Run(p, d, Flatten(chunks));
      PrependNone(whole);
      assert chunks[0..] == chunks;
      for i := 0 to |chunks|
        invariant Valid() && !bad && ok
        invariant i < |chunks| || !final ==> whole == Prepend(fields, Run(p, d, Flatten(chunks[i..])))
        invariant i == |chunks| && final ==>
                    whole.RunOk? && whole.out == fields && MayEnd(whole.d) && d == EndHeaders(whole.d)
      {
        ghost var d0, before := d, fields;
        var out;
        ok, out := InflateHeaderBlock(chunks[i], final && i == |chunks| - 1);
        fields := fields + out;
        assert chunks[i..][0] == chunks[i] && chunks[i..][1..] == chunks[i + 1..];
        PieceRun(p, d0, before, chunks[i], Flatten(chunks[i + 1..]));
        if !ok {
          return;
        }
      }
      assert fields + [] == fields;
    }

    /** `nghttp2_hd_inflate_change_table_size`; NGHTTP2_ERR_INVALID_STATE inside a header block. */
    method ChangeTableSize(settings: nat) returns (ok: bool)
      requires Valid()
      modifies this`d
      ensures Valid() && ok == BetweenBlocks(old(d))
      ensures d == if ok then ChangeDecoderSize(old(d), settings) else old(d)
      ensures ok && settings < old(d).max ==> Awaits(p, d, settings)
      ensures ok && settings >= old(d).max ==> ViewOf(d) == ViewOf(old(d)).(max := settings, settings := settings)
    {
      if BetweenBlocks(d) && settings < d.max {
        LoweredSize(p, d, settings);
      } else if BetweenBlocks(d) {
        RaisedSize(p, d, settings);
      }
      if !(d.phase.ExpectTableSize? || d.phase.InflateStart?) {
        return false;
      }
      var table := EvictTable(d.table, settings);
      if d.max > settings {
        d := d.(phase := ExpectTableSize, minMax := settings, settingsMax := settings, max := settings, table := table);
      } else {
        d := d.(settingsMax := settings, max := settings, table := table);
      }
      ok := true;
    }
  }

  /** A run on a piece and what follows it, after the fields `before`. */
  lemma PieceRun(p: Tables, d: Decoder, before: seq<Header>, a: seq<byte>, b: seq<byte>)
    requires WfTables(p) && WfDecoder(p, d)
    ensures var first, whole := Run(p, d, a), Prepend(before, Run(p, d, a + b));
            && (first.RunBad? ==> whole == RunBad(before + first.out))
            && (first.RunOk? ==> whole == Prepend(before + first.out, Run(p, first.d, b)))
            && (first.RunOk? && b == [] ==> whole == RunOk(first.d, before + first.out))
  {
    RunChunks(p, d, a, b);
    match Run(p, d, a) {
      case RunBad(_) =>
      case RunOk(d', out) =>
        PrependTwice(before, out, Run(p, d', b));
        assert (before + out) + [] == before + out;
    }
  }

  /** After the octets up to an emitted field the run goes on from the new state. */
  lemma EmittedRest(p: Tables, d0: Decoder, d: Decoder, rest: seq<byte>, c: nat, h: Header)
    requires WfTables(p) && WfDecoder(p, d0) && WfDecoder(p, d) && c <= |rest|
    requires Run(p, d0, rest[..c]) == RunOk(d, [h])
    ensures c > 0 && Run(p, d0, rest) == Prepend([h], Run(p, d, rest[c..]))
  {
    RunChunks(p, d0, rest[..c], rest[c..]);
    assert rest[..c] + rest[c..] == rest;
    assert rest[..c] != [];
  }
}
