/**
  * The static Huffman code of section 5.2 of RFC 7541: lib/nghttp2_hd_huffman.c without its
  * output buffers.  The two generated tables are parameters; `WellFormed` says what makes the
  * four-bit decoding automaton an automaton for the code.
  */
module Huffman {
  import opened Bytes

  type Bits = seq<bool>

  // --------------------------------------------------------------- bit strings

  /** The low `n` bits of `x`, most significant first. */
  function BitsOf(x: nat, n: nat): (r: Bits)
    ensures |r| == n
  {
    if n == 0 then [] else BitsOf(x / 2, n - 1) + [x % 2 == 1]
  }

  function BytesBits(s: seq<byte>): (r: Bits)
    ensures |r| == 8 * |s|
  {
    if s == [] then [] else BitsOf(s[0], 8) + BytesBits(s[1..])
  }

  lemma {:induction false} BytesBitsConcat(a: seq<byte>, b: seq<byte>)
    ensures BytesBits(a + b) == BytesBits(a) + BytesBits(b)
  {
    if a == [] {
      assert a + b == b;
    } else {
      BytesBitsConcat(a[1..], b);
      assert (a + b)[0] == a[0] && (a + b)[1..] == a[1..] + b;
    }
  }

  /** A number's bits split at any place. */
  lemma {:induction false} BitsSplit(x: nat, n: nat, m: nat)
    ensures BitsOf(x, n + m) == BitsOf(Quot(x, Pow2(m)), n) + BitsOf(Rem(x, Pow2(m)), m)
    decreases m
  {
    if m == 0 {
      assert BitsOf(x % 1, 0) == [];
    } else {
      BitsSplit(x / 2, n, m - 1);
      DivDiv2(x, Pow2(m - 1));
      var y := x % Pow2(m);
      assert y / 2 == x / 2 % Pow2(m - 1) && y % 2 == x % 2;
      assert BitsOf(y, m) == BitsOf(y / 2, m - 1) + [y % 2 == 1];
    }
  }

  /** Bits above the ones asked for do not matter. */
  lemma BitsLow(x: nat, m: nat)
    ensures BitsOf(x, m) == BitsOf(x % Pow2(m), m)
  {
    BitsSplit(x, 0, m);
  }

  lemma {:induction false} BitsInjective(x: nat, y: nat, n: nat)
    requires x < Pow2(n) && y < Pow2(n)
    requires BitsOf(x, n) == BitsOf(y, n)
    ensures x == y
    decreases n
  {
    if n > 0 {
      var a, b := BitsOf(x, n), BitsOf(y, n);
      assert a[..n - 1] == BitsOf(x / 2, n - 1) && b[..n - 1] == BitsOf(y / 2, n - 1);
      assert a[n - 1] == b[n - 1];
      BitsInjective(x / 2, y / 2, n - 1);
    }
  }

  lemma {:induction false} BytesBitsInjective(a: seq<byte>, b: seq<byte>)
    requires BytesBits(a) == BytesBits(b)
    ensures a == b
  {
    if a != [] {
      assert |a| == |b|;
      var x, y := BytesBits(a), BytesBits(b);
      assert x[..8] == BitsOf(a[0], 8) && y[..8] == BitsOf(b[0], 8);
      assert x[8..] == BytesBits(a[1..]) && y[8..] == BytesBits(b[1..]);
      Pow2Values();
      BitsInjective(a[0], b[0], 8);
      BytesBitsInjective(a[1..], b[1..]);
    }
  }

  /** The number with the bits `b`. */
  ghost function NumOf(b: Bits): (x: nat)
    ensures x < Pow2(|b|)
  {
    if b == [] then 0 else 2 * NumOf(b[..|b| - 1]) + if b[|b| - 1] then 1 else 0
  }

  lemma {:induction false} BitsOfNum(b: Bits)
    ensures BitsOf(NumOf(b), |b|) == b
  {
    if b != [] {
      BitsOfNum(b[..|b| - 1]);
      assert b == b[..|b| - 1] + [b[|b| - 1]];
    }
  }

  /** The octets with the bits `b`. */
  ghost function Pack(b: Bits): (r: seq<byte>)
    requires |b| % 8 == 0
    ensures 8 * |r| == |b|
  {
    if b == [] then []
    else
      Pow2Values();
      [NumOf(b[..8])] + Pack(b[8..])
  }

  lemma {:induction false} PackBits(b: Bits)
    requires |b| % 8 == 0
    ensures BytesBits(Pack(b)) == b
  {
    if b != [] {
      BitsOfNum(b[..8]);
      PackBits(b[8..]);
      assert b == b[..8] + b[8..];
    }
  }

  ghost predicate AllOnes(b: Bits) {
    forall i :: 0 <= i < |b| ==> b[i]
  }

  // ------------------------------------------------------------------- tables

  /** `nghttp2_huff_sym`: a code of `nbits` bits, right aligned. */
  datatype HuffSym = HuffSym(nbits: nat, code: nat)

  /** `nghttp2_huff_decode`, the flag octet taken apart. */
  datatype HuffEntry = HuffEntry(state: nat, accepted: bool, emits: bool, fail: bool, sym: byte)

  /**
    * `huff_sym_table` and `huff_decode_table`, with what they stand for: the code of every
    * symbol as a bit string, and for every state of the automaton the bits that lead to it from
    * the root of the code tree.
    */
  datatype HuffTables =
    HuffTables(syms: seq<HuffSym>, codes: seq<Bits>, decode: seq<seq<HuffEntry>>, nodes: seq<Bits>)

  const EOS: nat := 256

  /** Neither code is a prefix of the other, unless they are the same symbol's. */
  ghost predicate Apart(h: HuffTables, c: nat, d: nat)
    requires c < |h.codes| && d < |h.codes|
  {
    h.codes[c] <= h.codes[d] ==> c == d
  }

  /** A prefix-free code for 257 symbols, the last of them all ones. */
  ghost predicate WfCode(h: HuffTables) {
    && |h.codes| == 257
    && (forall c :: 0 <= c < 257 ==> 5 <= |h.codes[c]| <= 30)
    && (forall c, d {:trigger Apart(h, c, d)} :: 0 <= c < 257 && 0 <= d < 257 ==> Apart(h, c, d))
    && AllOnes(h.codes[EOS])
    && |h.codes[EOS]| == 30
  }

  /** `huff_sym_table` holds the codes as numbers. */
  ghost predicate WfSyms(h: HuffTables) {
    && |h.syms| == |h.codes|
    && (forall c :: 0 <= c < |h.syms| ==> h.syms[c].code < Pow2(h.syms[c].nbits))
    && (forall c :: 0 <= c < |h.syms| ==> h.codes[c] == BitsOf(h.syms[c].code, h.syms[c].nbits))
  }

  /** `b` starts with the code of the octet `c`. */
  ghost predicate StartsWith(h: HuffTables, b: Bits, c: byte)
    requires |h.codes| == 257
  {
    h.codes[c] <= b
  }

  /** `b` is an inner node of the code tree. */
  ghost predicate Inner(h: HuffTables, b: Bits)
    requires |h.codes| == 257
  {
    exists c :: 0 <= c < 257 && b < h.codes[c]
  }

  /** Entry `e` is what the code tree says about four more bits `v` after the bits `node`. */
  ghost predicate EntryOk(h: HuffTables, node: Bits, v: nat, e: HuffEntry)
    requires |h.codes| == 257
  {
    var b := node + BitsOf(v, 4);
    && e.emits == (exists c: byte :: StartsWith(h, b, c))
    && (e.emits ==> StartsWith(h, b, e.sym))
    && var rest := if e.emits then b[|h.codes[e.sym]|..] else b;
    && e.fail == !Inner(h, rest)
    && (!e.fail ==>
          && e.state < |h.nodes|
          && h.nodes[e.state] == rest
          && e.accepted == (|rest| <= 7 && AllOnes(rest)))
  }

  /** `huff_decode_table` has sixteen columns and its transitions stay inside it. */
  ghost predicate Closed(h: HuffTables) {
    && |h.decode| > 0
    && (forall q :: 0 <= q < |h.decode| ==> |h.decode[q]| == 16)
    && (forall q, v :: 0 <= q < |h.decode| && 0 <= v < 16 && !h.decode[q][v].fail ==>
                         h.decode[q][v].state < |h.decode|)
  }

  /** `huff_decode_table` is the automaton of the code. */
  ghost predicate WfDecode(h: HuffTables)
    requires |h.codes| == 257 && Closed(h)
  {
    && |h.nodes| == |h.decode|
    && h.nodes[0] == []
    && (forall q, v {:trigger EntryOk(h, h.nodes[q], v, h.decode[q][v])} ::
          0 <= q < |h.decode| && 0 <= v < 16 ==> EntryOk(h, h.nodes[q], v, h.decode[q][v]))
  }

  ghost predicate WellFormed(h: HuffTables) {
    WfCode(h) && WfSyms(h) && Closed(h) && WfDecode(h)
  }

  // ------------------------------------------------------- reference encoding

  /** The codes of the octets of `s`, one after the other. */
  ghost function CodeBits(h: HuffTables, s: seq<byte>): Bits
    requires |h.codes| == 257
  {
    if s == [] then [] else h.codes[s[0]] + CodeBits(h, s[1..])
  }

  /** The number of one bits that fill the last octet. */
  function PadLen(n: nat): (r: nat)
    ensures r < 8 && (n + r) % 8 == 0
  {
    (8 - n % 8) % 8
  }

  function Ones(n: nat): (r: Bits)
    ensures |r| == n && AllOnes(r)
  {
    seq(n, _ => true)
  }

  /** `x` is the Huffman form of `s`: its codes, then ones up to the octet boundary. */
  ghost predicate Encodes(h: HuffTables, s: seq<byte>, x: seq<byte>)
    requires |h.codes| == 257
  {
    var bits := CodeBits(h, s);
    BytesBits(x) == bits + Ones(PadLen(|bits|))
  }

  /** The Huffman form of `s`. */
  ghost function HuffBytes(h: HuffTables, s: seq<byte>): (x: seq<byte>)
    requires |h.codes| == 257
    ensures Encodes(h, s, x)
  {
    var bits := CodeBits(h, s);
    PackBits(bits + Ones(PadLen(|bits|)));
    Pack(bits + Ones(PadLen(|bits|)))
  }

  /** `nghttp2_hd_huff_encode_count`. */
  method EncodeCount(h: HuffTables, src: seq<byte>) returns (n: nat)
    requires WfCode(h) && WfSyms(h)
    ensures n == |HuffBytes(h, src)|
  {
    var nbits := 0;
    for i := 0 to |src|
      invariant nbits == |CodeBits(h, src[..i])|
    {
      assert src[..i + 1] == src[..i] + [src[i]];
      CodeBitsConcat(h, src[..i], [src[i]]);
      assert CodeBits(h, [src[i]]) == h.codes[src[i]] + CodeBits(h, []);
      nbits := nbits + h.syms[src[i]].nbits;
    }
    assert src[..|src|] == src;
    n := (nbits + 7) / 8;
  }

  lemma {:induction false} CodeBitsConcat(h: HuffTables, a: seq<byte>, b: seq<byte>)
    requires |h.codes| == 257
    ensures CodeBits(h, a + b) == CodeBits(h, a) + CodeBits(h, b)
  {
    if a == [] {
      assert a + b == b;
    } else {
      CodeBitsConcat(h, a[1..], b);
      assert (a + b)[0] == a[0] && (a + b)[1..] == a[1..] + b;
      var x, y, z := h.codes[a[0]], CodeBits(h, a[1..]), CodeBits(h, b);
      assert x + (y + z) == (x + y) + z;
    }
  }

  lemma EncodingUnique(h: HuffTables, s: seq<byte>, x: seq<byte>, y: seq<byte>)
    requires |h.codes| == 257
    requires Encodes(h, s, x) && Encodes(h, s, y)
    ensures x == y
  {
    BytesBitsInjective(x, y);
  }

  // ------------------------------------------------------- reference decoding

  /** No code fits at the front of `b`. */
  ghost predicate NoCode(h: HuffTables, b: Bits)
    requires |h.codes| == 257
  {
    forall c: byte :: !StartsWith(h, b, c)
  }

  /** The bits `b` are the codes of `s` and a rest that is not yet a code. */
  ghost predicate Parses(h: HuffTables, b: Bits, s: seq<byte>, rest: Bits)
    requires |h.codes| == 257
  {
    b == CodeBits(h, s) + rest && NoCode(h, rest)
  }

  lemma PrefixesComparable(x: Bits, y: Bits, b: Bits)
    requires x <= b && y <= b
    ensures x <= y || y <= x
  {
  }

  lemma StartUnique(h: HuffTables, b: Bits, c: byte, d: byte)
    requires WfCode(h)
    requires StartsWith(h, b, c) && StartsWith(h, b, d)
    ensures c == d
  {
    PrefixesComparable(h.codes[c], h.codes[d], b);
    assert Apart(h, c, d) && Apart(h, d, c);
  }

  lemma CodeBitsHead(h: HuffTables, s: seq<byte>, rest: Bits)
    requires |h.codes| == 257 && s != []
    ensures CodeBits(h, s) + rest == h.codes[s[0]] + (CodeBits(h, s[1..]) + rest)
    ensures StartsWith(h, CodeBits(h, s) + rest, s[0])
  {
    ConcatAssoc(h.codes[s[0]], CodeBits(h, s[1..]), rest);
  }

  /** Bits parse in at most one way. */
  lemma {:induction false} ParseUnique(h: HuffTables, b: Bits, s: seq<byte>, rest: Bits, s': seq<byte>, rest': Bits)
    requires WfCode(h) && Parses(h, b, s, rest) && Parses(h, b, s', rest')
    ensures s == s' && rest == rest'
  {
    if s != [] {
      CodeBitsHead(h, s, rest);
    } else {
      assert b == rest;
    }
    if s' != [] {
      CodeBitsHead(h, s', rest');
    } else {
      assert b == rest';
    }
    if s != [] && s' != [] {
      StartUnique(h, b, s[0], s'[0]);
      var k := |h.codes[s[0]]|;
      assert b[k..] == CodeBits(h, s[1..]) + rest && b[k..] == CodeBits(h, s'[1..]) + rest';
      ParseUnique(h, b[k..], s[1..], rest, s'[1..], rest');
      assert s == [s[0]] + s[1..] && s' == [s'[0]] + s'[1..];
    }
  }

  /** A parse can be continued with more bits. */
  lemma ParseAppend(h: HuffTables, a: Bits, s: seq<byte>, rest: Bits, b: Bits, s': seq<byte>, rest': Bits)
    requires |h.codes| == 257 && Parses(h, a, s, rest) && Parses(h, rest + b, s', rest')
    ensures Parses(h, a + b, s + s', rest')
  {
    CodeBitsConcat(h, s, s');
    var x, y := CodeBits(h, s), CodeBits(h, s');
    assert a + b == x + (rest + b);
    assert x + (y + rest') == (x + y) + rest';
  }

  lemma PadHasNoCode(h: HuffTables, pad: Bits)
    requires WfCode(h) && AllOnes(pad) && |pad| < 30
    ensures NoCode(h, pad) && Inner(h, pad)
  {
    assert pad < h.codes[EOS];
    forall c: byte
      ensures !StartsWith(h, pad, c)
    {
      assert Apart(h, c, EOS);
    }
  }

  /**
    * Every prefix of an encoded string leaves the parse at an inner node of the code tree, so
    * the automaton has a transition to take.
    */
  lemma {:induction false} PrefixLive(h: HuffTables, s: seq<byte>, pad: Bits, p: Bits, s': seq<byte>, rest: Bits)
    requires WfCode(h) && AllOnes(pad) && |pad| < 8
    requires p <= CodeBits(h, s) + pad && Parses(h, p, s', rest)
    ensures Inner(h, rest)
  {
    var whole := CodeBits(h, s) + pad;
    if s' == [] {
      assert p == rest;
      if s == [] {
        assert whole == pad;
        PadHasNoCode(h, p);
      } else {
        CodeBitsHead(h, s, pad);
        PrefixesComparable(p, h.codes[s[0]], whole);
        assert !StartsWith(h, p, s[0]);
      }
    } else {
      CodeBitsHead(h, s', rest);
      assert StartsWith(h, whole, s'[0]);
      if s == [] {
        assert whole == pad;
        PadHasNoCode(h, pad);
      } else {
        CodeBitsHead(h, s, pad);
        StartUnique(h, whole, s[0], s'[0]);
        var k := |h.codes[s[0]]|;
        assert whole[k..] == CodeBits(h, s[1..]) + pad;
        assert p[k..] == CodeBits(h, s'[1..]) + rest;
        assert p[k..] <= whole[k..];
        PrefixLive(h, s[1..], pad, p[k..], s'[1..], rest);
      }
    }
  }

  // ------------------------------------------------------------- the automaton

  /** `nghttp2_hd_huff_decode_context`. */
  datatype HuffContext = HuffContext(state: nat, accept: bool)

  const INITIAL_CONTEXT := HuffContext(0, true)

  datatype HuffResult = HuffFail | HuffOk(ctx: HuffContext, out: seq<byte>)

  ghost predicate ContextOk(h: HuffTables, ctx: HuffContext) {
    ctx.state < |h.decode|
  }

  function Emitted(e: HuffEntry): seq<byte> {
    if e.emits then [e.sym] else []
  }

  /** One octet through the automaton, high four bits first. */
  function DecodeByte(h: HuffTables, ctx: HuffContext, b: byte): (r: HuffResult)
    requires Closed(h) && ContextOk(h, ctx)
    ensures r.HuffOk? ==> ContextOk(h, r.ctx) && |r.out| <= 2
  {
    var t := h.decode[ctx.state][b / 16];
    if t.fail then HuffFail
    else
      var u := h.decode[t.state][b % 16];
      if u.fail then HuffFail
      else HuffOk(HuffContext(u.state, u.accepted), Emitted(t) + Emitted(u))
  }

  /** A string of octets through the automaton. */
  function Decode(h: HuffTables, ctx: HuffContext, src: seq<byte>): (r: HuffResult)
    requires Closed(h) && ContextOk(h, ctx)
    ensures r.HuffOk? ==> ContextOk(h, r.ctx) && |r.out| <= 2 * |src|
    decreases |src|
  {
    if src == [] then HuffOk(ctx, [])
    else
      match DecodeByte(h, ctx, src[0])
      case HuffFail => HuffFail
      case HuffOk(ctx', out) => PrefixOutput(out, Decode(h, ctx', src[1..]))
  }

  function PrefixOutput(out: seq<byte>, r: HuffResult): HuffResult {
    match r
    case HuffFail => HuffFail
    case HuffOk(ctx, out') => HuffOk(ctx, out + out')
  }

  /**
    * `nghttp2_hd_huff_decode` on one chunk.  The output grows by at most two octets for each
    * octet of input, which is what the inflater's buffers of `2 * left + 1` rely on.
    */
  method HuffDecode(h: HuffTables, ctx: HuffContext, buf: seq<byte>, src: seq<byte>, final: bool)
    returns (r: HuffResult)
    requires Closed(h) && ContextOk(h, ctx)
    ensures r == match Decode(h, ctx, src)
                 case HuffFail => HuffFail
                 case HuffOk(ctx', out) =>
                   if final && !ctx'.accept then HuffFail else HuffOk(ctx', buf + out)
    ensures r.HuffOk? ==> |buf| <= |r.out| <= |buf| + 2 * |src|
  {
    var state: nat, accept := ctx.state, ctx.accept;
    var out := [];
    var i := 0;
    ghost var whole := Decode(h, ctx, src);
    assert src[0..] == src;
    PrefixNone(whole);
    while i < |src|
      invariant 0 <= i <= |src| && state < |h.decode|
      invariant whole == PrefixOutput(out, Decode(h, HuffContext(state, accept), src[i..]))
    {
      DecodeStep(h, HuffContext(state, accept), src, i);
      var ok, out';
      ghost var emitted;
      ok, state, accept, out', emitted := DecodeOctet(h, state, accept, src[i], out);
      if !ok {
        return HuffFail;
      }
      PrefixTwice(out, emitted, Decode(h, HuffContext(state, accept), src[i + 1..]));
      out := out';
      i := i + 1;
    }
    assert src[i..] == [] && out + [] == out;
    if final && !accept {
      return HuffFail;
    }
    r := HuffOk(HuffContext(state, accept), buf + out);
  }

  /** The body of the loop: both halves of an octet. */
  method DecodeOctet(h: HuffTables, state: nat, accept: bool, b: byte, out: seq<byte>)
    returns (ok: bool, state': nat, accept': bool, out': seq<byte>, ghost emitted: seq<byte>)
    requires Closed(h) && state < |h.decode|
    ensures state' < |h.decode|
    ensures DecodeByte(h, HuffContext(state, accept), b) ==
            if ok then HuffOk(HuffContext(state', accept'), emitted) else HuffFail
    ensures ok ==> out' == out + emitted
  {
    ok, state', accept', out', emitted := false, state, accept, out, [];
    var t := h.decode[state][b / 16];
    if t.fail {
      return;
    }
    if t.emits {
      out' := out' + [t.sym];
    }
    var u := h.decode[t.state][b % 16];
    if u.fail {
      return;
    }
    if u.emits {
      out' := out' + [u.sym];
    }
    ok, state', accept', emitted := true, u.state, u.accepted, Emitted(t) + Emitted(u);
  }

  lemma PrefixNone(r: HuffResult)
    ensures PrefixOutput([], r) == r
  {
    if r.HuffOk? {
      assert [] + r.out == r.out;
    }
  }

  /** `Decode` from position `i` of `src`, one octet unfolded. */
  lemma DecodeStep(h: HuffTables, ctx: HuffContext, src: seq<byte>, i: nat)
    requires Closed(h) && ContextOk(h, ctx) && i < |src|
    ensures Decode(h, ctx, src[i..]) ==
            match DecodeByte(h, ctx, src[i])
            case HuffFail => HuffFail
            case HuffOk(ctx', out) => PrefixOutput(out, Decode(h, ctx', src[i + 1..]))
  {
    assert src[i..][0] == src[i] && src[i..][1..] == src[i + 1..];
  }

  lemma PrefixTwice(a: seq<byte>, b: seq<byte>, r: HuffResult)
    ensures PrefixOutput(a, PrefixOutput(b, r)) == PrefixOutput(a + b, r)
  {
    if r.HuffOk? {
      ConcatAssoc(a, b, r.out);
    }
  }

  /** Cutting the input of the decoder anywhere changes nothing. */
  lemma {:induction false} DecodeChunks(h: HuffTables, ctx: HuffContext, a: seq<byte>, b: seq<byte>)
    requires Closed(h) && ContextOk(h, ctx)
    ensures Decode(h, ctx, a + b) ==
            match Decode(h, ctx, a)
            case HuffFail => HuffFail
            case HuffOk(ctx', out) => PrefixOutput(out, Decode(h, ctx', b))
    decreases |a|
  {
    if a == [] {
      assert a + b == b;
      PrefixNone(Decode(h, ctx, b));
    } else {
      assert (a + b)[0] == a[0] && (a + b)[1..] == a[1..] + b;
      match DecodeByte(h, ctx, a[0]) {
        case HuffFail =>
        case HuffOk(ctx', out) =>
          DecodeChunks(h, ctx', a[1..], b);
          match Decode(h, ctx', a[1..]) {
            case HuffFail =>
            case HuffOk(ctx'', out') => PrefixTwice(out, out', Decode(h, ctx'', b));
          }
      }
    }
  }

  // --------------------------------------------------------------- correctness

  /** What the automaton does on four bits is what the code says. */
  lemma EntryParse(h: HuffTables, node: Bits, v: nat, e: HuffEntry)
    requires WfCode(h) && NoCode(h, node) && EntryOk(h, node, v, e)
    ensures var b := node + BitsOf(v, 4);
            var rest := if e.emits then b[|h.codes[e.sym]|..] else b;
            Parses(h, b, Emitted(e), rest) && e.fail == !Inner(h, rest) &&
            (!e.fail ==> h.nodes[e.state] == rest)
  {
    var b := node + BitsOf(v, 4);
    if e.emits {
      var code := h.codes[e.sym];
      assert !StartsWith(h, node, e.sym);
      PrefixesComparable(code, node, b);
      var rest := b[|code|..];
      assert |rest| < 5;
      assert CodeBits(h, [e.sym]) == code + CodeBits(h, []) == code;
    } else {
      assert CodeBits(h, []) + b == b;
    }
  }

  /** Four more bits; `none` is true when the automaton has no transition. */
  lemma NibbleParse(h: HuffTables, a: Bits, s: seq<byte>, q: nat, v: nat) returns (rest: Bits)
    requires WellFormed(h) && q < |h.decode| && v < 16
    requires Parses(h, a, s, h.nodes[q])
    ensures var e := h.decode[q][v];
            && Parses(h, a + BitsOf(v, 4), s + Emitted(e), rest)
            && e.fail == !Inner(h, rest)
            && (!e.fail ==> h.nodes[e.state] == rest && e.accepted == (|rest| <= 7 && AllOnes(rest)))
  {
    var e := h.decode[q][v];
    var node := h.nodes[q];
    assert EntryOk(h, node, v, e);
    EntryParse(h, node, v, e);
    var b := node + BitsOf(v, 4);
    rest := if e.emits then b[|h.codes[e.sym]|..] else b;
    ParseAppend(h, a, s, node, BitsOf(v, 4), Emitted(e), rest);
  }

  lemma ByteNibbles(b: byte)
    ensures BitsOf(b, 8) == BitsOf(b / 16, 4) + BitsOf(b % 16, 4)
  {
    Pow2Values();
    BitsSplit(b, 4, 4);
  }

  ghost predicate AcceptOk(h: HuffTables, ctx: HuffContext)
    requires ctx.state < |h.nodes|
  {
    ctx.accept == (|h.nodes[ctx.state]| <= 7 && AllOnes(h.nodes[ctx.state]))
  }

  /** The context `ctx` stands for the parse of `a` into `s`. */
  ghost predicate At(h: HuffTables, a: Bits, s: seq<byte>, ctx: HuffContext)
    requires |h.codes| == 257
  {
    ctx.state < |h.nodes| && Parses(h, a, s, h.nodes[ctx.state]) && AcceptOk(h, ctx)
  }

  /** A prefix `p` of `b` that parses into a rest outside the code tree. */
  ghost predicate DeadEnd(h: HuffTables, b: Bits, p: Bits, s: seq<byte>, rest: Bits)
    requires |h.codes| == 257
  {
    p <= b && Parses(h, p, s, rest) && !Inner(h, rest)
  }

  lemma ByteParse(h: HuffTables, a: Bits, s: seq<byte>, ctx: HuffContext, b: byte)
    returns (p: Bits, s': seq<byte>, rest: Bits)
    requires WellFormed(h) && ContextOk(h, ctx) && At(h, a, s, ctx)
    ensures match DecodeByte(h, ctx, b)
            case HuffOk(ctx', out) => At(h, a + BitsOf(b, 8), s + out, ctx')
            case HuffFail => DeadEnd(h, a + BitsOf(b, 8), p, s', rest)
  {
    var x, y := BitsOf(b / 16, 4), BitsOf(b % 16, 4);
    assert a + BitsOf(b, 8) == (a + x) + y by {
      ByteNibbles(b);
    }
    var t := h.decode[ctx.state][b / 16];
    rest := NibbleParse(h, a, s, ctx.state, b / 16);
    p, s' := a + x, s + Emitted(t);
    if !t.fail {
      var u := h.decode[t.state][b % 16];
      rest := NibbleParse(h, p, s', t.state, b % 16);
      p, s' := p + y, s' + Emitted(u);
      assert s' == s + (Emitted(t) + Emitted(u));
    }
  }

  /** The automaton parses: its output and its state are the two parts of the parse. */
  lemma {:induction false} DecodeSound(h: HuffTables, a: Bits, s: seq<byte>, ctx: HuffContext, src: seq<byte>)
    returns (p: Bits, s': seq<byte>, rest: Bits)
    requires WellFormed(h) && ContextOk(h, ctx) && At(h, a, s, ctx)
    ensures match Decode(h, ctx, src)
            case HuffOk(ctx', out) => At(h, a + BytesBits(src), s + out, ctx')
            case HuffFail => DeadEnd(h, a + BytesBits(src), p, s', rest)
    decreases |src|
  {
    if src == [] {
      assert a + BytesBits(src) == a && s + [] == s;
      p, s', rest := [], [], [];
    } else {
      var b := src[0];
      assert a + BytesBits(src) == (a + BitsOf(b, 8)) + BytesBits(src[1..]);
      p, s', rest := ByteParse(h, a, s, ctx, b);
      match DecodeByte(h, ctx, b) {
        case HuffOk(ctx', out) =>
          p, s', rest := DecodeSound(h, a + BitsOf(b, 8), s + out, ctx', src[1..]);
          if Decode(h, ctx', src[1..]).HuffOk? {
            var out' := Decode(h, ctx', src[1..]).out;
            ConcatAssoc(s, out, out');
          }
        case HuffFail =>
      }
    }
  }

  lemma StartParses(h: HuffTables)
    requires WellFormed(h)
    ensures At(h, [], [], INITIAL_CONTEXT)
  {
    assert CodeBits(h, []) + [] == [];
  }

  /** Decoding an encoded string gives the string back, in an accepting state. */
  lemma HuffmanRoundTrip(h: HuffTables, s: seq<byte>, x: seq<byte>)
    requires WellFormed(h) && Encodes(h, s, x)
    ensures var r := Decode(h, INITIAL_CONTEXT, x);
            r.HuffOk? && r.out == s && r.ctx.accept
  {
    StartParses(h);
    var p, s', rest := DecodeSound(h, [], [], INITIAL_CONTEXT, x);
    var bits := CodeBits(h, s);
    var pad := Ones(PadLen(|bits|));
    PadHasNoCode(h, pad);
    assert [] + BytesBits(x) == bits + pad;
    match Decode(h, INITIAL_CONTEXT, x) {
      case HuffOk(ctx, out) =>
        assert [] + out == out;
        ParseUnique(h, BytesBits(x), out, h.nodes[ctx.state], s, pad);
      case HuffFail =>
        PrefixLive(h, s, pad, p, s', rest);
    }
  }

  /** Whatever the decoder accepts is the encoding of what it returns, padding included. */
  lemma HuffmanDecodeExact(h: HuffTables, s: seq<byte>, x: seq<byte>)
    requires WellFormed(h)
    requires var r := Decode(h, INITIAL_CONTEXT, x); r.HuffOk? && r.out == s && r.ctx.accept
    ensures Encodes(h, s, x)
  {
    StartParses(h);
    var _, _, _ := DecodeSound(h, [], [], INITIAL_CONTEXT, x);
    assert [] + s == s && [] + BytesBits(x) == BytesBits(x);
    AcceptedEncodes(h, s, x, Decode(h, INITIAL_CONTEXT, x).ctx);
  }

  lemma AcceptedEncodes(h: HuffTables, s: seq<byte>, x: seq<byte>, ctx: HuffContext)
    requires |h.codes| == 257 && At(h, BytesBits(x), s, ctx) && ctx.accept
    ensures Encodes(h, s, x)
  {
    var rest := h.nodes[ctx.state];
    var bits := CodeBits(h, s);
    assert |bits| + |rest| == 8 * |x|;
    assert |rest| == PadLen(|bits|);
    assert rest == Ones(|rest|);
  }
}
