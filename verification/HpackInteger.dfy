/**
  * The prefixed integers of section 5.1 of RFC 7541, as lib/nghttp2_hd.c writes and reads
  * them.  The reader works on `uint32_t` values and can stop at the end of any chunk of
  * input; it is resumed with the value and shift it saved.
  */
module HpackInteger {
  import opened Bytes

  /** The all-ones value of an integer prefix of `prefix` bits. */
  function PrefixMax(prefix: nat): (k: nat)
    requires 4 <= prefix <= 7
    ensures 15 <= k <= 127
  {
    if prefix == 4 then 15 else if prefix == 5 then 31 else if prefix == 6 then 63 else 127
  }

  // ------------------------------------------------------------------ writing

  /** The continuation octets for `n`: seven bits at a time, least significant first. */
  function EncodeTail(n: nat): (r: seq<byte>)
    ensures |r| >= 1
  {
    if n < 128 then [n] else [128 + n % 128] + EncodeTail(n / 128)
  }

  /** The octets of `n` after an opcode octet `first`, whose low `prefix` bits are replaced. */
  function Encode(first: byte, n: nat, prefix: nat): (r: seq<byte>)
    requires 4 <= prefix <= 7
    ensures |r| >= 1
  {
    var k := PrefixMax(prefix);
    var high := first - first % (k + 1);
    if n < k then [high + n] else [high + k] + EncodeTail(n - k)
  }

  /** The value of continuation octets: seven bits each, the least significant first. */
  function TailValue(b: seq<byte>): nat {
    if b == [] then 0 else b[0] % 128 + 128 * TailValue(b[1..])
  }

  /** All octets but the last have their top bit set. */
  ghost predicate Continued(b: seq<byte>) {
    b != [] && b[|b| - 1] < 128 && forall i :: 0 <= i < |b| - 1 ==> b[i] >= 128
  }

  lemma {:induction false} TailLayout(n: nat)
    ensures Continued(EncodeTail(n)) && TailValue(EncodeTail(n)) == n
  {
    if n >= 128 {
      TailLayout(n / 128);
      TailMore(128 + n % 128, EncodeTail(n / 128));
      assert n == 128 * (n / 128) + n % 128;
    } else {
      assert EncodeTail(n)[1..] == [];
    }
  }

  lemma TailMore(b: byte, rest: seq<byte>)
    requires b >= 128 && Continued(rest)
    ensures Continued([b] + rest) && TailValue([b] + rest) == b - 128 + 128 * TailValue(rest)
  {
    assert ([b] + rest)[1..] == rest;
  }

  /**
    * The format of section 5.1 of RFC 7541: the bits above the prefix are those of `first`; a number
    * below the all-ones prefix stands there, any other is that plus the continuation octets.
    */
  lemma EncodeLayout(first: byte, n: nat, prefix: nat)
    requires 4 <= prefix <= 7
    ensures var b, k := Encode(first, n, prefix), PrefixMax(prefix);
            && b[0] / (k + 1) == first / (k + 1)
            && (n < k ==> |b| == 1 && b[0] % (k + 1) == n)
            && (n >= k ==> b[0] % (k + 1) == k && Continued(b[1..]) && k + TailValue(b[1..]) == n)
  {
    var k := PrefixMax(prefix);
    var low := if n < k then n else k;
    Decomposed(first, k + 1);
    DivUnique(first - first % (k + 1) + low, k + 1, first / (k + 1), low);
    if n >= k {
      TailLayout(n - k);
      assert Encode(first, n, prefix)[1..] == EncodeTail(n - k);
    }
  }

  /** `count_encoded_length`. */
  method CountEncodedLength(n: nat, prefix: nat) returns (len: nat)
    requires 4 <= prefix <= 7
    ensures forall first: byte :: len == |Encode(first, n, prefix)|
  {
    var k := PrefixMax(prefix);
    if n < k {
      return 1;
    }
    var m := n - k;
    len := 1;
    while m >= 128
      invariant m >= 0
      invariant len + |EncodeTail(m)| == 1 + |EncodeTail(n - k)|
    {
      m := m / 128;
      len := len + 1;
    }
    len := len + 1;
  }

  /** `encode_length`. */
  method EncodeLength(first: byte, n: nat, prefix: nat) returns (out: seq<byte>)
    requires 4 <= prefix <= 7
    ensures out == Encode(first, n, prefix)
  {
    var k := PrefixMax(prefix);
    var high := first - first % (k + 1);
    if n < k {
      return [high + n];
    }
    out := [high + k];
    var m := n - k;
    while m >= 128
      invariant m >= 0
      invariant out + EncodeTail(m) == Encode(first, n, prefix)
    {
      assert out + EncodeTail(m) == (out + [128 + m % 128]) + EncodeTail(m / 128);
      out := out + [128 + m % 128];
      m := m / 128;
    }
    out := out + [m];
  }

  /** The octets after the prefix: one for every seven bits, hence five for a long `uint32_t`. */
  lemma EncodeTailLength(n: nat)
    ensures n < 0x80 ==> |EncodeTail(n)| == 1
    ensures n < 0x4000 ==> |EncodeTail(n)| <= 2
    ensures n < 0x20_0000 ==> |EncodeTail(n)| <= 3
    ensures n < 0x1000_0000 ==> |EncodeTail(n)| <= 4
    ensures n <= UINT32_MAX ==> |EncodeTail(n)| <= 5
    ensures 0x1000_0000 <= n <= UINT32_MAX ==> |EncodeTail(n)| == 5
  {
    if n >= 0x80 {
      assert |EncodeTail(n)| == 1 + |EncodeTail(n / 0x80)|;
      if n >= 0x4000 {
        assert |EncodeTail(n / 0x80)| == 1 + |EncodeTail(n / 0x80 / 0x80)|;
        if n >= 0x20_0000 {
          assert |EncodeTail(n / 0x80 / 0x80)| == 1 + |EncodeTail(n / 0x80 / 0x80 / 0x80)|;
          if n >= 0x1000_0000 {
            assert |EncodeTail(n / 0x80 / 0x80 / 0x80)| == 1 + |EncodeTail(n / 0x80 / 0x80 / 0x80 / 0x80)|;
          }
        }
      }
    }
  }

  /** The scratch buffers of 16 octets hold every encoded `size_t`. */
  lemma {:induction false} EncodeTailFits(n: nat, k: nat)
    requires n < Pow2(7 * k) && k >= 1
    ensures |EncodeTail(n)| <= k
    decreases k
  {
    Pow2Seven(7 * (k - 1));
    assert 7 * k == 7 * (k - 1) + 7;
    if k == 1 {
      assert Pow2(0) == 1;
    } else if n >= 128 {
      EncodeTailFits(n / 128, k - 1);
    }
  }

  lemma EncodedSizeFits(first: byte, n: nat, prefix: nat)
    requires 4 <= prefix <= 7 && n < 0x1_0000_0000_0000_0000
    ensures |Encode(first, n, prefix)| <= 16
  {
    Pow2Values();
    Pow2Add(8, 8);
    Pow2Add(16, 16);
    Pow2Add(32, 32);
    Pow2Add(64, 6);
    var k := PrefixMax(prefix);
    if n >= k {
      EncodeTailFits(n - k, 10);
    }
  }

  // ------------------------------------------------------------------ reading

  /** What one octet does to a partly read integer. */
  datatype IntStepResult =
    | IntError
    | IntMore(n: nat, shift: nat)
    | IntDone(n: nat, shift: nat)

  /** One continuation octet, with the three overflow checks of the source. */
  function ContinueInt(n: nat, shift: nat, b: byte): IntStepResult {
    if shift >= 32 || UINT32_MAX / Pow2(shift) < b % 128 then IntError
    else
      var add := b % 128 * Pow2(shift);
      if UINT32_MAX - add < n then IntError
      else if b < 128 then IntDone(n + add, shift)
      else IntMore(n + add, shift + 7)
  }

  /** One octet; a value of 0 means that the prefix octet is still to come. */
  function IntStep(n: nat, shift: nat, b: byte, prefix: nat): IntStepResult
    requires 4 <= prefix <= 7
  {
    var k := PrefixMax(prefix);
    if n == 0 then
      if b % (k + 1) != k then IntDone(b % (k + 1), 0) else IntMore(k, shift)
    else ContinueInt(n, shift, b)
  }

  /** The outcome of reading a chunk of input. */
  datatype IntResult =
    | IntFail
    | IntPartial(n: nat, shift: nat)
    | IntValue(n: nat, shift: nat, consumed: nat)

  /** Octet-by-octet reading, the reference for `DecodeLength`. */
  function DecodeInt(n: nat, shift: nat, input: seq<byte>, prefix: nat): (r: IntResult)
    requires 4 <= prefix <= 7
    ensures r.IntValue? ==> 1 <= r.consumed <= |input|
    decreases |input|
  {
    if input == [] then IntPartial(n, shift)
    else match IntStep(n, shift, input[0], prefix)
      case IntError => IntFail
      case IntDone(v, s) => IntValue(v, s, 1)
      case IntMore(v, s) =>
        match DecodeInt(v, s, input[1..], prefix)
        case IntFail => IntFail
        case IntPartial(v', s') => IntPartial(v', s')
        case IntValue(v', s', c) => IntValue(v', s', c + 1)
  }

  /** `decode_length`: reads from a non-empty chunk, bulk form with the shift kept in a local. */
  method DecodeLength(initial: nat, shift0: nat, input: seq<byte>, prefix: nat) returns (r: IntResult)
    requires 4 <= prefix <= 7
    requires |input| > 0
    requires initial == 0 ==> shift0 == 0
    ensures r == DecodeInt(initial, shift0, input, prefix)
    ensures r.IntPartial? ==> r.n > 0
  {
    var k := PrefixMax(prefix);
    var n := initial;
    var pos := 0;
    if n == 0 {
      if input[0] % (k + 1) != k {
        return IntValue(input[0] % (k + 1), 0, 1);
      }
      n := k;
      pos := 1;
      if pos == |input| {
        return IntPartial(n, 0);
      }
    }
    var shift := shift0;
    ghost var whole := DecodeInt(initial, shift0, input, prefix);
    while pos != |input|
      invariant 0 <= pos <= |input| && n > 0
      invariant whole == Later(DecodeInt(n, shift, input[pos..], prefix), pos)
      decreases |input| - pos
    {
      LoopStep(n, shift, input, pos, prefix);
      var step := AddOctet(n, shift, input[pos]);
      if step.IntError? {
        return IntFail;
      }
      n := step.n;
      if step.IntDone? {
        return IntValue(n, shift, pos + 1);
      }
      pos, shift := pos + 1, shift + 7;
    }
    return IntPartial(n, shift);
  }

  /** The body of the loop of `decode_length`. */
  method AddOctet(n: nat, shift: nat, b: byte) returns (r: IntStepResult)
    ensures r == ContinueInt(n, shift, b) && (n > 0 && !r.IntError? ==> r.n > 0)
    ensures r.IntMore? ==> r.shift == shift + 7
    ensures r.IntDone? ==> r.shift == shift
  {
    var add := b % 128;
    if shift >= 32 || UINT32_MAX / Pow2(shift) < add {
      return IntError;
    }
    add := add * Pow2(shift);
    if UINT32_MAX - add < n {
      return IntError;
    }
    return if b < 128 then IntDone(n + add, shift) else IntMore(n + add, shift + 7);
  }

  lemma LoopStep(n: nat, shift: nat, input: seq<byte>, pos: nat, prefix: nat)
    requires 4 <= prefix <= 7 && n > 0 && pos < |input|
    ensures DecodeInt(n, shift, input[pos..], prefix) ==
            match ContinueInt(n, shift, input[pos])
            case IntError => IntFail
            case IntDone(v, s) => IntValue(v, s, 1)
            case IntMore(v, s) => Later(DecodeInt(v, s, input[pos + 1..], prefix), 1)
  {
    assert input[pos..][0] == input[pos] && input[pos..][1..] == input[pos + 1..];
  }

  /** The same outcome, seen from `offset` octets earlier. */
  function Later(r: IntResult, offset: nat): IntResult {
    match r
    case IntValue(n, s, c) => IntValue(n, s, c + offset)
    case IntFail => IntFail
    case IntPartial(n, s) => IntPartial(n, s)
  }

  // --------------------------------------------------------------- properties

  /**
    * Cutting the input anywhere and resuming with the saved value and shift changes nothing:
    * not the value, not the number of octets used, not the error verdict.
    */
  lemma {:induction false} DecodeIntChunks(n: nat, shift: nat, a: seq<byte>, b: seq<byte>, prefix: nat)
    requires 4 <= prefix <= 7
    ensures DecodeInt(n, shift, a + b, prefix) ==
            match DecodeInt(n, shift, a, prefix)
            case IntPartial(n', s') => Later(DecodeInt(n', s', b, prefix), |a|)
            case IntFail => IntFail
            case IntValue(v, s, c) => IntValue(v, s, c)
    decreases |a|
  {
    if a == [] {
      assert a + b == b;
    } else {
      assert (a + b)[0] == a[0] && (a + b)[1..] == a[1..] + b;
      match IntStep(n, shift, a[0], prefix) {
        case IntMore(v, s) => DecodeIntChunks(v, s, a[1..], b, prefix);
        case _ =>
      }
    }
  }

  /** A continuation octet never lowers the value read so far. */
  lemma ContinueIntGrows(n: nat, shift: nat, b: byte)
    ensures var r := ContinueInt(n, shift, b);
            !r.IntError? ==> n <= r.n <= UINT32_MAX
  {
  }

  lemma SplitDigit(m: nat, p: nat)
    ensures m % 128 * p + m / 128 * (128 * p) == m * p
  {
    var q, r := m / 128, m % 128;
    assert m == 128 * q + r;
    assert m * p == (128 * q + r) * p == 128 * q * p + r * p;
  }

  lemma Pow2Seven(k: nat)
    ensures Pow2(k + 7) == 128 * Pow2(k)
  {
    Pow2Values();
    Pow2Add(7, k);
  }

  lemma QuotientBound(a: nat, p: nat, limit: nat)
    requires p >= 1 && a * p <= limit
    ensures a <= limit / p
  {
    var q := limit / p;
    assert limit < (q + 1) * p;
  }

  /** The step that matches one octet of `EncodeTail`. */
  lemma ContinueEncoded(acc: nat, shift: nat, m: nat)
    requires acc + m * Pow2(shift) <= UINT32_MAX
    requires shift < 32
    ensures m < 128 ==> ContinueInt(acc, shift, m) == IntDone(acc + m * Pow2(shift), shift)
    ensures m >= 128 ==> ContinueInt(acc, shift, 128 + m % 128) == IntMore(acc + m % 128 * Pow2(shift), shift + 7)
    ensures acc + m % 128 * Pow2(shift) + m / 128 * Pow2(shift + 7) == acc + m * Pow2(shift)
  {
    var p := Pow2(shift);
    Pow2Seven(shift);
    SplitDigit(m, p);
    assert m / 128 * (128 * p) >= 0;
    assert m % 128 * p <= m * p;
    QuotientBound(m % 128, p, UINT32_MAX);
    if m >= 128 {
      assert (128 + m % 128) % 128 == m % 128;
    }
  }

  lemma Pow2Large(shift: nat)
    requires shift >= 32
    ensures Pow2(shift) > UINT32_MAX
  {
    Pow2Add(32, shift - 32);
    Pow2Values();
    Pow2Add(8, 8);
    Pow2Add(16, 16);
  }

  lemma ShiftSmall(m: nat, shift: nat)
    requires m >= 1 && m * Pow2(shift) <= UINT32_MAX
    ensures shift < 32
  {
    assert Pow2(shift) <= m * Pow2(shift);
    if shift >= 32 {
      Pow2Large(shift);
    }
  }

  /** The outcome once one octet gave `step` and `rest` follows it. */
  function Resume(step: IntStepResult, rest: seq<byte>, prefix: nat): IntResult
    requires 4 <= prefix <= 7
  {
    match step
    case IntError => IntFail
    case IntDone(v, s) => IntValue(v, s, 1)
    case IntMore(v, s) => Later(DecodeInt(v, s, rest, prefix), 1)
  }

  /** `DecodeInt` on the encoding of `m`, one octet peeled off. */
  lemma DecodeTailHead(acc: nat, shift: nat, m: nat, rest: seq<byte>, prefix: nat)
    requires 4 <= prefix <= 7 && acc > 0
    ensures DecodeInt(acc, shift, EncodeTail(m) + rest, prefix) ==
            if m < 128 then Resume(ContinueInt(acc, shift, m), rest, prefix)
            else Resume(ContinueInt(acc, shift, 128 + m % 128), EncodeTail(m / 128) + rest, prefix)
  {
    var input := EncodeTail(m) + rest;
    if m < 128 {
      assert input[0] == m && input[1..] == rest;
    } else {
      assert input[0] == 128 + m % 128 && input[1..] == EncodeTail(m / 128) + rest;
    }
  }

  lemma {:induction false} DecodeTail(acc: nat, shift: nat, m: nat, total: nat, rest: seq<byte>, prefix: nat)
    requires 4 <= prefix <= 7
    requires acc > 0 && shift < 32
    requires total == acc + m * Pow2(shift) <= UINT32_MAX
    ensures var r := DecodeInt(acc, shift, EncodeTail(m) + rest, prefix);
            r.IntValue? && r.n == total && r.consumed == |EncodeTail(m)|
    decreases m
  {
    DecodeTailHead(acc, shift, m, rest, prefix);
    ContinueEncoded(acc, shift, m);
    if m >= 128 {
      ShiftSmall(m / 128, shift + 7);
      DecodeTail(acc + m % 128 * Pow2(shift), shift + 7, m / 128, total, rest, prefix);
    }
  }

  /** An octet of a number beyond 32 bits: an error, or the rest is still beyond. */
  lemma ContinueBeyond(acc: nat, shift: nat, m: nat)
    requires acc + m * Pow2(shift) > UINT32_MAX
    ensures m < 128 ==> ContinueInt(acc, shift, m).IntError?
    ensures m >= 128 ==> var r := ContinueInt(acc, shift, 128 + m % 128);
                         r.IntError? || (r == IntMore(acc + m % 128 * Pow2(shift), shift + 7))
    ensures acc + m % 128 * Pow2(shift) + m / 128 * Pow2(shift + 7) == acc + m * Pow2(shift)
  {
    Pow2Seven(shift);
    SplitDigit(m, Pow2(shift));
    if m >= 128 {
      assert (128 + m % 128) % 128 == m % 128;
    }
  }

  lemma {:induction false} DecodeTailBeyond(acc: nat, shift: nat, m: nat, rest: seq<byte>, prefix: nat)
    requires 4 <= prefix <= 7 && acc > 0 && acc + m * Pow2(shift) > UINT32_MAX
    ensures DecodeInt(acc, shift, EncodeTail(m) + rest, prefix) == IntFail
    decreases m
  {
    DecodeTailHead(acc, shift, m, rest, prefix);
    ContinueBeyond(acc, shift, m);
    if m >= 128 {
      DecodeTailBeyond(acc + m % 128 * Pow2(shift), shift + 7, m / 128, rest, prefix);
    }
  }

  /** The first octet and what follows it. */
  lemma EncodeHead(first: byte, n: nat, prefix: nat, rest: seq<byte>)
    requires 4 <= prefix <= 7
    ensures var k, input := PrefixMax(prefix), Encode(first, n, prefix) + rest;
            && input[0] % (k + 1) == (if n < k then n else k)
            && input[1..] == (if n < k then rest else EncodeTail(n - k) + rest)
            && |Encode(first, n, prefix)| == (if n < k then 1 else 1 + |EncodeTail(n - k)|)
  {
    var k := PrefixMax(prefix);
    PrefixOctet(first, k + 1, if n < k then n else k);
  }

  /** A number that does not fit 32 bits is refused. */
  lemma IntegerTooLarge(first: byte, n: nat, prefix: nat, rest: seq<byte>)
    requires 4 <= prefix <= 7 && n > UINT32_MAX
    ensures DecodeInt(0, 0, Encode(first, n, prefix) + rest, prefix) == IntFail
  {
    var k := PrefixMax(prefix);
    EncodeHead(first, n, prefix, rest);
    assert Pow2(0) == 1;
    DecodeTailBeyond(k, 0, n - k, rest, prefix);
  }

  /** The low bits of an octet are those that were put there. */
  lemma PrefixOctet(first: nat, m: nat, v: nat)
    requires v < m
    ensures (first - first % m + v) % m == v
  {
    Decomposed(first, m);
    DivUnique(first - first % m + v, m, first / m, v);
  }

  /** Reading what was written gives the number back and uses exactly the octets written. */
  lemma IntegerRoundTrip(first: byte, n: nat, prefix: nat, rest: seq<byte>)
    requires 4 <= prefix <= 7 && n <= UINT32_MAX
    ensures var r := DecodeInt(0, 0, Encode(first, n, prefix) + rest, prefix);
            r.IntValue? && r.n == n && r.consumed == |Encode(first, n, prefix)|
  {
    var k := PrefixMax(prefix);
    EncodeHead(first, n, prefix, rest);
    if n >= k {
      assert Pow2(0) == 1;
      DecodeTail(k, 0, n - k, n, rest, prefix);
    }
  }
}
