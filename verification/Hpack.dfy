/**
  * The meaning of an HPACK header block as lib/nghttp2_hd.c produces it: which representation a
  * field gets, its octets, and what it does to the dynamic table.  The static table and the
  * token table are parameters.
  */
module Hpack {
  import opened Bytes
  import opened HpackInteger
  import opened HpackTable
  import opened Huffman

  // ------------------------------------------------------------------- parameters

  /** `nghttp2_hd_static_entry`. */
  datatype StaticEntry = StaticEntry(field: Field, token: nat, hash: nat)

  /** The Huffman tables, `static_table` and the table behind `lookup_token`. */
  datatype Tables = Tables(huff: HuffTables, statics: seq<StaticEntry>, tokens: map<seq<byte>, nat>)

  const STATIC_LENGTH: nat := 61
  const LAST_STATIC_TOKEN: nat := 60

  const TOKEN_PATH: int := 3
  const TOKEN_AGE: int := 20
  const TOKEN_AUTHORIZATION: int := 22
  const TOKEN_CONTENT_LENGTH: int := 27
  const TOKEN_COOKIE: int := 31
  const TOKEN_ETAG: int := 33
  const TOKEN_IF_MODIFIED_SINCE: int := 39
  const TOKEN_IF_NONE_MATCH: int := 40
  const TOKEN_LOCATION: int := 45
  const TOKEN_SET_COOKIE: int := 54

  /** `lookup_token`; -1 for a name without a token. */
  function LookupToken(p: Tables, name: seq<byte>): (t: int)
    ensures t >= -1
  {
    if name in p.tokens then p.tokens[name] else -1
  }

  /** The token of a static entry is the first index with the same name. */
  ghost predicate StaticOk(p: Tables, i: nat)
    requires i < |p.statics| == STATIC_LENGTH
  {
    var t := p.statics[i].token;
    && t <= i
    && p.statics[t].field.name == p.statics[i].field.name
    && LookupToken(p, p.statics[i].field.name) == t
    && (forall j :: t <= j <= i ==> p.statics[j].token == t)
  }

  /** A token names one header name, and a token of the static table names its entry. */
  ghost predicate TokenOk(p: Tables, name: seq<byte>)
    requires |p.statics| == STATIC_LENGTH
  {
    var t := LookupToken(p, name);
    && (0 <= t <= LAST_STATIC_TOKEN ==> p.statics[t].field.name == name && p.statics[t].token == t)
    && (t != -1 ==> forall m :: LookupToken(p, m) == t ==> m == name)
  }

  ghost predicate WfStatics(p: Tables) {
    && |p.statics| == STATIC_LENGTH
    && (forall i {:trigger StaticOk(p, i)} :: 0 <= i < STATIC_LENGTH ==> StaticOk(p, i))
    && (forall name {:trigger TokenOk(p, name)} :: TokenOk(p, name))
  }

  // ----------------------------------------------------------------------- search

  /** `nghttp2_nv` as the encoder sees it. */
  datatype Nv = Nv(name: seq<byte>, value: seq<byte>, noIndex: bool)

  function FieldOf(nv: Nv): Field {
    Field(nv.name, nv.value)
  }

  /** The smallest index of `f`, or -1. */
  function FindExact(t: seq<Field>, f: Field): (r: int)
    ensures -1 <= r < |t|
    ensures r >= 0 ==> t[r] == f && forall i :: 0 <= i < r ==> t[i] != f
    ensures r == -1 ==> forall i :: 0 <= i < |t| ==> t[i] != f
  {
    if t == [] then -1
    else if t[0] == f then 0
    else
      var r := FindExact(t[1..], f);
      assert forall i :: 0 <= i < |t| - 1 ==> t[1..][i] == t[i + 1];
      if r == -1 then -1 else r + 1
  }

  /** The smallest index of an entry named `name`, or -1. */
  function FindName(t: seq<Field>, name: seq<byte>): (r: int)
    ensures -1 <= r < |t|
    ensures r >= 0 ==> t[r].name == name && forall i :: 0 <= i < r ==> t[i].name != name
    ensures r == -1 ==> forall i :: 0 <= i < |t| ==> t[i].name != name
  {
    if t == [] then -1
    else if t[0].name == name then 0
    else
      var r := FindName(t[1..], name);
      assert forall i :: 0 <= i < |t| - 1 ==> t[1..][i] == t[i + 1];
      if r == -1 then -1 else r + 1
  }

  /** The first entry with value `value` in the run of entries with token `token` from `i` on. */
  function FindStatic(p: Tables, token: nat, value: seq<byte>, i: nat): (r: int)
    requires i <= |p.statics|
    ensures r == -1 || (i <= r < |p.statics| && p.statics[r].token == token && p.statics[r].field.value == value)
    decreases |p.statics| - i
  {
    if i == |p.statics| || p.statics[i].token != token then -1
    else if p.statics[i].field.value == value then i
    else FindStatic(p, token, value, i + 1)
  }

  /** `search_result`. */
  datatype Found = Found(index: int, exact: bool)

  datatype Mode = WithIndexing | WithoutIndexing | NeverIndexing

  /** `search_hd_table`, by linear scans instead of the hash map. */
  function Search(p: Tables, t: seq<Field>, nv: Nv, mode: Mode): (r: Found)
    requires |p.statics| == STATIC_LENGTH
  {
    var token := LookupToken(p, nv.name);
    var e := if mode.NeverIndexing? then -1 else FindExact(t, FieldOf(nv));
    if e >= 0 then Found(STATIC_LENGTH + e, true)
    else if 0 <= token <= LAST_STATIC_TOKEN then
      var s := if mode.NeverIndexing? then -1 else FindStatic(p, token, nv.value, token);
      if s >= 0 then Found(s, true) else Found(token, false)
    else
      var n := FindName(t, nv.name);
      if n >= 0 then Found(STATIC_LENGTH + n, false) else Found(-1, false)
  }

  /** `nghttp2_hd_table_get`. */
  function TableGet(p: Tables, t: seq<Field>, idx: nat): Field
    requires |p.statics| == STATIC_LENGTH && idx < STATIC_LENGTH + |t|
  {
    if idx < STATIC_LENGTH then p.statics[idx].field else t[idx - STATIC_LENGTH]
  }

  /** What a search finds is what was looked for. */
  lemma SearchSound(p: Tables, t: seq<Field>, nv: Nv, mode: Mode)
    requires WfStatics(p)
    ensures var r := Search(p, t, nv, mode);
            && -1 <= r.index < STATIC_LENGTH + |t|
            && (r.exact ==> r.index >= 0 && TableGet(p, t, r.index) == FieldOf(nv))
            && (!r.exact && r.index >= 0 ==> TableGet(p, t, r.index).name == nv.name)
  {
    assert TokenOk(p, nv.name);
    var r := Search(p, t, nv, mode);
    if 0 <= r.index < STATIC_LENGTH {
      assert StaticOk(p, r.index);
    }
  }

  lemma {:induction false} FindStaticComplete(p: Tables, token: nat, value: seq<byte>, i: nat, j: nat)
    requires i <= j < |p.statics| && p.statics[j].field.value == value
    requires forall k :: i <= k <= j ==> p.statics[k].token == token
    ensures FindStatic(p, token, value, i) >= 0
    decreases j - i
  {
    if i < j {
      FindStaticComplete(p, token, value, i + 1, j);
    }
  }

  /** A field of either table is found as an exact match, a dynamic one at its smallest index. */
  lemma SearchComplete(p: Tables, t: seq<Field>, nv: Nv, mode: Mode, idx: nat)
    requires WfStatics(p) && !mode.NeverIndexing?
    requires idx < STATIC_LENGTH + |t| && TableGet(p, t, idx) == FieldOf(nv)
    ensures Search(p, t, nv, mode).exact
    ensures idx >= STATIC_LENGTH ==> STATIC_LENGTH <= Search(p, t, nv, mode).index <= idx
  {
    if idx < STATIC_LENGTH {
      assert StaticOk(p, idx);
      FindStaticComplete(p, p.statics[idx].token, nv.value, p.statics[idx].token, idx);
    } else {
      assert t[idx - STATIC_LENGTH] == FieldOf(nv);
    }
  }

  // ------------------------------------------------------------------ representation

  /** Fields that no one may index. */
  predicate Sensitive(p: Tables, nv: Nv) {
    var token := LookupToken(p, nv.name);
    nv.noIndex || token == TOKEN_AUTHORIZATION || (token == TOKEN_COOKIE && |nv.value| < 20)
  }

  /** The choice of indexing in `deflate_nv` and `hd_deflate_decide_indexing`. */
  function ModeOf(p: Tables, max: nat, nv: Nv): Mode {
    var token := LookupToken(p, nv.name);
    if token == TOKEN_AUTHORIZATION || (token == TOKEN_COOKIE && |nv.value| < 20) || nv.noIndex then NeverIndexing
    else if token == TOKEN_PATH || token == TOKEN_AGE || token == TOKEN_CONTENT_LENGTH || token == TOKEN_ETAG ||
            token == TOKEN_IF_MODIFIED_SINCE || token == TOKEN_IF_NONE_MATCH || token == TOKEN_LOCATION ||
            token == TOKEN_SET_COOKIE || EntryRoom(FieldOf(nv)) > max * 3 / 4 then WithoutIndexing
    else WithIndexing
  }

  /** `pack_first_byte`. */
  function FirstByte(mode: Mode): byte {
    match mode
    case WithIndexing => 0x40
    case WithoutIndexing => 0
    case NeverIndexing => 0x10
  }

  function IndexPrefix(mode: Mode): nat {
    if mode.WithIndexing? then 6 else 4
  }

  /** `emit_string` Huffman codes a string only if that makes it shorter. */
  ghost predicate UsesHuffman(p: Tables, s: seq<byte>)
    requires |p.huff.codes| == 257
  {
    |HuffBytes(p.huff, s)| < |s|
  }

  ghost function StringData(p: Tables, s: seq<byte>): (data: seq<byte>)
    requires |p.huff.codes| == 257
    ensures |data| <= |s|
  {
    if UsesHuffman(p, s) then HuffBytes(p.huff, s) else s
  }

  ghost function StringBytes(p: Tables, s: seq<byte>): seq<byte>
    requires |p.huff.codes| == 257
  {
    Encode(if UsesHuffman(p, s) then 0x80 else 0, |StringData(p, s)|, 7) + StringData(p, s)
  }

  /** A string takes its Huffman form, with the flag set, exactly if that is the shorter one. */
  lemma StringShortest(p: Tables, s: seq<byte>)
    requires |p.huff.codes| == 257
    ensures var h := HuffBytes(p.huff, s);
            StringBytes(p, s) == if |h| < |s| then Encode(0x80, |h|, 7) + h else Encode(0, |s|, 7) + s
  {
  }

  /** The opcode and the name of a literal field; index -1 stands for a new name. */
  ghost function LiteralHead(p: Tables, index: int, name: seq<byte>, mode: Mode): seq<byte>
    requires |p.huff.codes| == 257 && index >= -1
  {
    if index == -1 then [FirstByte(mode)] + StringBytes(p, name)
    else Encode(FirstByte(mode), index + 1, IndexPrefix(mode))
  }

  ghost function LiteralBytes(p: Tables, index: int, nv: Nv, mode: Mode): seq<byte>
    requires |p.huff.codes| == 257 && index >= -1
  {
    LiteralHead(p, index, nv.name, mode) + StringBytes(p, nv.value)
  }

  function IndexedBytes(index: nat): seq<byte> {
    Encode(0x80, index + 1, 7)
  }

  function SizeUpdateBytes(size: nat): seq<byte> {
    Encode(0x20, size, 5)
  }

  // ------------------------------------------------------------------------ encoder

  /** What the header blocks to come depend on: `nghttp2_hd_deflater` without its hash map. */
  datatype Encoder = Encoder(table: seq<Field>, max: nat, cap: nat, minMax: nat, notify: bool)

  /** The octets of one field. */
  ghost function FieldBytes(p: Tables, e: Encoder, nv: Nv): seq<byte>
    requires WfStatics(p) && |p.huff.codes| == 257
  {
    var mode := ModeOf(p, e.max, nv);
    var r := Search(p, e.table, nv, mode);
    SearchSound(p, e.table, nv, mode);
    if r.exact then IndexedBytes(r.index) else LiteralBytes(p, r.index, nv, mode)
  }

  /** The table after one field. */
  function FieldTable(p: Tables, e: Encoder, nv: Nv): seq<Field>
    requires |p.statics| == STATIC_LENGTH
  {
    var mode := ModeOf(p, e.max, nv);
    if mode.WithIndexing? && !Search(p, e.table, nv, mode).exact then AddEntry(e.table, e.max, FieldOf(nv))
    else e.table
  }

  ghost function FieldsBytes(p: Tables, e: Encoder, nvs: seq<Nv>): seq<byte>
    requires WfStatics(p) && |p.huff.codes| == 257
    decreases |nvs|
  {
    if nvs == [] then []
    else FieldBytes(p, e, nvs[0]) + FieldsBytes(p, e.(table := FieldTable(p, e, nvs[0])), nvs[1..])
  }

  function FieldsTable(p: Tables, e: Encoder, nvs: seq<Nv>): seq<Field>
    requires |p.statics| == STATIC_LENGTH
    decreases |nvs|
  {
    if nvs == [] then e.table
    else FieldsTable(p, e.(table := FieldTable(p, e, nvs[0])), nvs[1..])
  }

  /** One size update, or two when the size had been lower in between. */
  function SizesBytes(min: nat, max: nat): seq<byte> {
    (if max > min then SizeUpdateBytes(min) else []) + SizeUpdateBytes(max)
  }

  /** The size updates at the head of a block. */
  function UpdateBytes(e: Encoder): seq<byte> {
    if e.notify then SizesBytes(e.minMax, e.max) else []
  }

  function Notified(e: Encoder): Encoder {
    if e.notify then e.(notify := false, minMax := UINT32_MAX) else e
  }

  /** A whole header block, `nghttp2_hd_deflate_hd_bufs`. */
  ghost function BlockBytes(p: Tables, e: Encoder, nvs: seq<Nv>): seq<byte>
    requires WfStatics(p) && |p.huff.codes| == 257
  {
    UpdateBytes(e) + FieldsBytes(p, Notified(e), nvs)
  }

  function AfterBlock(p: Tables, e: Encoder, nvs: seq<Nv>): Encoder
    requires |p.statics| == STATIC_LENGTH
  {
    Notified(e).(table := FieldsTable(p, Notified(e), nvs))
  }

  /** `nghttp2_hd_deflate_change_table_size`. */
  function ChangeEncoderSize(e: Encoder, settings: nat): Encoder {
    var next := Min(settings, e.cap);
    e.(max := next, minMax := Min(e.minMax, next), notify := true, table := Evict(e.table, next))
  }

  const DEFAULT_TABLE_SIZE: nat := 4096

  /** `nghttp2_hd_deflate_init2`. */
  function InitialEncoder(cap: nat): Encoder {
    if cap < DEFAULT_TABLE_SIZE then Encoder([], cap, cap, UINT32_MAX, true)
    else Encoder([], DEFAULT_TABLE_SIZE, cap, UINT32_MAX, false)
  }
}
