/**
  * Which fields the encoder of lib/nghttp2_hd.c puts into the dynamic table, stated from what a caller
  * sees: the names, the flag on the field, the octets written and the tables.
  */
module HpackIndexing {
  import opened Bytes
  import opened HpackInteger
  import opened HpackTable
  import opened Huffman
  import opened Hpack
  import opened HpackInflate
  import opened HpackSync

  function Ascii(s: string): seq<byte> {
    seq(|s|, i requires 0 <= i < |s| => if s[i] < 128 as char then s[i] as int else 0)
  }

  /** The entry of the static table with this token has this name. */
  ghost predicate NamedBy(p: Tables, token: int, name: string)
    requires |p.statics| == STATIC_LENGTH
  {
    0 <= token < STATIC_LENGTH && p.statics[token].token == token && p.statics[token].field.name == Ascii(name)
  }

  /** The names behind the tokens that `deflate_nv` looks at. */
  ghost predicate Named(p: Tables)
    requires |p.statics| == STATIC_LENGTH
  {
    && NamedBy(p, TOKEN_AUTHORIZATION, "authorization") && NamedBy(p, TOKEN_COOKIE, "cookie")
    && NamedBy(p, TOKEN_PATH, ":path") && NamedBy(p, TOKEN_AGE, "age")
    && NamedBy(p, TOKEN_CONTENT_LENGTH, "content-length") && NamedBy(p, TOKEN_ETAG, "etag")
    && NamedBy(p, TOKEN_IF_MODIFIED_SINCE, "if-modified-since") && NamedBy(p, TOKEN_IF_NONE_MATCH, "if-none-match")
    && NamedBy(p, TOKEN_LOCATION, "location") && NamedBy(p, TOKEN_SET_COOKIE, "set-cookie")
  }

  lemma TokenNames(p: Tables, token: int, name: string, m: seq<byte>)
    requires WfStatics(p) && NamedBy(p, token, name)
    ensures LookupToken(p, m) == token <==> m == Ascii(name)
  {
    assert StaticOk(p, token) && TokenOk(p, m);
  }

  /** Fields that must not be indexed by anyone: marked by the caller, or likely to be secret. */
  ghost predicate Secret(nv: Nv) {
    nv.noIndex || nv.name == Ascii("authorization") || (nv.name == Ascii("cookie") && |nv.value| < 20)
  }

  /** Names whose values change too often to be worth a place in the table. */
  ghost predicate Volatile(name: seq<byte>) {
    || name == Ascii(":path") || name == Ascii("age") || name == Ascii("content-length") || name == Ascii("etag")
    || name == Ascii("if-modified-since") || name == Ascii("if-none-match") || name == Ascii("location")
    || name == Ascii("set-cookie")
  }

  /** The field is in one of the two tables. */
  ghost predicate Present(p: Tables, t: seq<Field>, f: Field)
    requires |p.statics| == STATIC_LENGTH
  {
    exists i :: 0 <= i < STATIC_LENGTH + |t| && TableGet(p, t, i) == f
  }

  lemma SecretExactly(p: Tables, nv: Nv)
    requires WfStatics(p) && Named(p)
    ensures Sensitive(p, nv) <==> Secret(nv)
  {
    TokenNames(p, TOKEN_AUTHORIZATION, "authorization", nv.name);
    TokenNames(p, TOKEN_COOKIE, "cookie", nv.name);
  }

  /** The three modes, by names and sizes. */
  lemma ModeExactly(p: Tables, max: nat, nv: Nv)
    requires WfStatics(p) && Named(p)
    ensures ModeOf(p, max, nv).NeverIndexing? <==> Secret(nv)
    ensures ModeOf(p, max, nv).WithIndexing? <==>
            !Secret(nv) && !Volatile(nv.name) && 4 * EntryRoom(FieldOf(nv)) <= 3 * max
  {
    SecretExactly(p, nv);
    TokenNames(p, TOKEN_PATH, ":path", nv.name);
    TokenNames(p, TOKEN_AGE, "age", nv.name);
    TokenNames(p, TOKEN_CONTENT_LENGTH, "content-length", nv.name);
    TokenNames(p, TOKEN_ETAG, "etag", nv.name);
    TokenNames(p, TOKEN_IF_MODIFIED_SINCE, "if-modified-since", nv.name);
    TokenNames(p, TOKEN_IF_NONE_MATCH, "if-none-match", nv.name);
    TokenNames(p, TOKEN_LOCATION, "location", nv.name);
    TokenNames(p, TOKEN_SET_COOKIE, "set-cookie", nv.name);
  }

  /** The first octet tells the mode. */
  lemma LiteralFirst(p: Tables, index: int, nv: Nv, mode: Mode)
    requires |p.huff.codes| == 257 && index >= -1
    ensures var b := LiteralBytes(p, index, nv, mode);
            && b != []
            && (mode.NeverIndexing? ==> 0x10 <= b[0] < 0x20)
            && (mode.WithoutIndexing? ==> b[0] < 0x10)
            && (mode.WithIndexing? ==> 0x40 <= b[0] < 0x80)
  {
    HeadFirst(p, index, nv.name, mode);
    FirstOfTwo(LiteralHead(p, index, nv.name, mode), StringBytes(p, nv.value));
  }

  lemma FirstOfTwo(a: seq<byte>, b: seq<byte>)
    requires a != []
    ensures a + b != [] && (a + b)[0] == a[0]
  {
  }

  lemma HeadFirst(p: Tables, index: int, name: seq<byte>, mode: Mode)
    requires |p.huff.codes| == 257 && index >= -1
    ensures var b := LiteralHead(p, index, name, mode);
            b != [] && FirstByte(mode) <= b[0] <= FirstByte(mode) + (if mode.WithIndexing? then 63 else 15)
  {
    Prefixes();
    if index == -1 {
      FirstOfTwo([FirstByte(mode)], StringBytes(p, name));
    } else {
      FirstOctet(FirstByte(mode), index + 1, IndexPrefix(mode));
    }
  }

  lemma Prefixes()
    ensures PrefixMax(4) == 15 && PrefixMax(6) == 63 && PrefixMax(7) == 127
  {
  }

  lemma IndexedFirst(index: nat)
    ensures IndexedBytes(index)[0] >= 0x80
  {
    Prefixes();
    FirstOctet(0x80, index + 1, 7);
  }

  /** A secret field leaves the table alone and is marked as never to be indexed. */
  lemma SecretField(p: Tables, e: Encoder, nv: Nv)
    requires WfStatics(p) && Named(p) && |p.huff.codes| == 257 && Secret(nv)
    ensures FieldTable(p, e, nv) == e.table && Expected(p, nv).noIndex
    ensures FieldBytes(p, e, nv) != [] && 0x10 <= FieldBytes(p, e, nv)[0] < 0x20
  {
    ModeExactly(p, e.max, nv);
    SecretExactly(p, nv);
    var mode := ModeOf(p, e.max, nv);
    SearchSound(p, e.table, nv, mode);
    LiteralFirst(p, Search(p, e.table, nv, mode).index, nv, mode);
  }

  /**
    * Any other field is a reference if it is in a table; and if it is in none, it becomes the newest
    * entry exactly if its name is not volatile and it takes no more than three quarters of the table.
    */
  lemma OpenField(p: Tables, e: Encoder, nv: Nv)
    requires WfStatics(p) && Named(p) && |p.huff.codes| == 257 && !Secret(nv)
    ensures !Expected(p, nv).noIndex && FieldBytes(p, e, nv) != []
    ensures var b, t := FieldBytes(p, e, nv)[0], FieldTable(p, e, nv);
            if Present(p, e.table, FieldOf(nv)) then b >= 0x80 && t == e.table
            else if Volatile(nv.name) || 4 * EntryRoom(FieldOf(nv)) > 3 * e.max then b < 0x10 && t == e.table
            else 0x40 <= b < 0x80 && t != [] && t[0] == FieldOf(nv) && t[1..] <= e.table
  {
    ModeExactly(p, e.max, nv);
    SecretExactly(p, nv);
    var mode := ModeOf(p, e.max, nv);
    var r := Search(p, e.table, nv, mode);
    SearchSound(p, e.table, nv, mode);
    PresentExactly(p, e.table, nv, mode);
    if r.exact {
      IndexedFirst(r.index);
    } else {
      LiteralFirst(p, r.index, nv, mode);
    }
  }

  lemma PresentExactly(p: Tables, t: seq<Field>, nv: Nv, mode: Mode)
    requires WfStatics(p) && !mode.NeverIndexing?
    ensures Search(p, t, nv, mode).exact <==> Present(p, t, FieldOf(nv))
  {
    SearchSound(p, t, nv, mode);
    if Present(p, t, FieldOf(nv)) {
      var i :| 0 <= i < STATIC_LENGTH + |t| && TableGet(p, t, i) == FieldOf(nv);
      SearchComplete(p, t, nv, mode, i);
    }
  }

  /** Every field has come back in its place, marked exactly if it is secret. */
  ghost predicate ReadBack(nvs: seq<Nv>, fields: seq<Header>) {
    |fields| == |nvs| && forall i :: 0 <= i < |nvs| ==> fields[i] == Header(FieldOf(nvs[i]), Secret(nvs[i]))
  }

  lemma {:induction false} ExpectedReadBack(p: Tables, nvs: seq<Nv>)
    requires WfStatics(p) && Named(p)
    ensures ReadBack(nvs, ExpectedFields(p, nvs))
    decreases |nvs|
  {
    if nvs != [] {
      SecretExactly(p, nvs[0]);
      ExpectedReadBack(p, nvs[1..]);
    }
  }

  // ------------------------------------------------------------------ over whole runs

  /** The fields of a run that may be remembered. */
  ghost predicate Shown(events: seq<Event>, f: Field) {
    exists i, j :: 0 <= i < |events| && events[i].Block? && 0 <= j < |events[i].nvs| &&
      !Secret(events[i].nvs[j]) && FieldOf(events[i].nvs[j]) == f
  }

  ghost predicate ShownIn(nvs: seq<Nv>, f: Field) {
    exists j :: 0 <= j < |nvs| && !Secret(nvs[j]) && FieldOf(nvs[j]) == f
  }

  /** After a block the table holds old entries and fields of the block that are not secret. */
  lemma {:induction false} BlockShows(p: Tables, e: Encoder, nvs: seq<Nv>, f: Field)
    requires WfStatics(p) && Named(p) && |p.huff.codes| == 257 && f in FieldsTable(p, e, nvs)
    ensures f in e.table || ShownIn(nvs, f)
    decreases |nvs|
  {
    if nvs != [] {
      var e' := e.(table := FieldTable(p, e, nvs[0]));
      BlockShows(p, e', nvs[1..], f);
      if ShownIn(nvs[1..], f) {
        var j :| 0 <= j < |nvs[1..]| && !Secret(nvs[1..][j]) && FieldOf(nvs[1..][j]) == f;
        assert nvs[j + 1] == nvs[1..][j];
      } else {
        FieldShows(p, e, nvs[0], f);
        assert nvs[0] == nvs[0];
      }
    }
  }

  lemma FieldShows(p: Tables, e: Encoder, nv: Nv, f: Field)
    requires WfStatics(p) && Named(p) && |p.huff.codes| == 257 && f in FieldTable(p, e, nv)
    ensures f in e.table || (!Secret(nv) && f == FieldOf(nv))
  {
    if Secret(nv) {
      SecretField(p, e, nv);
    } else {
      OpenField(p, e, nv);
      var t := FieldTable(p, e, nv);
      if t != e.table {
        assert t == [t[0]] + t[1..];
      }
    }
  }

  lemma {:induction false} SettingsShow(e: Encoder, sizes: seq<nat>)
    ensures ChangeAll(e, sizes).table <= e.table
    decreases |sizes|
  {
    if sizes != [] {
      SettingsShow(ChangeEncoderSize(e, sizes[0]), sizes[1..]);
    }
  }

  ghost function EncoderAfterAll(p: Tables, e: Encoder, events: seq<Event>): Encoder
    requires |p.statics| == STATIC_LENGTH
    decreases |events|
  {
    if events == [] then e else EncoderAfterAll(p, EncoderAfter(p, e, events[0]), events[1..])
  }

  /**
    * In every run of header blocks and SETTINGS frames the table, and with it the decoder's, holds only
    * fields that were sent and are not secret.
    */
  lemma {:induction false} NothingSecret(p: Tables, e: Encoder, events: seq<Event>, f: Field)
    requires WfStatics(p) && Named(p) && |p.huff.codes| == 257 && f in EncoderAfterAll(p, e, events).table
    ensures f in e.table || Shown(events, f)
    decreases |events|
  {
    if events != [] {
      var rest := events[1..];
      NothingSecret(p, EncoderAfter(p, e, events[0]), rest, f);
      if Shown(rest, f) {
        var i, j :| 0 <= i < |rest| && rest[i].Block? && 0 <= j < |rest[i].nvs| &&
          !Secret(rest[i].nvs[j]) && FieldOf(rest[i].nvs[j]) == f;
        assert events[i + 1] == rest[i];
      } else {
        match events[0] {
          case Block(nvs) =>
            BlockShows(p, Notified(e), nvs, f);
            if ShownIn(nvs, f) {
              var j :| 0 <= j < |nvs| && !Secret(nvs[j]) && FieldOf(nvs[j]) == f;
              assert events[0].nvs[j] == nvs[j];
            }
          case Settings(sizes) =>
            SettingsShow(e, sizes);
        }
      }
    }
  }

  /** From two fresh ends: whatever is in the table was sent, and was not secret. */
  lemma NeverRemembered(p: Tables, cap: nat, events: seq<Event>, f: Field)
    requires WfStatics(p) && Named(p) && |p.huff.codes| == 257
    ensures f in EncoderAfterAll(p, InitialEncoder(cap), events).table ==> Shown(events, f)
  {
    if f in EncoderAfterAll(p, InitialEncoder(cap), events).table {
      NothingSecret(p, InitialEncoder(cap), events, f);
    }
  }
}
