/**
  * The HTTP message rules of lib/nghttp2_http.c (RFC 7540 section 8.1.2): header fields are checked
  * one by one as they arrive, and only a few flags are kept.
  */
module HttpMessaging {
  import opened Bytes

  const INT64_MAX: nat := 0x7fff_ffff_ffff_ffff

  // --------------------------------------------------------------------------- numbers

  ghost predicate Digits(s: seq<byte>) {
    forall i {:trigger s[i]} :: 0 <= i < |s| ==> 48 <= s[i] <= 57
  }

  /** The decimal value of digits. */
  function Decimal(s: seq<byte>): nat {
    if s == [] then 0 else Decimal(s[..|s| - 1]) * 10 + Max(0, s[|s| - 1] as int - 48)
  }

  lemma {:induction false} DecimalPrefix(s: seq<byte>, i: nat)
    requires i <= |s|
    ensures Decimal(s[..i]) <= Decimal(s)
    decreases |s| - i
  {
    if i < |s| {
      assert s[..i + 1][..i] == s[..i];
      DecimalPrefix(s, i + 1);
    } else {
      assert s[..i] == s;
    }
  }

  /** The value of a decimal number, or -1 if there is none that fits. */
  ghost function UintOf(s: seq<byte>): int {
    if s != [] && Digits(s) && Decimal(s) <= INT64_MAX then Decimal(s) else -1
  }

  /** `parse_uint`. */
  method ParseUint(s: seq<byte>) returns (n: int)
    ensures n == UintOf(s)
  {
    if |s| == 0 {
      return -1;
    }
    n := 0;
    for i := 0 to |s|
      invariant n == Decimal(s[..i]) <= INT64_MAX && Digits(s[..i])
    {
      assert s[..i + 1][..i] == s[..i];
      DecimalPrefix(s, i + 1);
      if 48 <= s[i] <= 57 {
        if n > INT64_MAX / 10 {
          return -1;
        }
        n := n * 10;
        if n > INT64_MAX - (s[i] as int - 48) {
          return -1;
        }
        n := n + (s[i] as int - 48);
      } else {
        return -1;
      }
    }
    assert s[..|s|] == s;
  }

  ghost predicate Blank(s: seq<byte>) {
    forall i {:trigger s[i]} :: 0 <= i < |s| ==> s[i] == 32 || s[i] == 9
  }

  /** `lws`. */
  method Lws(s: seq<byte>) returns (r: bool)
    ensures r == Blank(s)
  {
    for i := 0 to |s|
      invariant forall j :: 0 <= j < i ==> s[j] == 32 || s[j] == 9
    {
      if s[i] != 32 && s[i] != 9 {
        return false;
      }
    }
    r := true;
  }

  function Downcase(c: byte): byte {
    if 65 <= c <= 90 then c + 32 else c
  }

  /** Equal but for the case of letters. */
  ghost predicate SameText(a: seq<byte>, b: seq<byte>) {
    |a| == |b| && forall i {:trigger a[i]} {:trigger b[i]} :: 0 <= i < |a| ==> Downcase(a[i]) == Downcase(b[i])
  }

  /** The octets agree, or are the two cases of a letter. */
  lemma SameTextExactly(a: seq<byte>, b: seq<byte>)
    ensures SameText(a, b) <==>
            |a| == |b| && forall i {:trigger a[i]} {:trigger b[i]} :: 0 <= i < |a| ==>
              a[i] == b[i] || (65 <= a[i] <= 90 && b[i] == a[i] + 32) || (65 <= b[i] <= 90 && a[i] == b[i] + 32)
  {
  }

  /** `memieq` on strings of the same length. */
  method Memieq(a: seq<byte>, b: seq<byte>) returns (r: bool)
    ensures r == SameText(a, b)
  {
    if |a| != |b| {
      return false;
    }
    for i := 0 to |a|
      invariant forall j :: 0 <= j < i ==> Downcase(a[j]) == Downcase(b[j])
    {
      if Downcase(a[i]) != Downcase(b[i]) {
        return false;
      }
    }
    r := true;
  }

  // ---------------------------------------------------------------------- header fields

  /** What `lookup_token` makes of a field name, as far as the rules care. */
  datatype Token =
    | Authority | Method | Path | Scheme | Protocol | Status
    | Host | ContentLength | Te
    | Hop      // connection, keep-alive, proxy-connection, transfer-encoding, upgrade
    | Other

  /** The result of the character checks of `nghttp2_http_on_header`. */
  datatype Check = Fine | BadName(upper: bool) | BadValue

  /** `pseudo` if the name begins with a colon. */
  datatype Field = Field(token: Token, pseudo: bool, value: seq<byte>, check: Check)

  ghost predicate WfField(f: Field) {
    && (f.token.Authority? || f.token.Method? || f.token.Path? || f.token.Scheme? ==> f.pseudo)
    && (f.token.Protocol? || f.token.Status? ==> f.pseudo)
    && (f.token.Host? || f.token.ContentLength? || f.token.Te? || f.token.Hop? ==> !f.pseudo)
  }

  /** The NGHTTP2_HTTP_FLAG_* bits. */
  datatype Flag =
    | HasAuthority | HasPath | HasMethod | HasScheme | HasHost | HasStatus | HasProtocol
    | PseudoDisallowed | MethConnect | MethHead | MethOptions | MethUpgrade
    | PathRegular | PathAsterisk | SchemeHttp | ExpectFinal

  /** `http_flags`, `content_length`, `recv_content_length` and `status_code`; -1 if there is none. */
  datatype State = State(flags: set<Flag>, contentLength: int, received: int, status: int)

  const FRESH: State := State({}, -1, 0, -1)

  const HEAD: seq<byte> := [72, 69, 65, 68]
  const CONNECT: seq<byte> := [67, 79, 78, 78, 69, 67, 84]
  const OPTIONS: seq<byte> := [79, 80, 84, 73, 79, 78, 83]
  const HTTP: seq<byte> := [104, 116, 116, 112]
  const HTTPS: seq<byte> := [104, 116, 116, 112, 115]
  const TRAILERS: seq<byte> := [116, 114, 97, 105, 108, 101, 114, 115]
  const ASTERISK: seq<byte> := [42]
  const SLASH: byte := 47

  /** A trailer block; the extended CONNECT protocol; a pushed stream, whose number is even. */
  datatype Context = Context(trailer: bool, protocol: bool, pushed: bool)

  datatype Option<T> = None | Some(value: T)

  // ------------------------------------------------------------------------- requests

  /** The field is acceptable in a request, whatever came before it. */
  ghost predicate Lawful(f: Field, c: Context) {
    match f.check
    case BadName(upper) => !f.pseudo && !upper
    case BadValue => !f.pseudo
    case Fine =>
      && !(c.trailer && f.pseudo)
      && match f.token
         case Authority => !Blank(f.value)
         case Method => !Blank(f.value) && !(c.pushed && f.value == CONNECT)
         case Path => !Blank(f.value)
         case Scheme => !Blank(f.value)
         case Protocol => c.protocol && !Blank(f.value)
         case Status => false
         case Host => !Blank(f.value)
         case ContentLength => UintOf(f.value) != -1
         case Te => SameText(TRAILERS, f.value)
         case Hop => false
         case Other => !f.pseudo
  }

  /** The rules of RFC 7540 section 8.1.2 for a field of a request, one by one. */
  ghost predicate RequestFieldRules(f: Field, c: Context) {
    && (!f.check.Fine? ==> !f.pseudo && !(f.check.BadName? && f.check.upper))
    && (f.check.Fine? ==>
          && (f.pseudo ==> !c.trailer && (f.token.Authority? || f.token.Method? || f.token.Path? || f.token.Scheme? ||
                                          (f.token.Protocol? && c.protocol)))
          && (f.pseudo || f.token.Host? ==> !Blank(f.value))
          && (c.pushed && f.token.Method? ==> f.value != CONNECT)
          && !f.token.Hop? && (f.token.Te? ==> SameText(TRAILERS, f.value))
          && (f.token.ContentLength? ==> UintOf(f.value) >= 0))
  }

  lemma LawfulExactly(f: Field, c: Context)
    requires WfField(f)
    ensures Lawful(f, c) <==> RequestFieldRules(f, c)
  {
    UintRange(f.value);
  }

  lemma UintRange(s: seq<byte>)
    ensures UintOf(s) >= -1
  {
  }

  /** A field that must not come twice. */
  predicate Once(t: Token) {
    t.Authority? || t.Method? || t.Path? || t.Scheme? || t.Protocol? || t.Host? || t.ContentLength?
  }

  /** A field with this token has been accepted already. */
  predicate Seen(st: State, t: Token) {
    match t
    case Authority => HasAuthority in st.flags
    case Method => HasMethod in st.flags
    case Path => HasPath in st.flags
    case Scheme => HasScheme in st.flags
    case Protocol => HasProtocol in st.flags
    case Host => HasHost in st.flags
    case ContentLength => st.contentLength != -1
    case _ => false
  }

  ghost predicate IsHttp(value: seq<byte>) {
    SameText(HTTP, value) || SameText(HTTPS, value)
  }

  /** The flags a lawful field sets. */
  ghost function Raised(f: Field): set<Flag> {
    if !f.check.Fine? then {PseudoDisallowed}
    else
      match f.token
      case Authority => {HasAuthority}
      case Method =>
        if f.value == HEAD then {HasMethod, MethHead}
        else if f.value == CONNECT then {HasMethod, MethConnect}
        else if f.value == OPTIONS then {HasMethod, MethOptions}
        else {HasMethod}
      case Path =>
        if f.value != [] && f.value[0] == SLASH then {HasPath, PathRegular}
        else if f.value == ASTERISK then {HasPath, PathAsterisk}
        else {HasPath}
      case Scheme => if IsHttp(f.value) then {HasScheme, SchemeHttp} else {HasScheme}
      case Protocol => {HasProtocol}
      case Host => {HasHost, PseudoDisallowed}
      case _ => {PseudoDisallowed}
  }

  /** One field of a request. */
  ghost function RequestStep(st: State, f: Field, c: Context): Option<State> {
    if !Lawful(f, c) || (f.pseudo && PseudoDisallowed in st.flags) || (f.check.Fine? && Seen(st, f.token)) then None
    else Some(st.(flags := st.flags + Raised(f),
                  contentLength := if f.check.Fine? && f.token.ContentLength? then UintOf(f.value)
                                   else st.contentLength))
  }

  /** A list of fields, one after the other. */
  ghost function RequestRun(st: State, fs: seq<Field>, c: Context): Option<State> {
    if fs == [] then Some(st)
    else
      match RequestRun(st, fs[..|fs| - 1], c)
      case None => None
      case Some(st') => RequestStep(st', fs[|fs| - 1], c)
  }

  /**
    * A header block a request may have: every field lawful, pseudo-fields before all others, and
    * nothing twice that must not be.
    */
  ghost predicate ValidFields(fs: seq<Field>, c: Context) {
    && (forall i {:trigger fs[i]} :: 0 <= i < |fs| ==> Lawful(fs[i], c))
    && (forall i, j {:trigger fs[i], fs[j]} :: 0 <= i < j < |fs| ==>
          && (fs[j].pseudo ==> fs[i].pseudo)
          && (fs[i].check.Fine? && fs[j].check.Fine? && fs[i].token == fs[j].token ==> !Once(fs[i].token)))
  }

  ghost function AllRaised(fs: seq<Field>): set<Flag> {
    if fs == [] then {} else AllRaised(fs[..|fs| - 1]) + Raised(fs[|fs| - 1])
  }

  /** The content length a list of fields declares. */
  ghost function LengthOf(fs: seq<Field>): int {
    if fs == [] then -1
    else
      var f := fs[|fs| - 1];
      if f.check.Fine? && f.token.ContentLength? then UintOf(f.value) else LengthOf(fs[..|fs| - 1])
  }

  ghost predicate Raises(fs: seq<Field>, x: Flag) {
    exists i :: 0 <= i < |fs| && x in Raised(fs[i])
  }

  ghost predicate Has(fs: seq<Field>, t: Token) {
    exists i :: 0 <= i < |fs| && fs[i].check.Fine? && fs[i].token == t
  }

  lemma {:induction false} RaisedSomewhere(fs: seq<Field>, x: Flag)
    ensures x in AllRaised(fs) <==> Raises(fs, x)
  {
    if fs != [] {
      var n := |fs| - 1;
      RaisedSomewhere(fs[..n], x);
      if Raises(fs[..n], x) {
        var i :| 0 <= i < n && x in Raised(fs[..n][i]);
        assert fs[i] == fs[..n][i];
      }
      if Raises(fs, x) {
        var i :| 0 <= i < |fs| && x in Raised(fs[i]);
        assert i < n ==> fs[..n][i] == fs[i];
      }
    }
  }

  ghost predicate WfFields(fs: seq<Field>) {
    forall i {:trigger fs[i]} :: 0 <= i < |fs| ==> WfField(fs[i])
  }

  /** The flag that records a token. */
  function FlagOf(t: Token): Flag
    requires Once(t) && !t.ContentLength?
  {
    match t
    case Authority => HasAuthority
    case Method => HasMethod
    case Path => HasPath
    case Scheme => HasScheme
    case Protocol => HasProtocol
    case Host => HasHost
  }

  lemma FlagRecords(f: Field, t: Token)
    requires Once(t) && !t.ContentLength?
    ensures FlagOf(t) in Raised(f) <==> f.check.Fine? && f.token == t
  {
  }

  /** The flags say which fields have been seen. */
  lemma FlagMeans(fs: seq<Field>, t: Token)
    requires Once(t) && !t.ContentLength?
    ensures FlagOf(t) in AllRaised(fs) <==> Has(fs, t)
  {
    RaisedSomewhere(fs, FlagOf(t));
    forall i | 0 <= i < |fs|
      ensures FlagOf(t) in Raised(fs[i]) <==> fs[i].check.Fine? && fs[i].token == t
    {
      FlagRecords(fs[i], t);
    }
  }

  ghost predicate AllLawful(fs: seq<Field>, c: Context) {
    forall i {:trigger fs[i]} :: 0 <= i < |fs| ==> Lawful(fs[i], c)
  }

  lemma {:induction false} LengthMeans(fs: seq<Field>, c: Context)
    requires AllLawful(fs, c)
    ensures LengthOf(fs) != -1 <==> Has(fs, ContentLength)
  {
    if fs != [] {
      var n := |fs| - 1;
      LengthMeans(fs[..n], c);
      if Has(fs[..n], ContentLength) {
        var i :| 0 <= i < n && fs[..n][i].check.Fine? && fs[..n][i].token == ContentLength;
        assert fs[i] == fs[..n][i];
      }
      if Has(fs, ContentLength) {
        var i :| 0 <= i < |fs| && fs[i].check.Fine? && fs[i].token == ContentLength;
        assert i < n ==> fs[..n][i] == fs[i];
      }
    }
  }

  ghost predicate SomeRegular(fs: seq<Field>) {
    exists i :: 0 <= i < |fs| && !fs[i].pseudo
  }

  lemma DisallowedMeans(fs: seq<Field>, c: Context)
    requires WfFields(fs) && AllLawful(fs, c)
    ensures PseudoDisallowed in AllRaised(fs) <==> SomeRegular(fs)
  {
    RaisedSomewhere(fs, PseudoDisallowed);
    forall i | 0 <= i < |fs|
      ensures PseudoDisallowed in Raised(fs[i]) <==> !fs[i].pseudo
    {
      assert WfField(fs[i]) && Lawful(fs[i], c);
    }
  }

  /** A further field keeps a block valid exactly under the conditions the code tests. */
  lemma ValidMore(fs: seq<Field>, f: Field, c: Context)
    requires ValidFields(fs, c)
    ensures ValidFields(fs + [f], c) <==>
            Lawful(f, c) && (f.pseudo ==> !SomeRegular(fs)) && (f.check.Fine? && Once(f.token) ==> !Has(fs, f.token))
  {
    var gs := fs + [f];
    assert gs[|fs|] == f && forall i {:trigger gs[i]} :: 0 <= i < |fs| ==> gs[i] == fs[i];
    if Lawful(f, c) && (f.pseudo ==> !SomeRegular(fs)) && (f.check.Fine? && Once(f.token) ==> !Has(fs, f.token)) {
      forall i, j {:trigger gs[i], gs[j]} | 0 <= i < j < |gs|
        ensures gs[j].pseudo ==> gs[i].pseudo
        ensures gs[i].check.Fine? && gs[j].check.Fine? && gs[i].token == gs[j].token ==> !Once(gs[i].token)
      {
        assert gs[i] == fs[i];
      }
    }
    if ValidFields(gs, c) {
      assert forall i :: 0 <= i < |fs| ==> (f.pseudo ==> fs[i].pseudo) by {
        assert forall i :: 0 <= i < |fs| ==> gs[i] == fs[i] && (gs[|fs|].pseudo ==> gs[i].pseudo);
      }
      assert forall i :: 0 <= i < |fs| && f.check.Fine? && fs[i].check.Fine? && fs[i].token == f.token ==>
               !Once(f.token) by {
        assert forall i :: 0 <= i < |fs| ==> gs[i] == fs[i];
      }
    }
  }

  /** What a lawful list of fields leaves of the state `st`. */
  ghost function AfterFields(st: State, fs: seq<Field>): State {
    st.(flags := st.flags + AllRaised(fs),
        contentLength := if LengthOf(fs) != -1 then LengthOf(fs) else st.contentLength)
  }

  lemma SeenMeans(st: State, fs: seq<Field>, c: Context, t: Token)
    requires AllLawful(fs, c)
    ensures Seen(AfterFields(st, fs), t) <==> Seen(st, t) || (Once(t) && Has(fs, t))
  {
    if t.ContentLength? {
      LengthMeans(fs, c);
    } else if Once(t) {
      FlagMeans(fs, t);
    }
  }

  /** No field of `fs` that must not come twice has been seen already. */
  ghost predicate AllNew(st: State, fs: seq<Field>) {
    forall i {:trigger fs[i]} :: 0 <= i < |fs| && fs[i].check.Fine? ==> !Seen(st, fs[i].token)
  }

  /**
    * Looking at one field at a time with a few flags accepts exactly the valid header blocks, from a
    * fresh stream or, as a trailer, with whatever the stream has seen before; and the flags left are
    * those of the fields.
    */
  lemma {:induction false} RequestFieldsExactly(st: State, fs: seq<Field>, c: Context)
    requires WfFields(fs) && (c.trailer || st == FRESH)
    ensures RequestRun(st, fs, c) == if ValidFields(fs, c) && AllNew(st, fs) then Some(AfterFields(st, fs)) else None
  {
    if fs == [] {
      assert st.flags + {} == st.flags;
    } else {
      var n := |fs| - 1;
      var gs, f := fs[..n], fs[n];
      RequestFieldsExactly(st, gs, c);
      assert fs == gs + [f] && WfField(f);
      ValidLess(gs, f, c);
      NewMore(st, gs, f);
      if ValidFields(gs, c) {
        ValidMore(gs, f, c);
        RequestOneMore(st, gs, f, c);
      }
    }
  }

  lemma NewMore(st: State, fs: seq<Field>, f: Field)
    ensures AllNew(st, fs + [f]) <==> AllNew(st, fs) && (f.check.Fine? ==> !Seen(st, f.token))
  {
    var all := fs + [f];
    assert all[|fs|] == f && forall i {:trigger fs[i]} :: 0 <= i < |fs| ==> all[i] == fs[i];
  }

  /** One more field of a valid block. */
  lemma RequestOneMore(st: State, fs: seq<Field>, f: Field, c: Context)
    requires WfFields(fs) && WfField(f) && ValidFields(fs, c) && (c.trailer || st == FRESH)
    ensures RequestStep(AfterFields(st, fs), f, c) ==
            if && Lawful(f, c) && (f.pseudo ==> !SomeRegular(fs))
               && (f.check.Fine? && Once(f.token) ==> !Has(fs, f.token)) && (f.check.Fine? ==> !Seen(st, f.token))
            then Some(AfterFields(st, fs + [f])) else None
  {
    DisallowedMeans(fs, c);
    SeenMeans(st, fs, c, f.token);
    if Lawful(f, c) {
      AfterFieldsMore(st, fs, f);
    }
  }

  lemma AfterFieldsMore(st: State, fs: seq<Field>, f: Field)
    requires f.check.Fine? && f.token.ContentLength? ==> UintOf(f.value) != -1
    ensures var st' := AfterFields(st, fs);
            AfterFields(st, fs + [f]) ==
            st'.(flags := st'.flags + Raised(f),
                 contentLength := if f.check.Fine? && f.token.ContentLength? then UintOf(f.value)
                                  else st'.contentLength)
  {
    assert (fs + [f])[..|fs|] == fs && (fs + [f])[|fs|] == f;
    assert st.flags + AllRaised(fs) + Raised(f) == st.flags + (AllRaised(fs) + Raised(f));
  }

  lemma ValidLess(fs: seq<Field>, f: Field, c: Context)
    ensures ValidFields(fs + [f], c) ==> ValidFields(fs, c)
  {
    var gs := fs + [f];
    assert forall i {:trigger fs[i]} :: 0 <= i < |fs| ==> gs[i] == fs[i];
  }

  /** `nghttp2_http_on_request_headers`, on the flags. */
  predicate RequestComplete(flags: set<Flag>) {
    if HasProtocol !in flags && MethConnect in flags then
      HasScheme !in flags && HasPath !in flags && HasAuthority in flags
    else
      && HasMethod in flags && HasPath in flags && HasScheme in flags
      && (HasAuthority in flags || HasHost in flags)
      && !(HasProtocol in flags && (MethConnect !in flags || HasAuthority !in flags))
      && (SchemeHttp !in flags || PathRegular in flags || (MethOptions in flags && PathAsterisk in flags))
  }

  /** NGHTTP2_HTTP_FLAG_METH_ALL. */
  const METHODS: set<Flag> := {MethConnect, MethHead, MethOptions, MethUpgrade}

  /** The end of a request's header block; a promised request leaves only its method behind. */
  function RequestEnd(st: State, push: bool): Option<State> {
    if !RequestComplete(st.flags) then None
    else if push then Some(st.(flags := st.flags * METHODS, contentLength := -1))
    else if HasProtocol !in st.flags && MethConnect in st.flags then Some(st.(contentLength := -1))
    else Some(st)
  }

  ghost predicate HasValue(fs: seq<Field>, t: Token, value: seq<byte>) {
    exists i :: 0 <= i < |fs| && fs[i].check.Fine? && fs[i].token == t && fs[i].value == value
  }

  ghost predicate HasHttpScheme(fs: seq<Field>) {
    exists i :: 0 <= i < |fs| && fs[i].check.Fine? && fs[i].token.Scheme? && IsHttp(fs[i].value)
  }

  ghost predicate HasAbsolutePath(fs: seq<Field>) {
    exists i :: 0 <= i < |fs| && fs[i].check.Fine? && fs[i].token.Path? && fs[i].value != [] && fs[i].value[0] == SLASH
  }

  /** The rules of RFC 7540 sections 8.1.2.3 and 8.3 and of RFC 8441 section 4, about the fields themselves. */
  ghost predicate RequestRules(fs: seq<Field>) {
    if HasValue(fs, Method, CONNECT) && !Has(fs, Protocol) then
      Has(fs, Authority) && !Has(fs, Scheme) && !Has(fs, Path)
    else
      && Has(fs, Method) && Has(fs, Scheme) && Has(fs, Path) && (Has(fs, Authority) || Has(fs, Host))
      && (Has(fs, Protocol) ==> HasValue(fs, Method, CONNECT) && Has(fs, Authority))
      && (HasHttpScheme(fs) ==> HasAbsolutePath(fs) || (HasValue(fs, Method, OPTIONS) && HasValue(fs, Path, ASTERISK)))
  }

  lemma ConnectMeans(fs: seq<Field>)
    ensures MethConnect in AllRaised(fs) <==> HasValue(fs, Method, CONNECT)
    ensures MethOptions in AllRaised(fs) <==> HasValue(fs, Method, OPTIONS)
  {
    RaisedSomewhere(fs, MethConnect);
    RaisedSomewhere(fs, MethOptions);
    Distinguishable();
    forall i | 0 <= i < |fs|
      ensures MethConnect in Raised(fs[i]) <==> fs[i].check.Fine? && fs[i].token == Method && fs[i].value == CONNECT
      ensures MethOptions in Raised(fs[i]) <==> fs[i].check.Fine? && fs[i].token == Method && fs[i].value == OPTIONS
    {
    }
  }

  lemma Distinguishable()
    ensures CONNECT != OPTIONS && CONNECT != HEAD && OPTIONS != HEAD && ASTERISK[0] != SLASH
  {
    assert CONNECT[0] == 67 && OPTIONS[0] == 79 && HEAD[0] == 72;
  }

  lemma PathMeans(fs: seq<Field>)
    ensures PathRegular in AllRaised(fs) <==> HasAbsolutePath(fs)
    ensures PathAsterisk in AllRaised(fs) <==> HasValue(fs, Path, ASTERISK)
    ensures SchemeHttp in AllRaised(fs) <==> HasHttpScheme(fs)
  {
    RaisedSomewhere(fs, PathRegular);
    RaisedSomewhere(fs, PathAsterisk);
    RaisedSomewhere(fs, SchemeHttp);
    Distinguishable();
    forall i | 0 <= i < |fs|
      ensures PathAsterisk in Raised(fs[i]) <==> fs[i].check.Fine? && fs[i].token == Path && fs[i].value == ASTERISK
    {
    }
  }

  /** The test on the flags is the test on the fields. */
  lemma RequestCompleteExactly(fs: seq<Field>)
    ensures RequestComplete(AllRaised(fs)) <==> RequestRules(fs)
  {
    FlagMeans(fs, Authority);
    FlagMeans(fs, Method);
    FlagMeans(fs, Path);
    FlagMeans(fs, Scheme);
    FlagMeans(fs, Protocol);
    FlagMeans(fs, Host);
    ConnectMeans(fs);
    PathMeans(fs);
  }

  // ------------------------------------------------------------------------ responses

  const ZERO: seq<byte> := [48]

  /** One field of a response. */
  ghost function ResponseStep(st: State, f: Field, trailer: bool): Option<State> {
    if !f.check.Fine? then
      if f.pseudo || (f.check.BadName? && f.check.upper) then None
      else Some(st.(flags := st.flags + {PseudoDisallowed}))
    else if f.pseudo && (trailer || PseudoDisallowed in st.flags) then None
    else
      var regular := st.(flags := st.flags + {PseudoDisallowed});
      match f.token
      case Status =>
        var code := UintOf(f.value);
        if HasStatus in st.flags || Blank(f.value) || |f.value| != 3 || code == -1 || code == 101 then None
        else Some(st.(flags := st.flags + {HasStatus}, status := code))
      case ContentLength =>
        if st.status == 204 then
          if st.contentLength != -1 || f.value != ZERO then None else Some(st.(contentLength := 0))
        else if 100 <= st.status < 200 || (200 <= st.status < 300 && MethConnect in st.flags) then None
        else if st.contentLength != -1 || UintOf(f.value) == -1 then None
        else Some(regular.(contentLength := UintOf(f.value)))
      case Hop => None
      case Te => if SameText(TRAILERS, f.value) then Some(regular) else None
      case _ => if f.pseudo then None else Some(regular)
  }

  ghost function ResponseRun(st: State, fs: seq<Field>, trailer: bool): Option<State> {
    if fs == [] then Some(st)
    else
      match ResponseRun(st, fs[..|fs| - 1], trailer)
      case None => None
      case Some(st') => ResponseStep(st', fs[|fs| - 1], trailer)
  }

  /** The end of a response's header block: an informational one makes room for another. */
  function ResponseEnd(st: State): Option<State> {
    if HasStatus !in st.flags then None
    else if 100 <= st.status < 200 then
      Some(st.(flags := st.flags * METHODS + {ExpectFinal}, contentLength := -1, status := -1))
    else
      Some(st.(flags := st.flags - {ExpectFinal}, contentLength := FinalLength(st.flags, st.status, st.contentLength)))
  }

  /** The content length in force after the final header block with status `code`. */
  function FinalLength(flags: set<Flag>, code: int, length: int): int {
    if MethHead in flags || code == 304 || code == 204 then 0
    else if MethConnect in flags || MethUpgrade in flags then -1
    else length
  }

  /** No field of the block has been seen yet. */
  ghost predicate BlockStart(st: State) {
    HasStatus !in st.flags && PseudoDisallowed !in st.flags && st.status == -1
  }

  predicate IsLength(f: Field) {
    f.check.Fine? && f.token.ContentLength?
  }

  /** The field is acceptable in a response with status `code`, or its trailer, wherever it stands. */
  ghost predicate LawfulResponse(f: Field, code: int, connect: bool) {
    if !f.check.Fine? then !f.pseudo && !(f.check.BadName? && f.check.upper)
    else
      match f.token
      case Status => !Blank(f.value) && |f.value| == 3 && UintOf(f.value) != -1 && UintOf(f.value) != 101
      case ContentLength =>
        if code == 204 then f.value == ZERO
        else !(100 <= code < 200) && !(200 <= code < 300 && connect) && UintOf(f.value) != -1
      case Hop => false
      case Te => SameText(TRAILERS, f.value)
      case _ => !f.pseudo
  }

  /** The rules for a field of a response with this status, one by one; `connect` if it answers a CONNECT. */
  ghost predicate ResponseFieldRules(f: Field, code: int, connect: bool) {
    && (!f.check.Fine? ==> !f.pseudo && !(f.check.BadName? && f.check.upper))
    && (f.check.Fine? ==>
          && (f.pseudo ==> f.token.Status? && |f.value| == 3 && !Blank(f.value) && UintOf(f.value) >= 0 &&
                           UintOf(f.value) != 101)
          && !f.token.Hop? && (f.token.Te? ==> SameText(TRAILERS, f.value))
          && (f.token.ContentLength? ==>
                && (code == 204 ==> f.value == [48])
                && !(100 <= code <= 199) && !(connect && 200 <= code <= 299 && code != 204)
                && (code != 204 ==> UintOf(f.value) >= 0)))
  }

  lemma LawfulResponseExactly(f: Field, code: int, connect: bool)
    requires WfField(f)
    ensures LawfulResponse(f, code, connect) <==> ResponseFieldRules(f, code, connect)
  {
    UintRange(f.value);
  }

  /**
    * A header block a response may have: every field lawful, a pseudo-field only at the head and in a
    * trailer nowhere, and one content length at most, `length` being that of an earlier block.
    */
  ghost predicate ValidResponse(fs: seq<Field>, trailer: bool, code: int, connect: bool, length: int) {
    && (forall i {:trigger fs[i]} :: 0 <= i < |fs| ==>
          && LawfulResponse(fs[i], code, connect)
          && (fs[i].pseudo ==> i == 0 && !trailer)
          && (IsLength(fs[i]) ==> length == -1))
    && (forall i, j {:trigger fs[i], fs[j]} :: 0 <= i < j < |fs| ==> !(IsLength(fs[i]) && IsLength(fs[j])))
  }

  /** The status a header block declares. */
  ghost function CodeOf(fs: seq<Field>): int {
    if fs != [] && fs[0].check.Fine? && fs[0].token.Status? then UintOf(fs[0].value) else -1
  }

  /** A further field keeps a block valid exactly under the conditions the code tests. */
  lemma ValidResponseMore(fs: seq<Field>, f: Field, trailer: bool, code: int, connect: bool, length: int)
    ensures ValidResponse(fs + [f], trailer, code, connect, length) <==>
            && ValidResponse(fs, trailer, code, connect, length) && LawfulResponse(f, code, connect)
            && (f.pseudo ==> fs == [] && !trailer)
            && (IsLength(f) ==> length == -1 && !Has(fs, ContentLength))
  {
    var all := fs + [f];
    assert all[|fs|] == f && forall i {:trigger fs[i]} :: 0 <= i < |fs| ==> all[i] == fs[i];
    if ValidResponse(all, trailer, code, connect, length) {
      assert forall i {:trigger fs[i]} :: 0 <= i < |fs| && IsLength(fs[i]) ==> IsLength(all[i]);
    }
  }

  /** The flags a lawful field of a response with status `code` sets. */
  ghost function RaisedBy(f: Field, code: int): set<Flag> {
    if !f.check.Fine? then {PseudoDisallowed}
    else if f.token.Status? then {HasStatus}
    else if f.token.ContentLength? && code == 204 then {}
    else {PseudoDisallowed}
  }

  ghost function ResponseRaised(fs: seq<Field>, code: int): set<Flag> {
    if fs == [] then {} else ResponseRaised(fs[..|fs| - 1], code) + RaisedBy(fs[|fs| - 1], code)
  }

  /** The content length after the fields `fs`, when it was `length` before. */
  ghost function ResponseLength(fs: seq<Field>, code: int, length: int): int {
    if fs == [] then length
    else
      var f := fs[|fs| - 1];
      if IsLength(f) then if code == 204 then 0 else UintOf(f.value)
      else ResponseLength(fs[..|fs| - 1], code, length)
  }

  /** What a valid list of fields leaves of the state `st`. */
  ghost function AfterResponse(st: State, fs: seq<Field>, code: int): State {
    State(st.flags + ResponseRaised(fs, code), ResponseLength(fs, code, st.contentLength), st.received, code)
  }

  lemma {:induction false} ResponseLengthMeans(fs: seq<Field>, trailer: bool, code: int, connect: bool, length: int)
    requires ValidResponse(fs, trailer, code, connect, length)
    ensures ResponseLength(fs, code, length) != -1 <==> length != -1 || Has(fs, ContentLength)
  {
    if fs != [] {
      var n := |fs| - 1;
      assert fs == fs[..n] + [fs[n]];
      ValidResponseMore(fs[..n], fs[n], trailer, code, connect, length);
      HasMore(fs[..n], fs[n], ContentLength);
      ResponseLengthMeans(fs[..n], trailer, code, connect, length);
    }
  }

  lemma {:induction false} ResponseFlag(fs: seq<Field>, code: int, x: Flag)
    ensures x in ResponseRaised(fs, code) <==> exists i :: 0 <= i < |fs| && x in RaisedBy(fs[i], code)
  {
    if fs != [] {
      var n := |fs| - 1;
      ResponseFlag(fs[..n], code, x);
      assert forall i {:trigger fs[i]} :: 0 <= i < n ==> fs[..n][i] == fs[i];
      if exists i :: 0 <= i < |fs| && x in RaisedBy(fs[i], code) {
        var i :| 0 <= i < |fs| && x in RaisedBy(fs[i], code);
        assert i < n ==> x in RaisedBy(fs[..n][i], code);
      }
    }
  }

  /** The flags that decide about a further pseudo-field. */
  lemma ResponseBegun(fs: seq<Field>, connect: bool, length: int)
    requires WfFields(fs) && fs != [] && ValidResponse(fs, false, CodeOf(fs), connect, length)
    ensures var flags := ResponseRaised(fs, CodeOf(fs)); HasStatus in flags || PseudoDisallowed in flags
  {
    assert WfField(fs[0]);
    ResponseFlag(fs, CodeOf(fs), if fs[0].pseudo then HasStatus else PseudoDisallowed);
  }

  /** The status is recorded exactly if the block begins with one. */
  lemma StatusMeans(fs: seq<Field>, connect: bool, length: int)
    requires WfFields(fs) && ValidResponse(fs, false, CodeOf(fs), connect, length)
    ensures HasStatus in ResponseRaised(fs, CodeOf(fs)) <==> CodeOf(fs) != -1
  {
    ResponseFlag(fs, CodeOf(fs), HasStatus);
    if fs != [] {
      assert WfField(fs[0]);
      if CodeOf(fs) != -1 {
        assert HasStatus in RaisedBy(fs[0], CodeOf(fs));
      }
    }
  }

  ghost function CodeIn(st: State, fs: seq<Field>, trailer: bool): int {
    if trailer then st.status else CodeOf(fs)
  }

  /** The conditions on one more field of a block. */
  ghost predicate Admits(st: State, fs: seq<Field>, f: Field, trailer: bool, code: int) {
    && LawfulResponse(f, code, MethConnect in st.flags) && (f.pseudo ==> fs == [] && !trailer)
    && (IsLength(f) ==> st.contentLength == -1 && !Has(fs, ContentLength))
  }

  lemma AfterOneMore(st: State, fs: seq<Field>, f: Field, code: int)
    ensures AfterResponse(st, fs + [f], code) ==
            State(st.flags + ResponseRaised(fs, code) + RaisedBy(f, code),
                  if IsLength(f) then if code == 204 then 0 else UintOf(f.value)
                  else ResponseLength(fs, code, st.contentLength), st.received, code)
  {
    assert (fs + [f])[..|fs|] == fs && (fs + [f])[|fs|] == f;
  }

  lemma StatusOneMore(st: State, fs: seq<Field>, f: Field, trailer: bool)
    requires WfFields(fs) && WfField(f) && (trailer || BlockStart(st)) && f.check.Fine? && f.token.Status?
    requires ValidResponse(fs, trailer, CodeIn(st, fs, trailer), MethConnect in st.flags, st.contentLength)
    ensures var code := CodeIn(st, fs + [f], trailer);
            ResponseStep(AfterResponse(st, fs, CodeIn(st, fs, trailer)), f, trailer) ==
            if Admits(st, fs, f, trailer, code) then Some(AfterResponse(st, fs + [f], code)) else None
  {
    AfterOneMore(st, fs, f, CodeIn(st, fs + [f], trailer));
    if !trailer && fs != [] {
      ResponseBegun(fs, MethConnect in st.flags, st.contentLength);
    } else if !trailer {
      assert (fs + [f])[0] == f && st.flags + {} + {HasStatus} == st.flags + {HasStatus};
    }
  }

  lemma RegularOneMore(st: State, fs: seq<Field>, f: Field, trailer: bool)
    requires WfFields(fs) && WfField(f) && (trailer || BlockStart(st)) && !(f.check.Fine? && f.token.Status?)
    requires ValidResponse(fs, trailer, CodeIn(st, fs, trailer), MethConnect in st.flags, st.contentLength)
    ensures var code := CodeIn(st, fs + [f], trailer);
            ResponseStep(AfterResponse(st, fs, CodeIn(st, fs, trailer)), f, trailer) ==
            if Admits(st, fs, f, trailer, code) then Some(AfterResponse(st, fs + [f], code)) else None
  {
    var code := CodeIn(st, fs + [f], trailer);
    assert CodeIn(st, fs, trailer) == code by {
      assert fs != [] ==> (fs + [f])[0] == fs[0];
      assert fs == [] ==> (fs + [f])[0] == f;
    }
    AfterOneMore(st, fs, f, code);
    ResponseLengthMeans(fs, trailer, code, MethConnect in st.flags, st.contentLength);
    ConnectStays(st, fs, code);
    assert st.flags + ResponseRaised(fs, code) + {} == st.flags + ResponseRaised(fs, code);
  }

  lemma ConnectStays(st: State, fs: seq<Field>, code: int)
    ensures MethConnect in AfterResponse(st, fs, code).flags <==> MethConnect in st.flags
  {
    ResponseFlag(fs, code, MethConnect);
  }

  /**
    * Looking at one field at a time accepts exactly the valid header blocks of a response or, with
    * whatever the stream has seen before, of a trailer; and the state left is that of the fields.
    */
  lemma {:induction false} ResponseFieldsExactly(st: State, fs: seq<Field>, trailer: bool)
    requires WfFields(fs) && (trailer || BlockStart(st))
    ensures var code := CodeIn(st, fs, trailer);
            ResponseRun(st, fs, trailer) ==
            if ValidResponse(fs, trailer, code, MethConnect in st.flags, st.contentLength)
            then Some(AfterResponse(st, fs, code)) else None
  {
    if fs == [] {
      assert st.flags + {} == st.flags;
    } else {
      var n := |fs| - 1;
      var gs, f, connect := fs[..n], fs[n], MethConnect in st.flags;
      ResponseFieldsExactly(st, gs, trailer);
      assert fs == gs + [f] && WfField(f);
      ValidResponseMore(gs, f, trailer, CodeIn(st, fs, trailer), connect, st.contentLength);
      SameCode(st, gs, f, trailer, connect, st.contentLength);
      if ValidResponse(gs, trailer, CodeIn(st, gs, trailer), connect, st.contentLength) {
        if f.check.Fine? && f.token.Status? {
          StatusOneMore(st, gs, f, trailer);
        } else {
          RegularOneMore(st, gs, f, trailer);
        }
      }
    }
  }

  /** The status of a block is decided by its first field. */
  lemma SameCode(st: State, fs: seq<Field>, f: Field, trailer: bool, connect: bool, length: int)
    ensures ValidResponse(fs, trailer, CodeIn(st, fs, trailer), connect, length) <==>
            ValidResponse(fs, trailer, CodeIn(st, fs + [f], trailer), connect, length)
  {
    assert fs != [] ==> (fs + [f])[0] == fs[0];
  }

  lemma HasMore(fs: seq<Field>, f: Field, t: Token)
    ensures Has(fs + [f], t) <==> Has(fs, t) || (f.check.Fine? && f.token == t)
  {
    var all := fs + [f];
    assert all[|fs|] == f && forall i {:trigger fs[i]} :: 0 <= i < |fs| ==> all[i] == fs[i];
  }

  // -------------------------------------------------------------------------- the stream

  /** The fields of `nghttp2_stream` that the rules use. */
  class HttpStream {
    var flags: set<Flag>
    var contentLength: int
    var received: int
    var status: int
    ghost var data: int

    ghost function View(): State
      reads this
    {
      State(flags, contentLength, received, status)
    }

    /** `recv_content_length` is the number of octets of DATA. */
    ghost predicate Valid()
      reads this
    {
      received == data >= 0 && contentLength >= -1
    }

    constructor ()
      ensures Valid() && View() == FRESH && data == 0
    {
      flags, contentLength, received, status, data := {}, -1, 0, -1, 0;
    }

    /** `check_pseudo_header`. */
    method CheckPseudoHeader(value: seq<byte>, flag: Flag) returns (ok: bool)
      modifies this`flags
      ensures ok <==> flag !in old(flags) && !Blank(value)
      ensures flags == if ok then old(flags) + {flag} else old(flags)
    {
      if flag in flags {
        return false;
      }
      var blank := Lws(value);
      if blank {
        return false;
      }
      flags := flags + {flag};
      ok := true;
    }

    /** The tests of `nghttp2_http_on_header` that come first; true if the field is to be ignored. */
    method OnBadCharacters(f: Field) returns (ok: bool)
      requires !f.check.Fine?
      modifies this`flags
      ensures ok <==> !f.pseudo && !(f.check.BadName? && f.check.upper)
      ensures ok ==> flags == old(flags) + {PseudoDisallowed}
    {
      if f.pseudo {
        return false;
      }
      if f.check.BadName? && f.check.upper {
        return false;
      }
      flags := flags + {PseudoDisallowed};
      ok := true;
    }

    /** `http_request_on_header`. */
    method OnRequestField(f: Field, c: Context) returns (ok: bool)
      requires Valid() && WfField(f)
      modifies this`flags, this`contentLength
      ensures ok <==> RequestStep(old(View()), f, c).Some?
      ensures ok ==> Valid() && View() == RequestStep(old(View()), f, c).value
    {
      if !f.check.Fine? {
        ok := OnBadCharacters(f);
        return;
      }
      if f.pseudo && (c.trailer || PseudoDisallowed in flags) {
        return false;
      }
      ok := true;
      match f.token {
        case Authority => ok := CheckPseudoHeader(f.value, HasAuthority);
        case Method => ok := OnMethod(f.value, c.pushed);
        case Path => ok := OnPath(f.value);
        case Scheme => ok := OnScheme(f.value);
        case Protocol =>
          if !c.protocol {
            return false;
          }
          ok := CheckPseudoHeader(f.value, HasProtocol);
        case Host => ok := CheckPseudoHeader(f.value, HasHost);
        case ContentLength =>
          if contentLength != -1 {
            return false;
          }
          var n := ParseUint(f.value);
          if n == -1 {
            return false;
          }
          contentLength := n;
        case Hop => return false;
        case Te => ok := Memieq(TRAILERS, f.value);
        case Status => return false;
        case Other => ok := !f.pseudo;
      }
      if ok && !f.pseudo {
        flags := flags + {PseudoDisallowed};
      }
    }

    method OnMethod(value: seq<byte>, pushed: bool) returns (ok: bool)
      modifies this`flags
      ensures ok <==> HasMethod !in old(flags) && !Blank(value) && !(pushed && value == CONNECT)
      ensures ok ==> flags == old(flags) + Raised(Field(Method, true, value, Fine))
    {
      ok := CheckPseudoHeader(value, HasMethod);
      if !ok {
        return;
      }
      Distinguishable();
      if value == HEAD {
        flags := flags + {MethHead};
      } else if value == CONNECT {
        if pushed {
          return false;
        }
        flags := flags + {MethConnect};
      } else if value == OPTIONS {
        flags := flags + {MethOptions};
      }
    }

    method OnPath(value: seq<byte>) returns (ok: bool)
      modifies this`flags
      ensures ok <==> HasPath !in old(flags) && !Blank(value)
      ensures ok ==> flags == old(flags) + Raised(Field(Path, true, value, Fine))
    {
      ok := CheckPseudoHeader(value, HasPath);
      if !ok {
        return;
      }
      if value[0] == SLASH {
        flags := flags + {PathRegular};
      } else if |value| == 1 && value[0] == 42 {
        assert value == ASTERISK;
        flags := flags + {PathAsterisk};
      }
    }

    method OnScheme(value: seq<byte>) returns (ok: bool)
      modifies this`flags
      ensures ok <==> HasScheme !in old(flags) && !Blank(value)
      ensures ok ==> flags == old(flags) + Raised(Field(Scheme, true, value, Fine))
    {
      ok := CheckPseudoHeader(value, HasScheme);
      if !ok {
        return;
      }
      var http := Memieq(HTTP, value);
      var https := Memieq(HTTPS, value);
      if http || https {
        flags := flags + {SchemeHttp};
      }
    }

    /** `http_response_on_header`. */
    method OnResponseField(f: Field, trailer: bool) returns (ok: bool)
      requires Valid() && WfField(f)
      modifies this`flags, this`contentLength, this`status
      ensures ok <==> ResponseStep(old(View()), f, trailer).Some?
      ensures ok ==> Valid() && View() == ResponseStep(old(View()), f, trailer).value
    {
      if !f.check.Fine? {
        ok := OnBadCharacters(f);
        return;
      }
      if f.pseudo && (trailer || PseudoDisallowed in flags) {
        return false;
      }
      ok := true;
      match f.token {
        case Status => ok := OnStatus(f.value);
        case ContentLength =>
          if status == 204 {
            if contentLength != -1 || f.value != ZERO {
              return false;
            }
            contentLength := 0;
            return true;
          }
          ok := OnResponseLength(f.value);
        case Hop => return false;
        case Te => ok := Memieq(TRAILERS, f.value);
        case Authority => return false;
        case Method => return false;
        case Path => return false;
        case Scheme => return false;
        case Protocol => return false;
        case Host =>
        case Other => ok := !f.pseudo;
      }
      if ok && !f.pseudo {
        flags := flags + {PseudoDisallowed};
      }
    }

    method OnStatus(value: seq<byte>) returns (ok: bool)
      modifies this`flags, this`status
      ensures var code := UintOf(value);
              ok <==> HasStatus !in old(flags) && !Blank(value) && |value| == 3 && code != -1 && code != 101
      ensures ok ==> flags == old(flags) + {HasStatus} && status == UintOf(value)
    {
      ok := CheckPseudoHeader(value, HasStatus);
      if !ok || |value| != 3 {
        return false;
      }
      status := ParseUint(value);
      ok := status != -1 && status != 101;
    }

    method OnResponseLength(value: seq<byte>) returns (ok: bool)
      modifies this`contentLength
      ensures ok <==> !(100 <= status < 200 || (200 <= status < 300 && MethConnect in flags)) &&
                      old(contentLength) == -1 && UintOf(value) != -1
      ensures ok ==> contentLength == UintOf(value)
    {
      if 100 <= status < 200 || (200 <= status < 300 && MethConnect in flags) {
        return false;
      }
      if contentLength != -1 {
        return false;
      }
      contentLength := ParseUint(value);
      ok := contentLength != -1;
    }

    /** `nghttp2_http_on_request_headers`; a promised request leaves only its method behind. */
    method OnRequestHeaders(push: bool) returns (ok: bool)
      requires Valid()
      modifies this`flags, this`contentLength
      ensures ok <==> RequestEnd(old(View()), push).Some?
      ensures ok ==> Valid() && View() == RequestEnd(old(View()), push).value
    {
      if HasProtocol !in flags && MethConnect in flags {
        if HasScheme in flags || HasPath in flags || HasAuthority !in flags {
          return false;
        }
        contentLength := -1;
      } else {
        if !(HasMethod in flags && HasPath in flags && HasScheme in flags) ||
           (HasAuthority !in flags && HasHost !in flags)
        {
          return false;
        }
        if HasProtocol in flags && (MethConnect !in flags || HasAuthority !in flags) {
          return false;
        }
        if !(SchemeHttp !in flags || PathRegular in flags || (MethOptions in flags && PathAsterisk in flags)) {
          return false;
        }
      }
      if push {
        flags := flags * METHODS;
        contentLength := -1;
      }
      ok := true;
    }

    /** The fields of a header block of a request, or of a trailer. */
    method OnRequestFields(fs: seq<Field>, c: Context) returns (ok: bool)
      requires Valid() && WfFields(fs)
      modifies this`flags, this`contentLength
      ensures ok <==> RequestRun(old(View()), fs, c).Some?
      ensures ok ==> Valid() && View() == RequestRun(old(View()), fs, c).value
    {
      ok := true;
      assert fs[..0] == [];
      for i := 0 to |fs|
        invariant Valid() && RequestRun(old(View()), fs[..i], c) == Some(View()) && ok
      {
        assert fs[..i + 1][..i] == fs[..i] && WfField(fs[i]);
        ok := OnRequestField(fs[i], c);
        if !ok {
          RequestRefused(old(View()), fs, i + 1, c);
          return;
        }
      }
      assert fs[..|fs|] == fs;
    }

    /** The fields of a header block of a response, or of a trailer. */
    method OnResponseFields(fs: seq<Field>, trailer: bool) returns (ok: bool)
      requires Valid() && WfFields(fs)
      modifies this`flags, this`contentLength, this`status
      ensures ok <==> ResponseRun(old(View()), fs, trailer).Some?
      ensures ok ==> Valid() && View() == ResponseRun(old(View()), fs, trailer).value
    {
      ok := true;
      assert fs[..0] == [];
      for i := 0 to |fs|
        invariant Valid() && ResponseRun(old(View()), fs[..i], trailer) == Some(View()) && ok
      {
        assert fs[..i + 1][..i] == fs[..i] && WfField(fs[i]);
        ok := OnResponseField(fs[i], trailer);
        if !ok {
          ResponseRefused(old(View()), fs, i + 1, trailer);
          return;
        }
      }
      assert fs[..|fs|] == fs;
    }

    /**
      * A whole request, field by field and then at the end of the block: accepted exactly if the fields
      * are valid and meet the rules, and then the declared length is that of the fields.  A promised
      * request leaves its method alone, for the response.
      */
    method ReceiveRequest(fs: seq<Field>, c: Context) returns (ok: bool)
      requires Valid() && View() == FRESH && WfFields(fs)
      modifies this`flags, this`contentLength
      ensures ok <==> ValidFields(fs, c) && RequestRules(fs)
      ensures ok && !c.pushed ==> Valid() && View() == State(AllRaised(fs), Declared(fs), 0, -1)
      ensures ok && c.pushed ==> Valid() && View() == State(AllRaised(fs) * METHODS, -1, 0, -1)
    {
      RequestFieldsExactly(FRESH, fs, c);
      RequestEndExactly(fs);
      ok := OnRequestFields(fs, c);
      if ok {
        ok := OnRequestHeaders(c.pushed);
      }
    }

    /**
      * DATA frames up to END_STREAM: none is refused, and the end is accepted, exactly if they carry
      * what the declared length leaves to come.
      */
    method ReceiveBody(frames: seq<nat>) returns (ok: bool)
      requires Valid()
      modifies this`received, this`data
      ensures ok <==> ExpectFinal !in flags && (contentLength == -1 || old(data) + Total(frames) == contentLength)
      ensures ok ==> Valid() && data == old(data) + Total(frames)
    {
      for i := 0 to |frames|
        invariant Valid() && data == old(data) + Total(frames[..i])
      {
        ok := OnDataChunk(frames[i]);
        TotalMore(frames, i);
        if !ok {
          return;
        }
      }
      assert frames[..|frames|] == frames;
      ok := OnRemoteEndStream();
    }

    /** `nghttp2_http_on_response_headers`. */
    method OnResponseHeaders() returns (ok: bool)
      requires Valid()
      modifies this`flags, this`contentLength, this`status
      ensures ok <==> ResponseEnd(old(View())).Some?
      ensures ok ==> Valid() && View() == ResponseEnd(old(View())).value
    {
      if HasStatus !in flags {
        return false;
      }
      ok := true;
      if 100 <= status < 200 {
        flags := flags * METHODS + {ExpectFinal};
        contentLength := -1;
        status := -1;
        return;
      }
      flags := flags - {ExpectFinal};
      if MethHead in flags || status == 304 || status == 204 {
        contentLength := 0;
      } else if MethConnect in flags || MethUpgrade in flags {
        contentLength := -1;
      }
    }

    /**
      * A header block of a response, field by field and then at its end: accepted exactly if it is
      * valid and has a status.
      */
    method ReceiveResponse(fs: seq<Field>) returns (ok: bool)
      requires Valid() && BlockStart(View()) && WfFields(fs)
      modifies this`flags, this`contentLength, this`status
      ensures ok <==>
              CodeOf(fs) != -1 && ValidResponse(fs, false, CodeOf(fs), MethConnect in old(flags), old(contentLength))
      ensures ok ==> Valid() && ResponseEnd(AfterResponse(old(View()), fs, CodeOf(fs))) == Some(View())
      ensures ok && 100 <= CodeOf(fs) < 200 ==> BlockStart(View()) && contentLength == -1 && ExpectFinal in flags
      ensures ok && !(100 <= CodeOf(fs) < 200) ==> status == CodeOf(fs) && ExpectFinal !in flags
    {
      ResponseFieldsExactly(View(), fs, false);
      if ValidResponse(fs, false, CodeOf(fs), MethConnect in flags, contentLength) {
        StatusMeans(fs, MethConnect in flags, contentLength);
      }
      ok := OnResponseFields(fs, false);
      if ok {
        ok := OnResponseHeaders();
      }
    }

    /** `nghttp2_http_on_data_chunk`. */
    method OnDataChunk(n: nat) returns (ok: bool)
      requires Valid()
      modifies this`received, this`data
      ensures Valid() && data == old(data) + n
      ensures ok <==> ExpectFinal !in flags && (contentLength == -1 || data <= contentLength)
    {
      received := received + n;
      data := data + n;
      ok := !(ExpectFinal in flags || (contentLength != -1 && received > contentLength));
    }

    /** `nghttp2_http_on_remote_end_stream`: a declared length is the number of octets received. */
    method OnRemoteEndStream() returns (ok: bool)
      requires Valid()
      ensures ok <==> ExpectFinal !in flags && (contentLength == -1 || data == contentLength)
    {
      ok := !(ExpectFinal in flags || (contentLength != -1 && contentLength != received));
    }
  }

  /** The content length a request is held to; that of a plain CONNECT is dropped. */
  ghost function Declared(fs: seq<Field>): int {
    if HasValue(fs, Method, CONNECT) && !Has(fs, Protocol) then -1 else LengthOf(fs)
  }

  lemma RequestEndExactly(fs: seq<Field>)
    ensures var st := State(AllRaised(fs), LengthOf(fs), 0, -1);
            && (RequestEnd(st, false) == if RequestRules(fs) then Some(st.(contentLength := Declared(fs))) else None)
            && (RequestEnd(st, true) ==
                if RequestRules(fs) then Some(st.(flags := AllRaised(fs) * METHODS, contentLength := -1)) else None)
  {
    RequestCompleteExactly(fs);
    FlagMeans(fs, Protocol);
    ConnectMeans(fs);
  }

  lemma {:induction false} RequestRefused(st: State, fs: seq<Field>, n: nat, c: Context)
    requires n <= |fs| && RequestRun(st, fs[..n], c).None?
    ensures RequestRun(st, fs, c).None?
    decreases |fs|
  {
    if n == |fs| {
      assert fs[..n] == fs;
    } else {
      assert fs[..|fs| - 1][..n] == fs[..n];
      RequestRefused(st, fs[..|fs| - 1], n, c);
    }
  }

  lemma {:induction false} ResponseRefused(st: State, fs: seq<Field>, n: nat, trailer: bool)
    requires n <= |fs| && ResponseRun(st, fs[..n], trailer).None?
    ensures ResponseRun(st, fs, trailer).None?
    decreases |fs|
  {
    if n == |fs| {
      assert fs[..n] == fs;
    } else {
      assert fs[..|fs| - 1][..n] == fs[..n];
      ResponseRefused(st, fs[..|fs| - 1], n, trailer);
    }
  }

  /** The octets in DATA frames of these lengths. */
  function Total(frames: seq<nat>): nat {
    if frames == [] then 0 else Total(frames[..|frames| - 1]) + frames[|frames| - 1]
  }

  /** Beyond a part of the frames there are at least as many octets. */
  lemma {:induction false} TotalMore(frames: seq<nat>, i: nat)
    requires i < |frames|
    ensures Total(frames[..i + 1]) == Total(frames[..i]) + frames[i]
    ensures Total(frames[..i + 1]) <= Total(frames)
    decreases |frames| - i
  {
    assert frames[..i + 1][..i] == frames[..i];
    if i + 1 < |frames| {
      TotalMore(frames, i + 1);
    } else {
      assert frames[..i + 1] == frames;
    }
  }

  /** No request field announces another header block. */
  lemma NeverInformational(fs: seq<Field>)
    ensures ExpectFinal !in AllRaised(fs)
  {
    RaisedSomewhere(fs, ExpectFinal);
  }
}
