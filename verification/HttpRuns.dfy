/**
  * What a peer sends on one stream, from its first header block to END_STREAM, as the session of
  * lib/nghttp2_session.c hands it to the rules of lib/nghttp2_http.c: header blocks, informational
  * ones among them, DATA frames, and a trailer.
  */
module HttpRuns {
  import opened HttpMessaging

  /** A header block or a DATA frame; `end` if it carries END_STREAM. */
  datatype Event = Block(fs: seq<Field>, end: bool) | Data(n: nat, end: bool)

  /** A server receives requests, a client responses. */
  datatype Side = Server(protocol: bool) | Client

  /** A stream, and whether a header block has been received on it. */
  datatype Receiver = Receiver(st: State, begun: bool)

  // ---------------------------------------------------------------------- what the code does

  function ContextOf(side: Side, trailer: bool): Context
    requires side.Server?
  {
    Context(trailer, side.protocol, false)
  }

  /** A header block: a request, a response, or a trailer, which must end the stream. */
  ghost function BlockStep(side: Side, r: Receiver, fs: seq<Field>, end: bool): Option<State> {
    if side.Server? then
      if r.begun then if end then RequestRun(r.st, fs, ContextOf(side, true)) else None
      else
        match RequestRun(r.st, fs, ContextOf(side, false))
        case None => None
        case Some(st) => RequestEnd(st, false)
    else if r.begun && ExpectFinal !in r.st.flags then if end then ResponseRun(r.st, fs, true) else None
    else
      match ResponseRun(r.st, fs, false)
      case None => None
      case Some(st) => ResponseEnd(st)
  }

  function DataStep(st: State, n: nat): Option<State> {
    if ExpectFinal in st.flags || (st.contentLength != -1 && st.received + n > st.contentLength) then None
    else Some(st.(received := st.received + n))
  }

  predicate MayClose(st: State) {
    ExpectFinal !in st.flags && (st.contentLength == -1 || st.received == st.contentLength)
  }

  ghost function Step(side: Side, r: Receiver, ev: Event): Option<Receiver> {
    var next :=
      match ev
      case Block(fs, end) => BlockStep(side, r, fs, end)
      case Data(n, _) => if r.begun then DataStep(r.st, n) else None;
    if next.None? || (ev.end && !MayClose(next.value)) then None else Some(Receiver(next.value, true))
  }

  ghost function Run(side: Side, r: Receiver, events: seq<Event>): Option<Receiver>
    decreases |events|
  {
    if events == [] then Some(r)
    else
      match Step(side, r, events[0])
      case None => None
      case Some(r') => Run(side, r', events[1..])
  }

  // ------------------------------------------------------------------------ what is promised

  /** END_STREAM comes once, at the end. */
  ghost predicate Complete(events: seq<Event>) {
    events != [] && forall i {:trigger events[i]} :: 0 <= i < |events| ==> (events[i].end <==> i == |events| - 1)
  }

  ghost predicate WfEvents(events: seq<Event>) {
    forall i {:trigger events[i]} :: 0 <= i < |events| && events[i].Block? ==> WfFields(events[i].fs)
  }

  /** The octets in the DATA frames. */
  function Octets(events: seq<Event>): nat
    decreases |events|
  {
    if events == [] then 0 else (if events[0].Data? then events[0].n else 0) + Octets(events[1..])
  }

  /** A trailer the stream may have: no pseudo-field, and nothing again that must not be. */
  ghost predicate ValidTrailer(side: Side, st: State, fs: seq<Field>) {
    if side.Server? then ValidFields(fs, ContextOf(side, true)) && AllNew(st, fs)
    else ValidResponse(fs, true, st.status, MethConnect in st.flags, st.contentLength)
  }

  /** The content length in force when a trailer has been received. */
  ghost function LengthAfter(side: Side, st: State, fs: seq<Field>): int {
    if side.Server? then AfterFields(st, fs).contentLength else ResponseLength(fs, st.status, st.contentLength)
  }

  /** The content length in force at the end of `events`. */
  ghost function LengthInForce(side: Side, st: State, events: seq<Event>): int {
    if events != [] && events[|events| - 1].Block? then LengthAfter(side, st, events[|events| - 1].fs)
    else st.contentLength
  }

  /** What may follow the header block of a message: DATA frames, a trailer at most, and the length in force. */
  ghost predicate ValidRest(side: Side, st: State, events: seq<Event>) {
    && (forall i {:trigger events[i]} :: 0 <= i < |events| && events[i].Block? ==>
          i == |events| - 1 && ValidTrailer(side, st, events[i].fs))
    && var length := LengthInForce(side, st, events); length == -1 || st.received + Octets(events) == length
  }

  /** What a stream knows after the header block of a request. */
  ghost function Requested(fs: seq<Field>): State {
    State(AllRaised(fs), Declared(fs), 0, -1)
  }

  /** A whole request: a valid block that meets the rules, and what may follow it. */
  ghost predicate ValidRequest(protocol: bool, events: seq<Event>)
    requires events != []
  {
    && events[0].Block? && ValidFields(events[0].fs, Context(false, protocol, false)) && RequestRules(events[0].fs)
    && ValidRest(Server(protocol), Requested(events[0].fs), events[1..])
  }

  /** What a stream with the request method in `flags` knows after the final header block of a response. */
  ghost function Answered(flags: set<Flag>, fs: seq<Field>): State {
    var code := CodeOf(fs);
    var length :=
      if MethHead in flags || code == 204 || code == 304 then 0
      else if MethConnect in flags || MethUpgrade in flags then -1
      else ResponseLength(fs, code, -1);
    State(flags + ResponseRaised(fs, code), length, 0, code)
  }

  /** A whole response: informational blocks, a final one, and what may follow it. */
  ghost predicate ValidAnswer(flags: set<Flag>, events: seq<Event>)
    decreases |events|
  {
    && events != [] && events[0].Block?
    && var fs := events[0].fs;
    && ValidResponse(fs, false, CodeOf(fs), MethConnect in flags, -1) && CodeOf(fs) != -1
    && if 100 <= CodeOf(fs) < 200 then ValidAnswer(flags, events[1..])
       else ValidRest(Client, Answered(flags, fs), events[1..])
  }

  // -------------------------------------------------------------------------- trailers

  lemma TrailerExactly(side: Side, st: State, fs: seq<Field>)
    requires WfFields(fs) && ExpectFinal !in st.flags
    ensures var r := BlockStep(side, Receiver(st, true), fs, true);
            && (r.Some? <==> ValidTrailer(side, st, fs))
            && (r.Some? ==> r.value.contentLength == LengthAfter(side, st, fs) && r.value.received == st.received &&
                            ExpectFinal !in r.value.flags)
  {
    if side.Server? {
      RequestFieldsExactly(st, fs, ContextOf(side, true));
      NeverInformational(fs);
    } else {
      ResponseFieldsExactly(st, fs, true);
      RaisedOnly(fs, st.status);
    }
  }

  /** A length that is declared is not declared again. */
  lemma LengthKept(side: Side, st: State, fs: seq<Field>)
    requires st.contentLength != -1 && ValidTrailer(side, st, fs)
    ensures LengthAfter(side, st, fs) == st.contentLength
  {
    if side.Server? {
      LengthMeans(fs, ContextOf(side, true));
    } else {
      NoLength(fs, st.status, st.contentLength);
    }
  }

  lemma {:induction false} NoLength(fs: seq<Field>, code: int, length: int)
    requires forall i {:trigger fs[i]} :: 0 <= i < |fs| ==> !IsLength(fs[i])
    ensures ResponseLength(fs, code, length) == length
  {
    if fs != [] {
      NoLength(fs[..|fs| - 1], code, length);
    }
  }

  // ------------------------------------------------------------------- after the header block

  lemma RestOfData(events: seq<Event>)
    requires Complete(events) && |events| > 1
    ensures Complete(events[1..]) && !events[0].end && Octets(events) == Octets([events[0]]) + Octets(events[1..])
  {
    var rest := events[1..];
    assert [events[0]][1..] == [];
    assert forall i {:trigger rest[i]} :: 0 <= i < |rest| ==> rest[i] == events[i + 1];
  }

  /** DATA that fits leaves the same conditions for what follows. */
  lemma RestAfterData(side: Side, st: State, events: seq<Event>)
    requires Complete(events) && |events| > 1 && events[0].Data?
    ensures ValidRest(side, st, events) <==> ValidRest(side, st.(received := st.received + events[0].n), events[1..])
  {
    var rest, st' := events[1..], st.(received := st.received + events[0].n);
    RestOfData(events);
    assert [events[0]][1..] == [] && Octets([events[0]]) == events[0].n;
    assert forall i {:trigger rest[i]} :: 0 <= i < |rest| ==> rest[i] == events[i + 1];
    assert rest[|rest| - 1] == events[|events| - 1];
    SameTrailers(side, st, st', events);
    if ValidRest(side, st', rest) {
      forall i {:trigger events[i]} | 0 <= i < |events| && events[i].Block?
        ensures i == |events| - 1 && ValidTrailer(side, st, events[i].fs)
      {
        assert rest[i - 1] == events[i];
      }
    }
  }

  lemma SameTrailers(side: Side, st: State, st': State, events: seq<Event>)
    requires st' == st.(received := st'.received)
    ensures forall i {:trigger events[i]} :: 0 <= i < |events| && events[i].Block? ==>
              && (ValidTrailer(side, st', events[i].fs) <==> ValidTrailer(side, st, events[i].fs))
              && LengthAfter(side, st', events[i].fs) == LengthAfter(side, st, events[i].fs)
  {
    forall i {:trigger events[i]} | 0 <= i < |events| && events[i].Block?
      ensures ValidTrailer(side, st', events[i].fs) <==> ValidTrailer(side, st, events[i].fs)
      ensures LengthAfter(side, st', events[i].fs) == LengthAfter(side, st, events[i].fs)
    {
      assert forall t :: Seen(st', t) == Seen(st, t);
    }
  }

  /** DATA beyond the declared length leaves nothing valid to follow. */
  lemma TooMuchData(side: Side, st: State, events: seq<Event>)
    requires Complete(events) && events[0].Data? && st.contentLength != -1
    requires st.received + events[0].n > st.contentLength
    ensures !ValidRest(side, st, events)
  {
    var last := events[|events| - 1];
    if last.Block? && ValidTrailer(side, st, last.fs) {
      LengthKept(side, st, last.fs);
    }
    assert Octets(events) >= events[0].n;
  }

  /** One event that ends the stream. */
  lemma LastExactly(side: Side, st: State, ev: Event)
    requires ev.end && (ev.Block? ==> WfFields(ev.fs)) && ExpectFinal !in st.flags
    ensures var r := Step(side, Receiver(st, true), ev);
            && (r.Some? <==> ValidRest(side, st, [ev]))
            && (r.Some? ==> r.value.st.contentLength == LengthInForce(side, st, [ev]) &&
                            r.value.st.received == st.received + Octets([ev]))
  {
    var only := [ev];
    assert only[1..] == [] && only[0] == ev && Octets(only) == Octets([]) + if ev.Data? then ev.n else 0;
    match ev {
      case Block(fs, _) =>
        TrailerExactly(side, st, fs);
        assert ValidRest(side, st, only) ==> ValidTrailer(side, st, only[0].fs);
      case Data(n, _) =>
    }
  }

  lemma {:induction false} RestExactly(side: Side, st: State, events: seq<Event>)
    requires Complete(events) && WfEvents(events) && ExpectFinal !in st.flags
    ensures var r := Run(side, Receiver(st, true), events);
            && (r.Some? <==> ValidRest(side, st, events))
            && (r.Some? ==> r.value.st.contentLength == LengthInForce(side, st, events) &&
                            r.value.st.received == st.received + Octets(events))
    decreases |events|
  {
    assert WfEvents(events[1..]) by {
      assert forall i {:trigger events[1..][i]} :: 0 <= i < |events| - 1 ==> events[1..][i] == events[i + 1];
    }
    if |events| == 1 {
      assert events == [events[0]];
      LastExactly(side, st, events[0]);
      assert events[1..] == [];
    } else {
      RestOfData(events);
      match events[0] {
        case Block(_, _) =>
        case Data(n, _) =>
          assert [events[0]][1..] == [];
          if st.contentLength != -1 && st.received + n > st.contentLength {
            TooMuchData(side, st, events);
          } else {
            RestAfterData(side, st, events);
            RestExactly(side, st.(received := st.received + n), events[1..]);
            SameTrailers(side, st, st.(received := st.received + n), events);
            assert events[1..][|events| - 2] == events[|events| - 1];
          }
      }
    }
  }

  // ------------------------------------------------------------------------- whole messages

  lemma WfRest(events: seq<Event>)
    requires WfEvents(events) && events != []
    ensures WfEvents(events[1..])
  {
    assert forall i {:trigger events[1..][i]} :: 0 <= i < |events| - 1 ==> events[1..][i] == events[i + 1];
  }

  /** What follows the header block, be it nothing at all. */
  lemma AfterBlock(side: Side, st: State, events: seq<Event>)
    requires Complete(events) && WfEvents(events) && events[0].Block? && ExpectFinal !in st.flags && st.received == 0
    ensures ValidRest(side, st, events[1..]) <==>
            (events[0].end ==> MayClose(st)) && Run(side, Receiver(st, true), events[1..]).Some?
    ensures var r := Run(side, Receiver(st, true), events[1..]);
            ValidRest(side, st, events[1..]) ==>
              && r.value.st.received == Octets(events)
              && (r.value.st.contentLength == -1 || r.value.st.contentLength == Octets(events))
  {
    WfRest(events);
    if |events| > 1 {
      RestOfData(events);
      RestExactly(side, st, events[1..]);
    }
  }

  /**
    * Every run of a server, from a fresh stream to END_STREAM, is accepted exactly if it is a whole
    * request; and then the octets of DATA are what the content length in force says.
    */
  lemma RequestsExactly(protocol: bool, events: seq<Event>)
    requires Complete(events) && WfEvents(events)
    ensures var r := Run(Server(protocol), Receiver(FRESH, false), events);
            && (r.Some? <==> ValidRequest(protocol, events))
            && (r.Some? ==> r.value.st.received == Octets(events) &&
                            (r.value.st.contentLength == -1 || r.value.st.contentLength == Octets(events)))
  {
    if events[0].Block? {
      var fs := events[0].fs;
      RequestFieldsExactly(FRESH, fs, Context(false, protocol, false));
      RequestEndExactly(fs);
      FreshIsNew(fs);
      NeverInformational(fs);
      AfterBlock(Server(protocol), Requested(fs), events);
    }
  }

  lemma FreshIsNew(fs: seq<Field>)
    ensures AllNew(FRESH, fs) && AfterFields(FRESH, fs) == State(AllRaised(fs), LengthOf(fs), 0, -1)
  {
    assert {} + AllRaised(fs) == AllRaised(fs);
  }

  /** A stream on which the header block of a response is due, `informed` if there have been informational ones. */
  function Awaiting(flags: set<Flag>, informed: bool): State {
    State(if informed then flags + {ExpectFinal} else flags, -1, 0, -1)
  }

  /** One header block of a response: refused, informational, or final. */
  lemma AnswerBlock(flags: set<Flag>, informed: bool, fs: seq<Field>, end: bool)
    requires WfFields(fs) && flags <= METHODS
    ensures BlockStep(Client, Receiver(Awaiting(flags, informed), informed), fs, end) ==
            if !(ValidResponse(fs, false, CodeOf(fs), MethConnect in flags, -1) && CodeOf(fs) != -1) then None
            else if 100 <= CodeOf(fs) < 200 then Some(Awaiting(flags, true))
            else Some(Answered(flags, fs))
    ensures ExpectFinal !in Answered(flags, fs).flags
  {
    var st, code := Awaiting(flags, informed), CodeOf(fs);
    ResponseFieldsExactly(st, fs, false);
    RaisedOnly(fs, code);
    if ValidResponse(fs, false, code, MethConnect in flags, -1) {
      StatusMeans(fs, MethConnect in flags, -1);
      OnlyMethods(flags, informed, ResponseRaised(fs, code));
    }
  }

  lemma {:induction false} RaisedOnly(fs: seq<Field>, code: int)
    ensures ResponseRaised(fs, code) <= {HasStatus, PseudoDisallowed}
  {
    if fs != [] {
      RaisedOnly(fs[..|fs| - 1], code);
    }
  }

  lemma OnlyMethods(flags: set<Flag>, informed: bool, raised: set<Flag>)
    requires flags <= METHODS && raised <= {HasStatus, PseudoDisallowed}
    ensures var all := Awaiting(flags, informed).flags + raised;
            all * METHODS + {ExpectFinal} == flags + {ExpectFinal} && all - {ExpectFinal} == flags + raised
  {
  }

  /**
    * Every run of a client, from the request it made to END_STREAM, is accepted exactly if it is a
    * whole response; and then the octets of DATA are what the content length in force says.
    */
  lemma {:induction false} AnswersExactly(flags: set<Flag>, informed: bool, events: seq<Event>)
    requires Complete(events) && WfEvents(events) && flags <= METHODS
    ensures var r := Run(Client, Receiver(Awaiting(flags, informed), informed), events);
            && (r.Some? <==> ValidAnswer(flags, events))
            && (r.Some? ==> r.value.st.received == Octets(events) &&
                            (r.value.st.contentLength == -1 || r.value.st.contentLength == Octets(events)))
    decreases |events|
  {
    if events[0].Block? {
      var fs := events[0].fs;
      AnswerBlock(flags, informed, fs, events[0].end);
      if 100 <= CodeOf(fs) < 200 {
        if |events| > 1 {
          RestOfData(events);
          WfRest(events);
          AnswersExactly(flags, true, events[1..]);
        }
      } else {
        AfterBlock(Client, Answered(flags, fs), events);
      }
    }
  }

  // ---------------------------------------------------------------------------- consequences

  /** Pseudo-fields before all others, and none twice. */
  ghost predicate InOrder(fs: seq<Field>) {
    forall i, j {:trigger fs[i], fs[j]} :: 0 <= i < j < |fs| && fs[j].pseudo ==>
      fs[i].pseudo && fs[i].token != fs[j].token
  }

  ghost predicate Ready(side: Side, r: Receiver) {
    if side.Server? then r.begun || r.st == FRESH
    else (r.begun && ExpectFinal !in r.st.flags) || BlockStart(r.st)
  }

  lemma BlockInOrder(side: Side, r: Receiver, fs: seq<Field>, end: bool)
    requires Ready(side, r) && WfFields(fs) && BlockStep(side, r, fs, end).Some?
    ensures InOrder(fs) && Ready(side, Receiver(BlockStep(side, r, fs, end).value, true))
  {
    if side.Server? {
      RequestFieldsExactly(r.st, fs, ContextOf(side, r.begun));
    } else {
      var trailer := r.begun && ExpectFinal !in r.st.flags;
      ResponseFieldsExactly(r.st, fs, trailer);
      RaisedOnly(fs, CodeIn(r.st, fs, trailer));
    }
  }

  /** In every run, to END_STREAM or not, each header block accepted has its pseudo-fields first and none twice. */
  lemma {:induction false} AlwaysInOrder(side: Side, r: Receiver, events: seq<Event>)
    requires Ready(side, r) && WfEvents(events) && Run(side, r, events).Some?
    ensures forall i {:trigger events[i]} :: 0 <= i < |events| && events[i].Block? ==> InOrder(events[i].fs)
    decreases |events|
  {
    if events != [] {
      WfRest(events);
      var r' := Step(side, r, events[0]).value;
      if events[0].Block? {
        BlockInOrder(side, r, events[0].fs, events[0].end);
      }
      AlwaysInOrder(side, r', events[1..]);
      forall i {:trigger events[i]} | 0 <= i < |events| && events[i].Block?
        ensures InOrder(events[i].fs)
      {
        assert i > 0 ==> events[1..][i - 1] == events[i];
      }
    }
  }

  /** The status of the final header block. */
  ghost function FinalCode(events: seq<Event>): int
    decreases |events|
  {
    if events == [] || !events[0].Block? then -1
    else if 100 <= CodeOf(events[0].fs) < 200 then FinalCode(events[1..])
    else CodeOf(events[0].fs)
  }

  /** A response to HEAD and one with status 204 or 304 come without content, whatever length they declare. */
  lemma {:induction false} NoContent(flags: set<Flag>, events: seq<Event>)
    requires ValidAnswer(flags, events) && (MethHead in flags || FinalCode(events) == 204 || FinalCode(events) == 304)
    ensures Octets(events) == 0
    decreases |events|
  {
    var fs, rest := events[0].fs, events[1..];
    if 100 <= CodeOf(fs) < 200 {
      NoContent(flags, rest);
    } else {
      var st := Answered(flags, fs);
      if rest != [] && rest[|rest| - 1].Block? {
        LengthKept(Client, st, rest[|rest| - 1].fs);
      }
    }
  }

  // ------------------------------------------------------------------------ the stream object

  /** One header block or DATA frame, as `session_after_header_block_received` and the DATA states do. */
  method Receive(s: HttpStream, side: Side, begun: bool, ev: Event) returns (ok: bool)
    requires s.Valid() && (ev.Block? ==> WfFields(ev.fs))
    modifies s
    ensures var r := Step(side, Receiver(old(s.View()), begun), ev);
            (ok <==> r.Some?) && (ok ==> s.Valid() && s.View() == r.value.st)
  {
    match ev {
      case Block(fs, end) =>
        ok := ReceiveBlock(s, side, begun, fs, end);
      case Data(n, _) =>
        if !begun {
          return false;
        }
        ok := s.OnDataChunk(n);
    }
    if ok && ev.end {
      ok := s.OnRemoteEndStream();
    }
  }

  method ReceiveBlock(s: HttpStream, side: Side, begun: bool, fs: seq<Field>, end: bool) returns (ok: bool)
    requires s.Valid() && WfFields(fs)
    modifies s`flags, s`contentLength, s`status
    ensures var r := BlockStep(side, Receiver(old(s.View()), begun), fs, end);
            (ok <==> r.Some?) && (ok ==> s.Valid() && s.View() == r.value)
  {
    var trailer := begun && (side.Server? || ExpectFinal !in s.flags);
    if side.Server? {
      ok := s.OnRequestFields(fs, ContextOf(side, trailer));
    } else {
      ok := s.OnResponseFields(fs, trailer);
    }
    if !ok {
      return;
    }
    if trailer {
      ok := end;
    } else if side.Server? {
      ok := s.OnRequestHeaders(false);
    } else {
      ok := s.OnResponseHeaders();
    }
  }

  /** All that arrives on a stream up to END_STREAM. */
  method ReceiveAll(s: HttpStream, side: Side, events: seq<Event>) returns (ok: bool)
    requires s.Valid() && WfEvents(events) && Complete(events)
    requires if side.Server? then s.View() == FRESH else s.View() == Awaiting(s.flags, false) && s.flags <= METHODS
    modifies s
    ensures ok <==> if side.Server? then ValidRequest(side.protocol, events) else ValidAnswer(old(s.flags), events)
    ensures ok ==> s.Valid() && s.data == Octets(events) && (s.contentLength == -1 || s.contentLength == Octets(events))
  {
    match side {
      case Server(protocol) => RequestsExactly(protocol, events);
      case Client => AnswersExactly(s.flags, false, events);
    }
    ok := true;
    assert events[0..] == events;
    for i := 0 to |events|
      invariant s.Valid() && ok
      invariant Run(side, Receiver(old(s.View()), false), events) == Run(side, Receiver(s.View(), i > 0), events[i..])
    {
      assert events[i..][1..] == events[i + 1..];
      ok := Receive(s, side, i > 0, events[i]);
      if !ok {
        return;
      }
    }
  }
}
