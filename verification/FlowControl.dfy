/**
  * Receive windows: `nghttp2_adjust_local_window_size` and `nghttp2_increase_local_window_size` of
  * lib/nghttp2_helper.c, driven by lib/nghttp2_submit.c and by the receiving side of
  * lib/nghttp2_session.c.  The three numbers kept for a window are a ledger of the credit the peer
  * has left (RFC 7540 section 6.9).
  */
module FlowControl {

  type int32 = x: int | -0x8000_0000 <= x < 0x8000_0000

  const INT32_MIN: int32 := -0x8000_0000
  const INT32_MAX: int32 := 0x7fff_ffff
  const MAX_WINDOW_SIZE: int32 := 0x7fff_ffff
  const MAX_FRAME: int32 := 0xff_ffff

  /** `local_window_size`, `recv_window_size` and `recv_reduction`. */
  datatype Window = Window(local: int32, recv: int32, reduction: int32)

  /** Failed, or the window after and the WINDOW_UPDATE to send, if any. */
  datatype Change = Refused | Changed(w: Window, increment: int32)

  /**
    * Windows in use: nothing negative but `recv`, which a reduction can make so, and no more received
    * than the window allows.
    */
  predicate Sound(w: Window) {
    0 <= w.local && 0 <= w.reduction && 0 <= w.recv + w.reduction && w.recv <= w.local
  }

  /** What the peer may still send. */
  function Credit(w: Window): int {
    w.local - w.recv
  }

  function Min(a: int, b: int): int {
    if a < b then a else b
  }

  function Max(a: int, b: int): int {
    if a > b then a else b
  }

  // ---------------------------------------------------------------------- the ledger

  /** Growing the window by `d`, of which an earlier reduction pays as much as it can. */
  function Grown(w: Window, d: int): Change
    requires Sound(w) && 0 <= d
  {
    var paid := Min(w.reduction, d);
    if w.local > MAX_WINDOW_SIZE - d then Refused
    else Changed(Window(w.local + d, w.recv + paid, w.reduction - paid), d - paid)
  }

  /** Shrinking the window by `d` without telling the peer. */
  function Shrunk(w: Window, d: int): Change
    requires Sound(w) && 0 <= d
  {
    if w.local < d || w.recv - d < INT32_MIN || w.reduction + d > INT32_MAX then Refused
    else Changed(Window(w.local - d, w.recv - d, w.reduction + d), 0)
  }

  /** `delta` more for the peer: first the octets it has used up are given back. */
  function Adjusted(w: Window, delta: int32): Change
    requires Sound(w)
  {
    if delta <= 0 then Shrunk(w, -(delta as int))
    else
      var used := Max(0, w.recv);
      if used >= delta then Changed(w.(recv := w.recv - delta), delta)
      else
        match Grown(w.(recv := w.recv - used), delta - used)
        case Refused => Refused
        case Changed(w', increment) => Changed(w', increment + used)
  }

  /**
    * The conservation law: the peer's credit grows by exactly what it is told, and the window stays
    * sound.
    */
  lemma Conserved(w: Window, delta: int32)
    requires Sound(w)
    ensures var c := Adjusted(w, delta);
            c.Changed? ==> Sound(c.w) && 0 <= c.increment && Credit(c.w) == Credit(w) + c.increment
    ensures var c := Grown(w, Max(0, delta));
            c.Changed? ==> Sound(c.w) && 0 <= c.increment && Credit(c.w) == Credit(w) + c.increment
  {
  }

  /** What a change by `delta` comes to, `local` growing by what the octets used up do not cover. */
  ghost predicate Honoured(w: Window, delta: int, w': Window, increment: int) {
    if delta > 0 then
      && w'.local == w.local + Max(0, delta - Max(0, w.recv))
      && w.reduction - w'.reduction == Min(w.reduction, w'.local - w.local)
      && increment + (w.reduction - w'.reduction) == delta
    else
      w'.local == w.local + delta && w'.reduction == w.reduction - delta && increment == 0
  }

  /**
    * What was asked for is what happens: of an increase nothing is lost between the WINDOW_UPDATE and
    * the earlier reductions it makes good; a decrease is kept in full for later.  It fails exactly if
    * a number would leave its range.
    */
  lemma AdjustedExactly(w: Window, delta: int32)
    requires Sound(w)
    ensures var c := Adjusted(w, delta);
            && (c.Changed? ==> Honoured(w, delta, c.w, c.increment))
            && (delta > 0 ==> (c.Refused? <==> w.local + Max(0, delta - Max(0, w.recv)) > MAX_WINDOW_SIZE))
            && (delta <= 0 ==>
                  (c.Refused? <==>
                   w.local + delta < 0 || w.recv + delta < INT32_MIN || w.reduction - delta > INT32_MAX))
  {
  }

  /** The same for growing the window itself, whatever has been used up. */
  lemma GrownExactly(w: Window, d: int)
    requires Sound(w) && 0 <= d
    ensures var c := Grown(w, d);
            && (c.Refused? <==> w.local + d > MAX_WINDOW_SIZE)
            && (c.Changed? ==> c.w.local == w.local + d && w.reduction - c.w.reduction == Min(w.reduction, d) &&
                               c.increment + (w.reduction - c.w.reduction) == d)
  {
  }

  /** A reduction is undone by growing back: everything is as before, and nothing is sent. */
  lemma ShrinkAndRestore(w: Window, size: int32)
    requires Sound(w) && 0 <= size < w.local && Shrunk(w, w.local - size).Changed?
    ensures Grown(Shrunk(w, w.local - size).w, w.local - size) == Changed(w, 0)
  {
  }

  /** The receiving side of a DATA frame with `n` octets. */
  function Accepted(w: Window, n: int32): Change
    requires Sound(w) && 0 <= n
  {
    if n > Credit(w) then Refused else Changed(w.(recv := w.recv + n), 0)
  }

  /**
    * A reduction goes unnoticed: the peer can send as much as before, and undoing the reduction after
    * the data leaves the window as if there had been none.
    */
  lemma ReductionUnseen(w: Window, size: int32, n: int32)
    requires Sound(w) && 0 <= size < w.local && 0 <= n && Shrunk(w, w.local - size).Changed?
    ensures var s := Shrunk(w, w.local - size).w;
            && Accepted(s, n).Refused? == Accepted(w, n).Refused?
            && (Accepted(w, n).Changed? ==>
                  Sound(Accepted(s, n).w) &&
                  Grown(Accepted(s, n).w, w.local - size) == Changed(Accepted(w, n).w, 0))
  {
  }

  /** `nghttp2_should_send_window_update`. */
  predicate ShouldSendWindowUpdate(local: int32, recv: int32)
    requires 0 <= local
  {
    recv > 0 && recv >= local / 2
  }

  datatype Status = Ok | FlowControlError | InvalidArgument

  class FlowWindow {
    var local: int32
    var recv: int32
    var reduction: int32
    var consumed: int32
    ghost var granted: int
    ghost var received: int

    ghost function View(): Window
      reads this
    {
      Window(local, recv, reduction)
    }

    /** The credit the peer has left is what it was granted less what it has sent. */
    ghost predicate Valid()
      reads this
    {
      Sound(View()) && Credit(View()) == granted - received && 0 <= consumed
    }

    constructor (initial: int32)
      requires 0 <= initial
      ensures Valid() && View() == Window(initial, 0, 0) && granted == initial && received == 0
    {
      local, recv, reduction, consumed := initial, 0, 0, 0;
      granted, received := initial, 0;
    }

    /** `nghttp2_adjust_local_window_size`; `delta'` is what is left to be sent in a WINDOW_UPDATE. */
    method AdjustLocalWindowSize(delta: int32) returns (ok: bool, delta': int32)
      requires Sound(View())
      modifies this`local, this`recv, this`reduction
      ensures !ok ==> View() == old(View()) && Adjusted(old(View()), delta).Refused?
      ensures ok ==> Adjusted(old(View()), delta) == Changed(View(), delta')
      ensures ok ==> Honoured(old(View()), delta, View(), delta') && Credit(View()) == Credit(old(View())) + delta'
    {
      AdjustedExactly(View(), delta);
      Conserved(View(), delta);
      ok, delta' := true, delta;
      if delta > 0 {
        var newRecv: int32 := Max(0, recv) - delta;
        if newRecv >= 0 {
          recv := newRecv;
          return;
        }
        var d: int32 := -newRecv;
        if local > MAX_WINDOW_SIZE - d {
          return false, delta;
        }
        local := local + d;
        var paid: int32 := Min(reduction, d);
        reduction := reduction - paid;
        if recv < 0 {
          recv := recv + paid;
        } else {
          recv := paid;
        }
        delta' := delta - paid;
        return;
      }
      if local + delta < 0 || recv < INT32_MIN - delta || reduction > INT32_MAX + delta {
        return false, delta;
      }
      local := local + delta;
      recv := recv + delta;
      reduction := reduction - delta;
      delta' := 0;
    }

    /** `nghttp2_increase_local_window_size`. */
    method IncreaseLocalWindowSize(delta: int32) returns (ok: bool, delta': int32)
      requires Sound(View()) && 0 <= delta
      modifies this`local, this`recv, this`reduction
      ensures !ok ==> View() == old(View()) && Grown(old(View()), delta).Refused?
      ensures ok ==> Grown(old(View()), delta) == Changed(View(), delta')
    {
      ok, delta' := true, delta;
      if local > MAX_WINDOW_SIZE - delta {
        return false, delta;
      }
      local := local + delta;
      var paid: int32 := Min(reduction, delta);
      reduction := reduction - paid;
      recv := recv + paid;
      delta' := delta - paid;
    }

    /**
      * `nghttp2_submit_window_update`: the peer is granted `sent` octets, which is all its credit
      * changes by.
      */
    method SubmitWindowUpdate(increment: int32) returns (status: Status, sent: int32)
      requires Valid()
      modifies this
      ensures Valid() && received == old(received) && granted == old(granted) + sent && 0 <= sent
      ensures status.Ok? || (status.FlowControlError? && View() == old(View()) && sent == 0)
      ensures consumed == Max(0, old(consumed) - sent)
      ensures increment == 0 ==> status.Ok? && View() == old(View()) && sent == 0
      ensures increment != 0 ==> (status.Ok? <==> Adjusted(old(View()), increment).Changed?)
      ensures status.Ok? && increment != 0 ==> Adjusted(old(View()), increment) == Changed(View(), sent)
      ensures status.Ok? && increment > 0 ==> sent + (old(reduction) - reduction) == increment
      ensures status.Ok? && increment > 0 ==> local == old(local) + Max(0, increment - Max(0, old(recv)))
      ensures status.Ok? && increment < 0 ==> sent == 0 && local == old(local) + increment
    {
      if increment == 0 {
        return Ok, 0;
      }
      Conserved(View(), increment);
      var ok, left := AdjustLocalWindowSize(increment);
      if !ok {
        return FlowControlError, 0;
      }
      if left > 0 {
        consumed := Max(0, consumed - left);
      }
      granted := granted + left;
      return Ok, left;
    }

    /** `nghttp2_session_set_local_window_size`. */
    method SetLocalWindowSize(size: int32) returns (status: Status, sent: int32)
      requires Valid()
      modifies this`local, this`recv, this`reduction, this`granted
      ensures Valid() && granted == old(granted) + sent && 0 <= sent
      ensures status.InvalidArgument? <==> size < 0
      ensures status.Ok? ==> local == size
      ensures !status.Ok? ==> View() == old(View()) && sent == 0
      ensures status.Ok? && size <= old(local) ==> sent == 0
      ensures size > old(local) ==> status.Ok? && Grown(old(View()), size - old(local)) == Changed(View(), sent)
      ensures 0 <= size <= old(local) ==>
                (status.Ok? <==> Shrunk(old(View()), old(local) - size).Changed?) &&
                (status.Ok? ==> Shrunk(old(View()), old(local) - size) == Changed(View(), 0))
    {
      if size < 0 {
        return InvalidArgument, 0;
      }
      var increment: int32 := size - local;
      if increment == 0 {
        return Ok, 0;
      }
      Conserved(View(), increment);
      var ok, left;
      if increment < 0 {
        ok, left := AdjustLocalWindowSize(increment);
        return if ok then Ok else FlowControlError, 0;
      }
      ok, left := IncreaseLocalWindowSize(increment);
      if !ok {
        return FlowControlError, 0;
      }
      granted := granted + left;
      return Ok, left;
    }

    /**
      * `session_update_recv_stream_window_size` for `n` octets of data: an error exactly when the peer
      * sends more than its credit; otherwise a WINDOW_UPDATE may give it back what it has used.
      */
    method ReceiveData(n: int32, mayUpdate: bool) returns (ok: bool, sent: int32)
      requires Valid() && 0 <= n <= MAX_FRAME
      modifies this`recv, this`granted, this`received
      ensures ok <==> n <= old(granted) - old(received)
      ensures !ok ==> View() == old(View()) && granted == old(granted) && received == old(received)
      ensures ok ==> Valid() && received == old(received) + n && granted == old(granted) + sent && 0 <= sent
      ensures ok ==> sent == if mayUpdate && ShouldSendWindowUpdate(local, old(recv) + n) then old(recv) + n else 0
      ensures ok && mayUpdate ==> sent > 0 || recv <= 0 || 2 * recv < local
      ensures ok && sent > 0 ==> mayUpdate && recv == 0 && 2 * sent + 1 >= local
      ensures ok && mayUpdate && local > 0 ==> Credit(View()) > 0
    {
      if recv > local - n || recv > MAX_WINDOW_SIZE - n {
        return false, 0;
      }
      recv := recv + n;
      received := received + n;
      ok, sent := true, 0;
      if mayUpdate && ShouldSendWindowUpdate(local, recv) {
        sent := recv;
        recv := 0;
        granted := granted + sent;
      }
    }

    /** `session_update_consumed_size`: the application has consumed `n` octets. */
    method UpdateConsumedSize(n: int32, updateQueued: bool) returns (ok: bool, sent: int32)
      requires Valid() && 0 <= n
      modifies this`recv, this`consumed, this`granted
      ensures ok <==> old(consumed) + n <= MAX_WINDOW_SIZE
      ensures Valid() && granted == old(granted) + sent && 0 <= sent && (!ok ==> View() == old(View()) && sent == 0)
      ensures ok ==> consumed == old(consumed) + n - sent
      ensures ok ==> var size := Min(old(consumed) + n, old(recv));
                     sent == if !updateQueued && ShouldSendWindowUpdate(local, size) then size else 0
      ensures ok && !updateQueued ==> sent > 0 || consumed <= 0 || recv <= 0 || 2 * Min(consumed, recv) < local
      ensures ok && sent > 0 ==> !updateQueued && 2 * sent + 1 >= local && (consumed == 0 || recv == 0)
    {
      if consumed > MAX_WINDOW_SIZE - n {
        return false, 0;
      }
      consumed := consumed + n;
      ok, sent := true, 0;
      if !updateQueued {
        var size: int32 := Min(consumed, recv);
        if ShouldSendWindowUpdate(local, size) {
          sent := size;
          recv := recv - size;
          consumed := consumed - size;
          granted := granted + sent;
        }
      }
    }
  }
}
