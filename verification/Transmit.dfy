/** The FOSSIL calls that send bytes, with the command interpreter in front of the transmit ring. */
module Transmit {
  import opened Powers
  import opened Call
  import opened Ring
  import opened TxPath
  import A = AtLine

  /** The interpreter lets a byte through only on a call. */
  lemma PassedOnCall(t: A.Terminal, b: byte, now: int)
    requires !A.Type(t, b, now).consumed
    ensures A.DataMode(t.m) && A.DataMode(A.Type(t, b, now).t.m)
  {
    hide Elapsed, A.Respond, A.Execute;
  }

  /** AH=0Bh: AX is 1 exactly when the interpreter consumes the byte or the ring has room for it;
      a byte that is let through and accepted joins the stream, and nothing else does. */
  method TransmitNoWait(at: A.Interpreter, rx: RingBuf, t: RingBuf, pend: PendingBuf, port: int, sock: Socket?, b: byte, now: int)
    returns (ax: int)
    requires at.Valid() && rx.Valid() && t.Valid() && pend.Valid() && Apart(t, pend)
    requires rx.data != at.buf && rx != t && t.data !in {rx.data, at.buf} && pend.data !in {rx.data, at.buf}
    modifies at, at.buf, rx, rx.data, t, t.data
    ensures at.Valid() && rx.Valid() && t.Valid() && pend.Valid()
    ensures var r := A.Type(old(at.Abs()), b, now);
      at.Abs() == r.t && rx.Contents() == Joined(old(rx.Contents()), r.out, rx.data.Length) &&
      ax == (if r.consumed || |old(t.Contents())| < TX_RING_SIZE then 1 else 0) &&
      StreamOf(sock, t, pend, port) == old(StreamOf(sock, t, pend, port)) + if !r.consumed && ax == 1 then TxPath.Escape([b]) else []
  {
    hide A.Type, Whole, TxPath.Escape, Unwrap, Slot, LaneOf, Joined;
    ghost var before := at.Abs();
    var consumed := at.Input(b, now, rx);
    if consumed {
      return 1;
    }
    PassedOnCall(before, b, now);
    if at.m.port.mode == Conn && at.m.port.sock != NULL {
      var stored := PutByte(t, pend, port, b, SentBy(sock));
      ax := if stored then 1 else 0;
    } else {
      ax := 0;
    }
  }

  /** AH=01h before the status is returned: as above, but a full ring is flushed once, and the
      byte is stored or lost. */
  method TransmitWait(at: A.Interpreter, rx: RingBuf, t: RingBuf, pend: PendingBuf, port: int, sock: Socket?,
                      quiet: bool, b: byte, now: int)
    returns (stored: bool)
    requires at.Valid() && rx.Valid() && t.Valid() && pend.Valid() && Apart(t, pend) && IsPort(port)
    requires rx.data != at.buf && rx != t && t.data !in {rx.data, at.buf} && pend.data !in {rx.data, at.buf}
    requires sock == null <==> at.m.port.sock == NULL
    modifies at, at.buf, rx, rx.data, t, t.data, pend, pend.data, if sock == null then {} else {sock}
    ensures at.Valid() && rx.Valid() && t.Valid() && pend.Valid()
    ensures var m := old(at.m);
      var r := A.Type(old(at.Abs()).(m := m.(port := m.port.(lastTx := now))), b, now);
      at.Abs() == r.t && rx.Contents() == Joined(old(rx.Contents()), r.out, rx.data.Length) &&
      (r.consumed ==> !stored) && (!r.consumed && |old(t.Contents())| < TX_RING_SIZE ==> stored) &&
      StreamOf(sock, t, pend, port) == old(StreamOf(sock, t, pend, port)) + if stored then TxPath.Escape([b]) else []
  {
    hide A.Type, Whole, TxPath.Escape, Unwrap, Slot, LaneOf, Joined;
    at.m := at.m.(port := at.m.port.(lastTx := now));
    ghost var before := at.Abs();
    stored := false;
    var consumed := at.Input(b, now, rx);
    if !consumed {
      PassedOnCall(before, b, now);
      if at.m.port.mode == Conn && at.m.port.sock != NULL && !at.m.port.at.ringing {
        stored := PutOrFlush(t, pend, port, sock, quiet, b);
      }
    }
  }
}
