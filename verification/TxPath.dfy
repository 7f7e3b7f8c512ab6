/**
 The transmit path of the FOSSIL driver: one ring per port, one buffer of unsent bytes shared
 by all ports, and sockets that take as much as they like.
 */
module TxPath {
  import opened Powers
  import opened Ring

  const MAX_PORTS := 4
  const TX_RING_SIZE := 512

  // ---- Escaping ----

  /** The wire form of user data: 0xFF doubled (RFC 854). */
  function Escape(s: seq<byte>): (e: seq<byte>)
    ensures |s| <= |e| <= 2 * |s|
    decreases |s|
  {
    if s == [] then [] else (if s[0] == 0xFF then [0xFF, 0xFF] else [s[0]]) + Escape(s[1..])
  }

  lemma {:induction false} EscapeConcat(a: seq<byte>, b: seq<byte>)
    ensures Escape(a + b) == Escape(a) + Escape(b)
    decreases |a|
  {
    if a == [] {
      assert a + b == b;
    } else {
      assert (a + b)[1..] == a[1..] + b;
      EscapeConcat(a[1..], b);
    }
  }

  lemma EscapeOne(b: byte)
    ensures Escape([b]) == if b == 0xFF then [0xFF, 0xFF] else [b]
  {
    assert [b][1..] == [];
  }

  // ---- The state and its steps, on values ----

  /** The rings' contents, the unsent bytes and the port they belong to. */
  datatype Tx = Tx(queues: seq<seq<byte>>, unsent: seq<byte>, owner: int)

  predicate IsTx(t: Tx)
  {
    |t.queues| == MAX_PORTS && -1 <= t.owner < MAX_PORTS
  }

  predicate IsPort(p: int)
  {
    0 <= p < MAX_PORTS
  }

  function Stream(t: Tx, p: int): seq<byte>
    requires IsTx(t) && IsPort(p)
  {
    LaneStream(LaneAt(t, p), p)
  }

  /** The answer of one send call: an error, or how many of n bytes were taken. */
  predicate IsAnswer(rc: int, n: int)
  {
    -32768 <= rc <= n
  }

  function Taken(rc: int): nat
  {
    if rc > 0 then rc else 0
  }

  /** What one port sees: its ring, the unsent bytes and whose they are. */
  datatype Lane = Lane(queue: seq<byte>, unsent: seq<byte>, owner: int)

  /** Unsent bytes of the port itself that are still in front of its ring. */
  function Backlog(l: Lane, p: int): seq<byte>
  {
    if l.owner == p then l.unsent else []
  }

  /** The two sends of one flush: of the backlog, and of the escaped ring. */
  predicate LaneAnswers(l: Lane, p: int, rc1: int, rc2: int)
  {
    IsAnswer(rc1, |Backlog(l, p)|) && IsAnswer(rc2, |Escape(l.queue)|)
  }

  /** fossil_flush_tx when the port may send: the new state, the bytes the socket took and the
      result. */
  function FlushLane(l: Lane, p: int, rc1: int, rc2: int): (Lane, seq<byte>, int)
    requires LaneAnswers(l, p, rc1, rc2)
  {
    var backlog, out := Backlog(l, p), Escape(l.queue);
    if Taken(rc1) < |backlog| then
      (l.(unsent := backlog[Taken(rc1)..]), backlog[..Taken(rc1)], 0)
    else if out == [] then
      (if backlog == [] then l else Lane([], [], -1), backlog, 0)
    else if Taken(rc2) < |out| then
      (Lane([], out[Taken(rc2)..], p), backlog + out[..Taken(rc2)], |l.queue|)
    else
      (Lane([], [], -1), backlog + out, |l.queue|)
  }

  /** fossil_clear_tx. */
  function ClearLane(l: Lane, p: int): Lane
  {
    if l.owner == p then Lane([], [], -1) else l.(queue := [])
  }

  function LaneAt(t: Tx, p: int): Lane
    requires IsTx(t) && IsPort(p)
  {
    Lane(t.queues[p], t.unsent, t.owner)
  }

  function WithLane(t: Tx, p: int, l: Lane): Tx
    requires IsTx(t) && IsPort(p)
  {
    Tx(t.queues[p := l.queue], l.unsent, l.owner)
  }

  predicate Answers(t: Tx, p: int, rc1: int, rc2: int)
    requires IsTx(t) && IsPort(p)
  {
    LaneAnswers(LaneAt(t, p), p, rc1, rc2)
  }

  function Flush(t: Tx, p: int, rc1: int, rc2: int): (Tx, seq<byte>, int)
    requires IsTx(t) && IsPort(p) && Answers(t, p, rc1, rc2)
  {
    var (l, wire, sent) := FlushLane(LaneAt(t, p), p, rc1, rc2);
    (WithLane(t, p, l), wire, sent)
  }

  function Clear(t: Tx, p: int): Tx
    requires IsTx(t) && IsPort(p)
  {
    WithLane(t, p, ClearLane(LaneAt(t, p), p))
  }

  /** What a port still has to put on the wire, in order. */
  function LaneStream(l: Lane, p: int): seq<byte>
  {
    Backlog(l, p) + Escape(l.queue)
  }

  /** A byte accepted into the ring. */
  function Enqueue(t: Tx, p: int, b: byte): Tx
    requires IsTx(t) && IsPort(p)
  {
    t.(queues := t.queues[p := t.queues[p] + [b]])
  }

  /** Flushing p writes over unsent bytes of another port. */
  predicate Overwrites(t: Tx, p: int)
    requires IsTx(t) && IsPort(p)
  {
    t.owner != p && t.unsent != [] && t.queues[p] != []
  }

  /** Whatever the socket takes, it is the front of the port's own stream. */
  lemma LaneConserves(l: Lane, p: int, rc1: int, rc2: int)
    requires IsPort(p) && LaneAnswers(l, p, rc1, rc2)
    ensures FlushLane(l, p, rc1, rc2).1 + LaneStream(FlushLane(l, p, rc1, rc2).0, p) == LaneStream(l, p)
  {
    NoEscape();
    var (m, wire, sent) := FlushLane(l, p, rc1, rc2);
    var backlog, out := Backlog(l, p), Escape(l.queue);
    hide Escape;
    if Taken(rc1) < |backlog| {
      assert backlog[..Taken(rc1)] + backlog[Taken(rc1)..] == backlog;
      assert wire + LaneStream(m, p) == backlog + out;
    } else if out != [] && Taken(rc2) < |out| {
      assert out[..Taken(rc2)] + out[Taken(rc2)..] == out;
      assert wire + LaneStream(m, p) == backlog + out;
    }
  }

  lemma FlushConserves(t: Tx, p: int, rc1: int, rc2: int)
    requires IsTx(t) && IsPort(p) && Answers(t, p, rc1, rc2)
    ensures IsTx(Flush(t, p, rc1, rc2).0)
    ensures Flush(t, p, rc1, rc2).1 + Stream(Flush(t, p, rc1, rc2).0, p) == Stream(t, p)
  {
    hide LaneStream;
    var l := LaneAt(t, p);
    LaneConserves(l, p, rc1, rc2);
    assert LaneAt(WithLane(t, p, FlushLane(l, p, rc1, rc2).0), p) == FlushLane(l, p, rc1, rc2).0;
  }

  /** A flush that gets as far as the ring leaves every other port's stream alone exactly when
      it does not write over its unsent bytes. */
  lemma FlushOthersExact(t: Tx, p: int, q: int, rc1: int, rc2: int)
    requires IsTx(t) && IsPort(p) && IsPort(q) && p != q && Answers(t, p, rc1, rc2)
    ensures Stream(Flush(t, p, rc1, rc2).0, q) == Stream(t, q) <==> !(Overwrites(t, p) && t.owner == q)
  {
    var u := Flush(t, p, rc1, rc2).0;
    assert u.queues[q] == t.queues[q];
    if Overwrites(t, p) && t.owner == q {
      assert |Stream(u, q)| < |Stream(t, q)|;
    }
  }

  /** Two ports: port 0 has "B" unsent, port 1 flushes, and "B" is gone. */
  lemma LostByte() returns (t: Tx, u: Tx)
    ensures IsTx(t) && IsTx(u) && Answers(t, 1, 0, 0) && u == Flush(t, 1, 0, 0).0
    ensures Stream(t, 0) == [66] && Stream(u, 0) == []
  {
    t := Tx([[], [65], [], []], [66], 0);
    assert [65][1..] == [];
    assert Escape([65]) == [65];
    u := Flush(t, 1, 0, 0).0;
  }

  /** When the socket takes everything, nothing is left. */
  lemma FlushDrains(t: Tx, p: int)
    requires IsTx(t) && IsPort(p)
    ensures var n1, n2 := |Backlog(LaneAt(t, p), p)|, |Escape(t.queues[p])|;
      Answers(t, p, n1, n2) && Stream(Flush(t, p, n1, n2).0, p) == []
  {
    if t.queues[p] != [] {
      assert |Escape(t.queues[p])| > 0;
    }
  }

  // ---- Whole runs ----

  /** What happens on the transmit side: an accepted byte, a flush that reaches the socket
      with the answers it gave, and a purge. */
  datatype Event =
    | Put(p: int, b: byte)
    | Flushed(p: int, rc1: int, rc2: int)
    | Purge(p: int)

  /** Per port, since its last purge: the bytes accepted and the bytes the sockets took. */
  datatype Ledger = Ledger(accepted: seq<seq<byte>>, wire: seq<seq<byte>>)

  predicate Possible(t: Tx, e: Event)
    requires IsTx(t)
  {
    IsPort(e.p) && (e.Flushed? ==> Answers(t, e.p, e.rc1, e.rc2))
  }

  function Next(t: Tx, e: Event): (u: Tx)
    requires IsTx(t) && Possible(t, e)
    ensures IsTx(u)
  {
    match e
    case Put(p, b) => Enqueue(t, p, b)
    case Flushed(p, rc1, rc2) => Flush(t, p, rc1, rc2).0
    case Purge(p) => Clear(t, p)
  }

  predicate IsLedger(l: Ledger)
  {
    |l.accepted| == |l.wire| == MAX_PORTS
  }

  function Record(t: Tx, l: Ledger, e: Event): (m: Ledger)
    requires IsTx(t) && IsLedger(l) && Possible(t, e)
    ensures IsLedger(m)
  {
    match e
    case Put(p, b) => l.(accepted := l.accepted[p := l.accepted[p] + [b]])
    case Flushed(p, rc1, rc2) => l.(wire := l.wire[p := l.wire[p] + Flush(t, p, rc1, rc2).1])
    case Purge(p) => Ledger(l.accepted[p := []], l.wire[p := []])
  }

  /** The state and the books after a run; a run whose steps are not possible stops. */
  function Run(t: Tx, l: Ledger, es: seq<Event>): (r: (Tx, Ledger))
    requires IsTx(t) && IsLedger(l)
    ensures IsTx(r.0) && IsLedger(r.1)
    decreases |es|
  {
    if es == [] || !Possible(t, es[0]) then (t, l)
    else Run(Next(t, es[0]), Record(t, l, es[0]), es[1..])
  }

  /** No flush of the run writes over another port's unsent bytes. */
  predicate Clean(t: Tx, es: seq<Event>)
    requires IsTx(t)
    decreases |es|
  {
    es == [] || !Possible(t, es[0]) ||
    ((es[0].Flushed? ==> !Overwrites(t, es[0].p)) && Clean(Next(t, es[0]), es[1..]))
  }

  /** The books of port p balance: what was taken and what is still to be sent is the escaped
      form of what was accepted. */
  predicate Balanced(t: Tx, l: Ledger, p: int)
    requires IsTx(t) && IsLedger(l) && IsPort(p)
  {
    l.wire[p] + Stream(t, p) == Escape(l.accepted[p])
  }

  lemma StepBalanced(t: Tx, l: Ledger, e: Event, p: int)
    requires IsTx(t) && IsLedger(l) && Possible(t, e) && IsPort(p)
    requires e.Flushed? ==> !Overwrites(t, e.p) || t.owner != p
    requires Balanced(t, l, p)
    ensures Balanced(Next(t, e), Record(t, l, e), p)
  {
    hide Flush, Escape, Overwrites;
    var u, m := Next(t, e), Record(t, l, e);
    match e
    case Put(q, b) =>
      if p == q {
        EscapeConcat(l.accepted[p], [b]);
        EscapeConcat(t.queues[p], [b]);
        assert m.wire[p] + Stream(u, p) == l.wire[p] + Stream(t, p) + Escape([b]);
      }
    case Flushed(q, rc1, rc2) =>
      if p == q {
        FlushConserves(t, p, rc1, rc2);
        assert m.wire[p] + Stream(u, p) == l.wire[p] + (Flush(t, p, rc1, rc2).1 + Stream(u, p));
      } else {
        FlushOthersExact(t, q, p, rc1, rc2);
      }
    case Purge(q) =>
      NoEscape();
  }

  lemma NoEscape()
    ensures Escape([]) == []
  {
  }

  /** Conservation on every clean run, for every port at once. */
  lemma {:induction false} RunConserves(t: Tx, l: Ledger, es: seq<Event>, p: int)
    requires IsTx(t) && IsLedger(l) && IsPort(p) && Clean(t, es)
    requires Balanced(t, l, p)
    ensures Balanced(Run(t, l, es).0, Run(t, l, es).1, p)
    decreases |es|
  {
    hide Balanced, Next, Record, Possible, Overwrites;
    if es != [] && Possible(t, es[0]) {
      StepBalanced(t, l, es[0], p);
      RunConserves(Next(t, es[0]), Record(t, l, es[0]), es[1..], p);
    }
  }

  /** Runs on which one port transmits. */
  predicate OnePort(es: seq<Event>, p: int)
  {
    forall i :: 0 <= i < |es| ==> es[i].Put? ==> es[i].p == p
  }

  /** Only p has anything to send. */
  predicate OnlyPort(t: Tx, p: int)
    requires IsTx(t)
  {
    (t.unsent != [] ==> t.owner == p) && forall q :: 0 <= q < MAX_PORTS && q != p ==> t.queues[q] == []
  }

  lemma {:induction false} OnePortIsClean(t: Tx, es: seq<Event>, p: int)
    requires IsTx(t) && IsPort(p) && OnlyPort(t, p) && OnePort(es, p)
    ensures Clean(t, es)
    decreases |es|
  {
    hide Escape;
    if es != [] && Possible(t, es[0]) {
      OnlyPortKept(t, es[0], p);
      hide Next, Possible, OnlyPort, Overwrites;
      OnePortIsClean(Next(t, es[0]), es[1..], p);
    }
  }

  lemma OnlyPortKept(t: Tx, e: Event, p: int)
    requires IsTx(t) && IsPort(p) && OnlyPort(t, p) && Possible(t, e) && (e.Put? ==> e.p == p)
    ensures OnlyPort(Next(t, e), p)
    ensures e.Flushed? ==> !Overwrites(t, e.p)
  {
    hide Escape;
    NoEscape();
  }

  const EMPTY: Tx := Tx([[], [], [], []], [], 0)
  const BLANK: Ledger := Ledger([[], [], [], []], [[], [], [], []])

  /** From the start, if only port p is written to: what the sockets took of p and what is
      still to be sent is the escaped form of what was accepted, for any partial sends. */
  lemma TransmitConserves(es: seq<Event>, p: int)
    requires IsPort(p) && OnePort(es, p)
    ensures Balanced(Run(EMPTY, BLANK, es).0, Run(EMPTY, BLANK, es).1, p)
  {
    hide Run, Clean;
    NoEscape();
    OnePortIsClean(EMPTY, es, p);
    RunConserves(EMPTY, BLANK, es, p);
  }

  // ---- The driver ----

  /** A socket as the environment: send takes any part of what it is given, or fails. */
  class Socket {
    var accepted: seq<byte>
    var closed: bool

    constructor ()
      ensures accepted == [] && !closed
    {
      accepted, closed := [], false;
    }

    method Send(b: seq<byte>) returns (rc: int)
      modifies `accepted
      ensures IsAnswer(rc, |b|) && accepted == old(accepted) + b[..Taken(rc)]
    {
      rc :| -32768 <= rc <= |b|;
      accepted := accepted + b[..Taken(rc)];
    }
  }

  /** g_tx_pending with its bounds and owner; the unsent bytes are data[off..len]. */
  class PendingBuf {
    const data: array<byte>
    var len: int
    var off: int
    var port: int

    ghost predicate Valid()
      reads this
    {
      data.Length == 1024 && 0 <= off <= len <= data.Length && -1 <= port < MAX_PORTS
    }

    ghost function Unsent(): seq<byte>
      reads this, data
      requires Valid()
    {
      data[off..len]
    }

    constructor ()
      ensures Valid() && fresh(data) && Unsent() == [] && port == 0
    {
      data := new byte[2 * TX_RING_SIZE](_ => 0);
      len, off, port := 0, 0, 0;
    }

    method Reset()
      requires Valid()
      modifies this
      ensures Valid() && Unsent() == [] && port == -1
    {
      len, off, port := 0, 0, -1;
    }
  }

  /** A transmit ring beside the pending buffer. */
  ghost predicate Apart(t: RingBuf, pend: PendingBuf)
  {
    t.data.Length == 512 && t.data != pend.data
  }

  ghost function LaneOf(t: RingBuf, pend: PendingBuf): Lane
    reads t, t.data, pend, pend.data
    requires t.Valid() && pend.Valid()
  {
    Lane(t.Contents(), pend.Unsent(), pend.port)
  }

  /** fossil_clear_tx. */
  method ClearTx(t: RingBuf, pend: PendingBuf, port: int)
    requires t.Valid() && pend.Valid() && Apart(t, pend)
    modifies t, pend
    ensures t.Valid() && pend.Valid() && LaneOf(t, pend) == ClearLane(old(LaneOf(t, pend)), port)
  {
    t.Init();
    if pend.port == port {
      pend.Reset();
    }
  }

  method EscapeInto(buf: array<byte>, outpos: int, b: byte) returns (next: int)
    requires 0 <= outpos && outpos + 2 <= buf.Length
    modifies buf
    ensures outpos < next <= outpos + 2 && buf[..next] == old(buf[..outpos]) + Escape([b])
    ensures buf[next..] == old(buf[..])[next..]
  {
    EscapeOne(b);
    if b == 0xFF {
      buf[outpos], buf[outpos + 1] := 0xFF, 0xFF;
      next := outpos + 2;
    } else {
      buf[outpos] := b;
      next := outpos + 1;
    }
  }

  /** Moves the whole ring to the front of the buffer, escaped. */
  method Fill(t: RingBuf, buf: array<byte>) returns (outpos: int, sent: int)
    requires t.Valid() && t.data.Length == TX_RING_SIZE && buf.Length == 2 * TX_RING_SIZE && buf != t.data
    modifies t, buf
    ensures t.Valid() && t.Contents() == []
    ensures 0 <= outpos <= buf.Length && buf[..outpos] == Escape(old(t.Contents()))
    ensures buf[outpos..] == old(buf[..])[outpos..]
    ensures sent == |old(t.Contents())|
  {
    hide Escape, Unwrap, Slot;
    ghost var q := t.Contents();
    outpos, sent := 0, 0;
    NoEscape();
    while t.count > 0
      invariant t.Valid() && 0 <= sent <= |q| && t.Contents() == q[sent..]
      invariant 0 <= outpos <= 2 * sent
      invariant buf[..outpos] == Escape(q[..sent]) && buf[outpos..] == old(buf[..])[outpos..]
      decreases t.count
    {
      var b := t.Get();
      assert q[..sent + 1] == q[..sent] + [q[sent]];
      EscapeConcat(q[..sent], [q[sent]]);
      outpos := EscapeInto(buf, outpos, b);
      sent := sent + 1;
    }
    assert q[..sent] == q;
  }

  /** Whether the port may put bytes on the wire now. */
  predicate MaySend(quiet: bool, sock: Socket?)
    reads sock
  {
    !quiet && sock != null && !sock.closed
  }

  /** A flush that reached the socket, with its answers rc1 and rc2. */
  ghost predicate FlushedBy(l: Lane, m: Lane, before: seq<byte>, after: seq<byte>, p: int, rc1: int, rc2: int, sent: int)
  {
    LaneAnswers(l, p, rc1, rc2) && before <= after && (m, after[|before|..], sent) == FlushLane(l, p, rc1, rc2)
  }

  /** The part of the flush after the backlog: escapes the ring into the buffer and sends it. */
  method SendRing(t: RingBuf, pend: PendingBuf, port: int, sock: Socket) returns (sent: int, ghost rc2: int)
    requires t.Valid() && pend.Valid() && Apart(t, pend) && IsPort(port) && Backlog(LaneOf(t, pend), port) == []
    modifies t, pend, pend.data, sock
    ensures t.Valid() && pend.Valid() && sock.closed == old(sock.closed)
    ensures FlushedBy(old(LaneOf(t, pend)), LaneOf(t, pend), old(sock.accepted), sock.accepted, port, 0, rc2, sent)
  {
    hide Escape, Unwrap, Slot;
    var outpos;
    rc2 := 0;
    ghost var unsent := pend.Unsent();
    outpos, sent := Fill(t, pend.data);
    if outpos > 0 {
      ghost var out := pend.data[..outpos];
      var rc := sock.Send(pend.data[..outpos]);
      rc2 := rc;
      if rc < 0 {
        rc := 0;
      }
      pend.off, pend.len, pend.port := rc, outpos, port;
      if pend.off >= pend.len {
        pend.Reset();
      }
      assert rc < outpos ==> pend.Unsent() == out[rc..];
    } else {
      assert pend.Unsent() == unsent;
    }
    ghost var (l, wire, n) := FlushLane(old(LaneOf(t, pend)), port, 0, rc2);
    assert wire == sock.accepted[|old(sock.accepted)|..];
    assert l == LaneOf(t, pend);
  }

  /** fossil_flush_tx; quiet while the call is ringing or its CONNECT is pending. */
  method FlushTx(t: RingBuf, pend: PendingBuf, port: int, sock: Socket?, quiet: bool)
    returns (sent: int, ghost rc1: int, ghost rc2: int)
    requires t.Valid() && pend.Valid() && Apart(t, pend) && IsPort(port)
    modifies t, pend, pend.data, if sock == null then {} else {sock}
    ensures t.Valid() && pend.Valid() && (sock != null ==> sock.closed == old(sock.closed))
    ensures !old(MaySend(quiet, sock)) ==>
      sent == 0 && LaneOf(t, pend) == old(LaneOf(t, pend)) && (sock != null ==> sock.accepted == old(sock.accepted))
    ensures old(MaySend(quiet, sock)) ==>
      FlushedBy(old(LaneOf(t, pend)), LaneOf(t, pend), old(sock.accepted), sock.accepted, port, rc1, rc2, sent)
  {
    hide Escape, Unwrap, Slot;
    sent, rc1, rc2 := 0, 0, 0;
    if quiet || sock == null || sock.closed {
      return;
    }
    NoEscape();
    ghost var l, before := LaneOf(t, pend), sock.accepted;
    if pend.port == port && pend.len > pend.off {
      var rc := sock.Send(pend.data[pend.off..pend.len]);
      rc1 := rc;
      if rc > 0 {
        pend.off := pend.off + rc;
      }
      if pend.len > pend.off {
        return;
      }
      pend.Reset();
    }
    ghost var m, mid := LaneOf(t, pend), sock.accepted;
    sent, rc2 := SendRing(t, pend, port, sock);
    FlushInTwo(l, m, LaneOf(t, pend), before, mid, sock.accepted, port, rc1, rc2, sent);
  }

  lemma FlushInTwo(l: Lane, m: Lane, n: Lane, before: seq<byte>, mid: seq<byte>, after: seq<byte>,
                   p: int, rc1: int, rc2: int, sent: int)
    requires IsAnswer(rc1, |Backlog(l, p)|) && Taken(rc1) == |Backlog(l, p)| && mid == before + Backlog(l, p)
    requires m == if Backlog(l, p) == [] then l else Lane(l.queue, [], -1)
    requires FlushedBy(m, n, mid, after, p, 0, rc2, sent)
    ensures FlushedBy(l, n, before, after, p, rc1, rc2, sent)
  {
    hide Escape;
    assert after[|before|..] == Backlog(l, p) + after[|mid|..];
    var f, g := FlushLane(l, p, rc1, rc2), FlushLane(m, p, 0, rc2);
    assert f.0 == g.0 && f.2 == g.2;
    assert f.1 == Backlog(l, p) + g.1;
  }

  // ---- The FOSSIL calls ----

  /** The whole stream of a port: what its socket has taken and what is still to be sent. */
  function Whole(taken: seq<byte>, l: Lane, p: int): seq<byte>
  {
    taken + LaneStream(l, p)
  }

  lemma FlushedConserves(l: Lane, m: Lane, before: seq<byte>, after: seq<byte>, p: int, rc1: int, rc2: int, sent: int)
    requires IsPort(p) && FlushedBy(l, m, before, after, p, rc1, rc2, sent)
    ensures Whole(after, m, p) == Whole(before, l, p)
  {
    hide LaneStream, FlushLane;
    LaneConserves(l, p, rc1, rc2);
    assert after + LaneStream(m, p) == before + (after[|before|..] + LaneStream(m, p));
  }

  lemma WholePut(taken: seq<byte>, l: Lane, p: int, b: byte)
    ensures Whole(taken, l.(queue := l.queue + [b]), p) == Whole(taken, l, p) + Escape([b])
  {
    EscapeConcat(l.queue, [b]);
  }

  /** A flush keeps the whole stream, whether it reaches the socket or not. */
  method FlushKeeping(t: RingBuf, pend: PendingBuf, port: int, sock: Socket, quiet: bool)
    requires t.Valid() && pend.Valid() && Apart(t, pend) && IsPort(port)
    modifies t, pend, pend.data, sock
    ensures t.Valid() && pend.Valid()
    ensures Whole(sock.accepted, LaneOf(t, pend), port) == old(Whole(sock.accepted, LaneOf(t, pend), port))
  {
    hide Whole, FlushedBy, LaneOf, Unwrap, Slot;
    ghost var l, before := LaneOf(t, pend), sock.accepted;
    ghost var sent, rc1, rc2;
    sent, rc1, rc2 := FlushTx(t, pend, port, sock, quiet);
    if old(MaySend(quiet, sock)) {
      FlushedConserves(l, LaneOf(t, pend), before, sock.accepted, port, rc1, rc2, sent);
    }
  }

  /** txring_put on a port's ring. */
  method PutByte(t: RingBuf, pend: PendingBuf, port: int, b: byte, ghost taken: seq<byte>) returns (stored: bool)
    requires t.Valid() && pend.Valid() && Apart(t, pend)
    modifies t, t.data
    ensures t.Valid() && stored == (|old(t.Contents())| < TX_RING_SIZE)
    ensures t.Contents() == if stored then old(t.Contents()) + [b] else old(t.Contents())
    ensures Whole(taken, LaneOf(t, pend), port)
      == old(Whole(taken, LaneOf(t, pend), port)) + if stored then Escape([b]) else []
  {
    hide Whole, Escape, Unwrap, Slot;
    ghost var l := LaneOf(t, pend);
    var rc := t.Put(b);
    stored := rc == 0;
    WholePut(taken, l, port, b);
    assert LaneOf(t, pend) == if stored then l.(queue := l.queue + [b]) else l;
  }

  /** txring_put, and once more after a flush if the ring is full. */
  method PutOrFlush(t: RingBuf, pend: PendingBuf, port: int, sock: Socket, quiet: bool, b: byte) returns (stored: bool)
    requires t.Valid() && pend.Valid() && Apart(t, pend) && IsPort(port)
    modifies t, t.data, pend, pend.data, sock
    ensures t.Valid() && pend.Valid()
    ensures |old(t.Contents())| < TX_RING_SIZE ==> stored && |t.Contents()| == |old(t.Contents())| + 1
    ensures Whole(sock.accepted, LaneOf(t, pend), port)
      == old(Whole(sock.accepted, LaneOf(t, pend), port)) + if stored then Escape([b]) else []
  {
    hide Whole, Escape, LaneOf, Unwrap, Slot;
    stored := PutByte(t, pend, port, b, sock.accepted);
    if !stored {
      FlushKeeping(t, pend, port, sock, quiet);
      stored := PutByte(t, pend, port, b, sock.accepted);
    }
  }

  /** What the socket of a port, if there is one, has taken. */
  ghost function SentBy(sock: Socket?): seq<byte>
    reads sock
  {
    if sock == null then [] else sock.accepted
  }

  ghost function StreamOf(sock: Socket?, t: RingBuf, pend: PendingBuf, port: int): seq<byte>
    reads sock, t, t.data, pend, pend.data
    requires t.Valid() && pend.Valid()
  {
    Whole(SentBy(sock), LaneOf(t, pend), port)
  }

  /** AH=19h: nothing without a call; on a call the count returned is the length of the prefix
      that is on its way, and of nothing else, and everything is accepted when there is room. */
  method BlockWrite(t: RingBuf, pend: PendingBuf, port: int, sock: Socket?, conn: bool, quiet: bool, ubuf: seq<byte>)
    returns (count: nat)
    requires t.Valid() && pend.Valid() && Apart(t, pend) && IsPort(port)
    modifies t, t.data, pend, pend.data, if sock == null then {} else {sock}
    ensures t.Valid() && pend.Valid() && count <= |ubuf|
    ensures !conn || sock == null ==> count == 0 && LaneOf(t, pend) == old(LaneOf(t, pend))
    ensures conn && sock != null && |ubuf| + |old(t.Contents())| <= TX_RING_SIZE ==> count == |ubuf|
    ensures StreamOf(sock, t, pend, port) == old(StreamOf(sock, t, pend, port)) + Escape(ubuf[..count])
  {
    hide Whole, Escape, LaneOf, Unwrap, Slot;
    ghost var start, used := StreamOf(sock, t, pend, port), |t.Contents()|;
    NoEscape();
    count := 0;
    if conn && sock != null {
      while count < |ubuf|
        invariant t.Valid() && pend.Valid() && count <= |ubuf|
        invariant |ubuf| + used <= TX_RING_SIZE ==> |t.Contents()| == used + count
        invariant StreamOf(sock, t, pend, port) == start + Escape(ubuf[..count])
      {
        var stored := PutOrFlush(t, pend, port, sock, quiet, ubuf[count]);
        if !stored {
          break;
        }
        assert ubuf[..count + 1] == ubuf[..count] + [ubuf[count]];
        EscapeConcat(ubuf[..count], [ubuf[count]]);
        count := count + 1;
      }
    }
    if count > 0 {
      FlushKeeping(t, pend, port, sock, quiet);
    }
  }

  /** The transmit half of fossil_status: THRE and TSRE. TSRE says exactly that every byte of
      the port has been taken by the socket. */
  method TxStatus(t: RingBuf, pend: PendingBuf, port: int) returns (thre: bool, tsre: bool)
    requires t.Valid() && pend.Valid() && Apart(t, pend) && IsPort(port)
    ensures tsre <==> LaneStream(LaneOf(t, pend), port) == []
    ensures thre <==> |t.Contents()| < TX_RING_SIZE && Backlog(LaneOf(t, pend), port) == []
  {
    var hasPending := pend.port == port && pend.len > pend.off;
    thre := t.count < TX_RING_SIZE && !hasPending;
    tsre := t.count == 0 && !hasPending;
  }
}
