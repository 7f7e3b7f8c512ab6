/** Who holds which socket: counting, and the deferred-close queue. */
module Sockets {
  import opened Powers
  import opened Call

  const MAX_PORTS := 4
  const MAX_HUNTS := 2
  const MAX_EXTS := 4
  const MAX_CLOSING := 4

  datatype Hunt = Hunt(listenSock: int, tcpPort: int, members: set<int>, active: bool)

  datatype ExtState = Free | Connecting | Established | RemoteClosed | Failed | Closing

  datatype Ext = Ext(sock: int, state: ExtState, pendingConnect: bool)

  /** Everything that holds socket pointers; free are the sockets mTCP has to give, by accept
      or by getSocket. */
  datatype Holders = Holders(ports: seq<Port>, hunts: seq<Hunt>, exts: seq<Ext>, queue: seq<int>, free: set<int>)

  predicate IsHolders(h: Holders)
  {
    |h.ports| == MAX_PORTS && |h.hunts| == MAX_HUNTS && |h.exts| == MAX_EXTS && |h.queue| <= MAX_CLOSING
  }

  function PortCount(p: Port, s: int): nat
  {
    One(p.sock == s) + One(p.listenSock == s)
  }

  function PortsCount(ports: seq<Port>, s: int): nat
    requires |ports| == MAX_PORTS
  {
    PortCount(ports[0], s) + PortCount(ports[1], s) + PortCount(ports[2], s) + PortCount(ports[3], s)
  }

  function HuntsCount(hunts: seq<Hunt>, s: int): nat
    requires |hunts| == MAX_HUNTS
  {
    One(hunts[0].listenSock == s) + One(hunts[1].listenSock == s)
  }

  function ExtsCount(exts: seq<Ext>, s: int): nat
    requires |exts| == MAX_EXTS
  {
    One(exts[0].sock == s) + One(exts[1].sock == s) + One(exts[2].sock == s) + One(exts[3].sock == s)
  }

  function QueueCount(q: seq<int>, s: int): nat
    decreases |q|
  {
    if q == [] then 0 else One(q[0] == s) + QueueCount(q[1..], s)
  }

  /** How many places hold socket s. */
  function Total(h: Holders, s: int): nat
    requires IsHolders(h)
  {
    PortsCount(h.ports, s) + HuntsCount(h.hunts, s) + ExtsCount(h.exts, s) + QueueCount(h.queue, s) + One(s in h.free)
  }

  // ---- How the count changes ----

  lemma TotalPort(h: Holders, i: int, p: Port, s: int)
    requires IsHolders(h) && 0 <= i < MAX_PORTS
    ensures Total(h.(ports := h.ports[i := p]), s) == Total(h, s) - PortCount(h.ports[i], s) + PortCount(p, s)
  {
    hide PortCount, QueueCount;
  }

  lemma TotalHunt(h: Holders, i: int, g: Hunt, s: int)
    requires IsHolders(h) && 0 <= i < MAX_HUNTS
    ensures Total(h.(hunts := h.hunts[i := g]), s)
      == Total(h, s) - One(h.hunts[i].listenSock == s) + One(g.listenSock == s)
  {
    hide QueueCount, PortsCount;
  }

  lemma TotalExt(h: Holders, i: int, e: Ext, s: int)
    requires IsHolders(h) && 0 <= i < MAX_EXTS
    ensures Total(h.(exts := h.exts[i := e]), s) == Total(h, s) - One(h.exts[i].sock == s) + One(e.sock == s)
  {
    hide QueueCount, PortsCount;
  }

  lemma {:induction false} QueuePush(q: seq<int>, x: int, s: int)
    ensures QueueCount(q + [x], s) == QueueCount(q, s) + One(x == s)
    decreases |q|
  {
    if q == [] {
      assert ([x])[1..] == [];
      assert q + [x] == [x];
    } else {
      assert (q + [x])[1..] == q[1..] + [x];
      QueuePush(q[1..], x, s);
    }
  }

  // ---- Closing ----

  /** sock_close_fast: into the queue, or back to mTCP when it is full. */
  function ClosedFast(h: Holders, x: int): Holders
  {
    if |h.queue| < MAX_CLOSING then h.(queue := h.queue + [x]) else h.(free := h.free + {x})
  }

  /** A socket that was nobody's is now in one more place, and is not freed a second time. */
  lemma TotalClosed(h: Holders, x: int, s: int)
    requires IsHolders(h) && x !in h.free
    ensures IsHolders(ClosedFast(h, x)) && Total(ClosedFast(h, x), s) == Total(h, s) + One(x == s)
  {
    hide PortsCount;
    QueuePush(h.queue, x, s);
  }

  lemma TotalTaken(h: Holders, x: int, s: int)
    requires IsHolders(h) && x in h.free
    ensures Total(h.(free := h.free - {x}), s) == Total(h, s) - One(x == s)
  {
    hide PortsCount, QueueCount;
  }

  // ---- The drain ----

  /** A queue without the entry at index i, whose place the last one takes. */
  function Removed(q: seq<int>, i: int): (r: seq<int>)
    requires 0 <= i < |q|
    ensures |r| == |q| - 1
  {
    q[i := q[|q| - 1]][..|q| - 1]
  }

  /** The drain at the start of the poll cycle, from index n - 1 down: a socket whose close is
      done is freed and the last one takes its place. */
  function Drained(q: seq<int>, done: set<int>, n: int): (r: seq<int>)
    requires 0 <= n <= |q|
    ensures |r| <= |q|
    decreases n
  {
    if n == 0 then q
    else if q[n - 1] in done then Drained(Removed(q, n - 1), done, n - 1)
    else Drained(q, done, n - 1)
  }

  lemma {:induction false} QueueSplit(a: seq<int>, b: seq<int>, s: int)
    ensures QueueCount(a + b, s) == QueueCount(a, s) + QueueCount(b, s)
    decreases |a|
  {
    if a == [] {
      assert a + b == b;
    } else {
      assert (a + b)[1..] == a[1..] + b;
      QueueSplit(a[1..], b, s);
    }
  }

  lemma QueueOne(x: int, s: int)
    ensures QueueCount([x], s) == One(x == s)
  {
    assert [x][1..] == [];
  }

  /** Swapping with the last removes just the one entry. */
  lemma SwapLast(q: seq<int>, i: int, s: int)
    requires 0 <= i < |q|
    ensures QueueCount(Removed(q, i), s) == QueueCount(q, s) - One(q[i] == s)
  {
    hide QueueCount;
    var last := q[|q| - 1];
    assert q == q[..|q| - 1] + [last];
    QueueSplit(q[..|q| - 1], [last], s);
    QueueOne(last, s);
    if i < |q| - 1 {
      var a, b := q[..i], q[i + 1..|q| - 1];
      assert q[..|q| - 1] == a + ([q[i]] + b);
      assert q[i := last][..|q| - 1] == a + ([last] + b);
      QueueSplit(a, [q[i]] + b, s);
      QueueSplit(a, [last] + b, s);
      QueueSplit([q[i]], b, s);
      QueueSplit([last], b, s);
      QueueOne(q[i], s);
    } else {
      assert q[i := last][..|q| - 1] == q[..|q| - 1];
    }
  }

  /** The drain keeps exactly the sockets whose close is not done, as often as they were there;
      entries from n on have been looked at already. */
  lemma {:induction false} DrainKeeps(q: seq<int>, done: set<int>, n: int, s: int)
    requires 0 <= n <= |q| && forall k :: n <= k < |q| ==> q[k] !in done
    ensures QueueCount(Drained(q, done, n), s) == if s in done then 0 else QueueCount(q, s)
    decreases n
  {
    if n == 0 {
      NoneDone(q, done, s);
    } else if q[n - 1] in done {
      var r := Removed(q, n - 1);
      SwapLast(q, n - 1, s);
      assert forall k :: n - 1 <= k < |r| ==> r[k] !in done;
      DrainKeeps(r, done, n - 1, s);
    } else {
      DrainKeeps(q, done, n - 1, s);
    }
  }

  lemma {:induction false} NoneDone(q: seq<int>, done: set<int>, s: int)
    requires forall k :: 0 <= k < |q| ==> q[k] !in done
    ensures s in done ==> QueueCount(q, s) == 0
    decreases |q|
  {
    if q != [] {
      NoneDone(q[1..], done, s);
    }
  }

  function DoneIn(q: seq<int>, done: set<int>): set<int>
  {
    set x | x in q && x in done
  }

  lemma DoneCons(x: int, q: seq<int>, done: set<int>)
    ensures DoneIn([x] + q, done) == if x in done then DoneIn(q, done) + {x} else DoneIn(q, done)
    ensures DoneIn([], done) == {}
  {
  }

  /** The queue that is left, and the sockets that go back to mTCP. */
  function Drain(h: Holders, done: set<int>): Holders
  {
    h.(queue := Drained(h.queue, done, |h.queue|), free := h.free + DoneIn(h.queue, done))
  }

  lemma {:induction false} CountIn(q: seq<int>, s: int)
    ensures QueueCount(q, s) > 0 <==> s in q
    decreases |q|
  {
    if q != [] {
      CountIn(q[1..], s);
    }
  }

  /** Draining moves sockets from the queue to mTCP and neither loses nor doubles any. */
  lemma TotalDrained(h: Holders, done: set<int>, s: int)
    requires IsHolders(h) && Total(h, s) <= 1
    ensures IsHolders(Drain(h, done)) && Total(Drain(h, done), s) == Total(h, s)
  {
    hide PortsCount, Drained;
    DrainKeeps(h.queue, done, |h.queue|, s);
    CountIn(h.queue, s);
  }

  // ---- The invariant ----

  /** No socket is lost or doubled between two states. */
  ghost predicate Kept(h: Holders, k: Holders)
  {
    IsHolders(h) && IsHolders(k) && forall s :: s >= 0 ==> Total(k, s) == Total(h, s)
  }

  /** What holds in every state: each socket is in at most one place, and every port keeps its
      own invariant. */
  ghost predicate Inv(h: Holders, answered: seq<bool>)
  {
    IsHolders(h) && |answered| == MAX_PORTS &&
    (forall s :: s >= 0 ==> Total(h, s) <= 1) &&
    (forall i :: 0 <= i < MAX_PORTS ==> PortOk(h.ports[i], answered[i])) &&
    (forall i :: 0 <= i < MAX_EXTS ==> h.exts[i].sock >= NULL) &&
    (forall i :: 0 <= i < MAX_HUNTS ==> h.hunts[i].listenSock >= NULL && (h.hunts[i].listenSock == NULL || h.hunts[i].active)) &&
    (forall x :: x in h.free ==> x >= 0) && (forall i :: 0 <= i < |h.queue| ==> h.queue[i] >= 0)
  }

  lemma KeptSelf(h: Holders)
    requires IsHolders(h)
    ensures Kept(h, h)
  {
  }

  lemma KeptTrans(h: Holders, k: Holders, l: Holders)
    requires Kept(h, k) && Kept(k, l)
    ensures Kept(h, l)
  {
    hide Total;
  }

  /** A port changes without touching its sockets. */
  lemma PortSame(h: Holders, answered: seq<bool>, i: int, p: Port, a: bool)
    requires Inv(h, answered) && 0 <= i < MAX_PORTS && PortOk(p, a)
    requires p.sock == h.ports[i].sock && p.listenSock == h.ports[i].listenSock
    ensures var k := h.(ports := h.ports[i := p]);
      Inv(k, answered[i := a]) && Kept(h, k)
  {
    hide Total, PortOk;
    var k := h.(ports := h.ports[i := p]);
    forall s | s >= 0 ensures Total(k, s) == Total(h, s) {
      TotalPort(h, i, p, s);
    }
  }

  /** A port whose socket pointer is NULL gets a socket from mTCP. */
  lemma PortGains(h: Holders, answered: seq<bool>, i: int, p: Port, a: bool, x: int)
    requires Inv(h, answered) && 0 <= i < MAX_PORTS && PortOk(p, a) && x in h.free
    requires (h.ports[i].sock == NULL && p == p.(sock := x, listenSock := h.ports[i].listenSock))
      || (h.ports[i].listenSock == NULL && p == p.(sock := h.ports[i].sock, listenSock := x))
    ensures var k := h.(ports := h.ports[i := p], free := h.free - {x});
      Inv(k, answered[i := a]) && Kept(h, k)
  {
    hide Total, PortOk;
    var k := h.(ports := h.ports[i := p], free := h.free - {x});
    forall s | s >= 0 ensures Total(k, s) == Total(h, s) {
      TotalTaken(h, x, s);
      TotalPort(h.(free := h.free - {x}), i, p, s);
    }
  }

  /** A port's socket is closed. */
  lemma PortCloses(h: Holders, answered: seq<bool>, i: int, p: Port, a: bool)
    requires Inv(h, answered) && 0 <= i < MAX_PORTS && PortOk(p, a)
    requires h.ports[i].sock != NULL && p.sock == NULL && p.listenSock == h.ports[i].listenSock
    ensures var k := ClosedFast(h.(ports := h.ports[i := p]), h.ports[i].sock);
      Inv(k, answered[i := a]) && Kept(h, k) && h.ports[i].sock !in h.free
  {
    hide Total;
    var x := h.ports[i].sock;
    var m := h.(ports := h.ports[i := p]);
    assert PortOk(h.ports[i], answered[i]);
    TotalPort(h, i, p, x);
    InFree(h, x);
    InFree(m, x);
    hide PortOk, PortCount;
    var k := ClosedFast(m, x);
    forall s | s >= 0 ensures Total(k, s) == Total(h, s) {
      TotalPort(h, i, p, s);
      CountOnce(h.ports[i], p, s);
      TotalClosed(m, x, s);
    }
  }

  lemma CountOnce(old_: Port, new_: Port, s: int)
    requires s >= 0 && new_.sock == NULL && new_.listenSock == old_.listenSock
    ensures PortCount(old_, s) == PortCount(new_, s) + One(old_.sock == s)
  {
  }

  lemma InFree(h: Holders, x: int)
    requires IsHolders(h)
    ensures x in h.free ==> Total(h, x) >= 1
    ensures Total(h, x) == Total(h.(free := {}), x) + One(x in h.free)
  {
    hide PortsCount, QueueCount;
  }

  /** A caller that is turned away: accepted and closed at once. */
  lemma Rejects(h: Holders, answered: seq<bool>, x: int)
    requires Inv(h, answered) && x in h.free
    ensures var k := ClosedFast(h.(free := h.free - {x}), x);
      Inv(k, answered) && Kept(h, k)
  {
    hide Total, PortOk;
    var m := h.(free := h.free - {x});
    var k := ClosedFast(m, x);
    forall s | s >= 0 ensures Total(k, s) == Total(h, s) {
      TotalTaken(h, x, s);
      TotalClosed(m, x, s);
    }
  }

  /** A hunt group gets its listening socket. */
  lemma HuntGains(h: Holders, answered: seq<bool>, i: int, x: int)
    requires Inv(h, answered) && 0 <= i < MAX_HUNTS && x in h.free
    requires h.hunts[i].listenSock == NULL && h.hunts[i].active
    ensures var k := h.(hunts := h.hunts[i := h.hunts[i].(listenSock := x)], free := h.free - {x});
      Inv(k, answered) && Kept(h, k)
  {
    hide Total, PortOk;
    var g := h.hunts[i].(listenSock := x);
    var k := h.(hunts := h.hunts[i := g], free := h.free - {x});
    forall s | s >= 0 ensures Total(k, s) == Total(h, s) {
      TotalTaken(h, x, s);
      TotalHunt(h.(free := h.free - {x}), i, g, s);
    }
  }

  /** An external slot changes without touching its socket. */
  lemma ExtSame(h: Holders, answered: seq<bool>, i: int, e: Ext)
    requires Inv(h, answered) && 0 <= i < MAX_EXTS && e.sock == h.exts[i].sock
    ensures var k := h.(exts := h.exts[i := e]);
      Inv(k, answered) && Kept(h, k)
  {
    hide Total, PortOk;
    var k := h.(exts := h.exts[i := e]);
    forall s | s >= 0 ensures Total(k, s) == Total(h, s) {
      TotalExt(h, i, e, s);
    }
  }

  lemma ExtGains(h: Holders, answered: seq<bool>, i: int, e: Ext)
    requires Inv(h, answered) && 0 <= i < MAX_EXTS && h.exts[i].sock == NULL && e.sock in h.free
    ensures var k := h.(exts := h.exts[i := e], free := h.free - {e.sock});
      Inv(k, answered) && Kept(h, k)
  {
    hide Total, PortOk;
    var k := h.(exts := h.exts[i := e], free := h.free - {e.sock});
    forall s | s >= 0 ensures Total(k, s) == Total(h, s) {
      TotalTaken(h, e.sock, s);
      TotalExt(h.(free := h.free - {e.sock}), i, e, s);
    }
  }

  lemma ExtCloses(h: Holders, answered: seq<bool>, i: int, e: Ext)
    requires Inv(h, answered) && 0 <= i < MAX_EXTS && h.exts[i].sock != NULL && e.sock == NULL
    ensures var k := ClosedFast(h.(exts := h.exts[i := e]), h.exts[i].sock);
      Inv(k, answered) && Kept(h, k) && h.exts[i].sock !in h.free
  {
    hide Total, PortOk;
    var x := h.exts[i].sock;
    var m := h.(exts := h.exts[i := e]);
    TotalExt(h, i, e, x);
    InFree(h, x);
    InFree(m, x);
    var k := ClosedFast(m, x);
    forall s | s >= 0 ensures Total(k, s) == Total(h, s) {
      TotalExt(h, i, e, s);
      TotalClosed(m, x, s);
    }
  }

  lemma DrainKeepsInv(h: Holders, answered: seq<bool>, done: set<int>)
    requires Inv(h, answered)
    ensures Inv(Drain(h, done), answered) && Kept(h, Drain(h, done))
  {
    hide Total, PortOk;
    var k := Drain(h, done);
    DrainedFrom(h.queue, done, |h.queue|);
    forall s | s >= 0 ensures Total(k, s) == Total(h, s) {
      TotalDrained(h, done, s);
    }
  }

  /** Everything in the drained queue was in the queue. */
  lemma {:induction false} DrainedFrom(q: seq<int>, done: set<int>, n: int)
    requires 0 <= n <= |q| && forall i :: 0 <= i < |q| ==> q[i] >= 0
    ensures forall i :: 0 <= i < |Drained(q, done, n)| ==> Drained(q, done, n)[i] >= 0
    decreases n
  {
    if n > 0 {
      if q[n - 1] in done {
        DrainedFrom(Removed(q, n - 1), done, n - 1);
      } else {
        DrainedFrom(q, done, n - 1);
      }
    }
  }

  /** cmd_listen drops the port's two pointers: what they held is lost, and nothing else. */
  lemma PortForgets(h: Holders, answered: seq<bool>, i: int, p: Port, a: bool)
    requires Inv(h, answered) && 0 <= i < MAX_PORTS && PortOk(p, a) && p.sock == p.listenSock == NULL
    ensures var k := h.(ports := h.ports[i := p]);
      Inv(k, answered[i := a]) &&
      (forall s :: s >= 0 ==> Total(k, s) == Total(h, s) - PortCount(h.ports[i], s)) && Shrinks(h, k) &&
      (Kept(h, k) <==> h.ports[i].sock == NULL && h.ports[i].listenSock == NULL)
  {
    hide Total, PortOk;
    var k := h.(ports := h.ports[i := p]);
    forall s | s >= 0 ensures Total(k, s) == Total(h, s) - PortCount(h.ports[i], s) {
      TotalPort(h, i, p, s);
    }
    LiveCount(h.ports[i], answered[i]);
    if h.ports[i].sock != NULL {
      assert Total(k, h.ports[i].sock) < Total(h, h.ports[i].sock);
    } else if h.ports[i].listenSock != NULL {
      assert Total(k, h.ports[i].listenSock) < Total(h, h.ports[i].listenSock);
    }
  }

  lemma LiveCount(p: Port, a: bool)
    requires PortOk(p, a)
    ensures p.sock != NULL ==> p.sock >= 0 && PortCount(p, p.sock) >= 1
    ensures p.listenSock != NULL ==> p.listenSock >= 0 && PortCount(p, p.listenSock) >= 1
  {
  }

  /** Sockets may be lost, but none is doubled. */
  ghost predicate Shrinks(h: Holders, k: Holders)
  {
    IsHolders(h) && IsHolders(k) && forall s :: s >= 0 ==> Total(k, s) <= Total(h, s)
  }

  /** A socket that is lost stays lost. */
  lemma ShrinksTrans(h: Holders, k: Holders, l: Holders)
    requires Shrinks(h, k) && Shrinks(k, l)
    ensures Shrinks(h, l)
    ensures Kept(h, l) <==> Kept(h, k) && Kept(k, l)
  {
    hide Total;
  }

  /** A hunt group is set up in a slot that was not in use. */
  lemma HuntSet(h: Holders, answered: seq<bool>, i: int, g: Hunt)
    requires Inv(h, answered) && 0 <= i < MAX_HUNTS && !h.hunts[i].active && g.listenSock == NULL
    ensures var k := h.(hunts := h.hunts[i := g]);
      Inv(k, answered) && Kept(h, k) && Shrinks(h, k)
  {
    hide Total, PortOk;
    var k := h.(hunts := h.hunts[i := g]);
    forall s | s >= 0 ensures Total(k, s) == Total(h, s) {
      TotalHunt(h, i, g, s);
    }
  }
}
