/**
 The modem as a whole: four ports, two hunt groups, the external sockets and the deferred-close
 queue, changed by FOSSIL calls, poll cycles, MUX commands and control commands in any order.
 mTCP is the environment: it gives sockets that nobody holds.
 */
module Modem {
  import opened Call
  import opened Sockets

  /** What one turn of the poll cycle finds out about an active port. */
  datatype PollEnv = PollEnv(now: int, safe: bool, backlog: bool, received: bool, closed: bool, remoteGone: bool)

  predicate IdleTooLong(p: Port, env: PollEnv)
  {
    p.idleTimeout > 0 && env.safe &&
    Elapsed(env.now, p.lastTx) > p.idleTimeout * 18 && Elapsed(env.now, p.lastRx) > p.idleTimeout * 18
  }

  predicate Gone(p: Port, env: PollEnv)
  {
    env.safe && (env.closed || (Elapsed(env.now, p.connTick) > 182 && env.remoteGone))
  }

  /** A port with an open call after the closing checks. */
  function PolledOpen(p: Port, env: PollEnv): Port
  {
    if p.pendingClose && env.safe then Dropped(p.(pendingClose := false))
    else
      var r := if env.received then p.(lastRx := env.now) else p;
      if IdleTooLong(r, env) || Gone(r, env) then Dropped(r) else r
  }

  /** An active port after its turn. */
  function PolledActive(p: Port, env: PollEnv): Port
  {
    var q := CheckedRing(p, env.now);
    if q.sock == NULL then q else PolledOpen(q, env)
  }

  /** A port at the end of AH=04h, where ls is a new listening socket or NULL. */
  function Started(p: Port, ls: int): Port
  {
    if p.mode == Conn then p
    else if p.hunt >= 0 then p.(mode := Listen)
    else if p.localPort == 0 then p
    else if p.listenSock != NULL then p.(mode := Listen)
    else if ls != NULL then p.(listenSock := ls, mode := Listen)
    else p
  }

  /** The calls that touch one port and no socket. */
  datatype Action =
    | SetDtr(raise: bool)
    | DeinitFossil
    | PurgeOutput
    | Disconnect
    | TransmitByte
    | At(cmd: AtCommand)

  function Acted(p: Port, a: Action, now: int): Port
  {
    match a
    case SetDtr(raise) => DtrSet(p, raise, now)
    case DeinitFossil => Deinit(p)
    case PurgeOutput => Purged(p, now)
    case Disconnect => Disconnecting(p)
    case TransmitByte => p.(lastTx := now)
    case At(cmd) => AtCommanded(p, cmd, now)
  }

  /** The actions that answer a call: raising DTR while it rings, ATA and ATO. */
  predicate AnswersCall(p: Port, a: Action)
  {
    (a == SetDtr(true) && p.at.ringing && p.mode == Conn) || (a.At? && Answers(p, a.cmd))
  }

  /** What the poll cycle finds out about an external socket. */
  datatype ExtEnv = ExtEnv(connectFails: bool, connected: bool, closed: bool, remoteGone: bool)

  /** An external slot with a socket after its turn. */
  function Serviced(e: Ext, env: ExtEnv): Ext
  {
    var d := if e.pendingConnect
      then e.(pendingConnect := false, state := if env.connectFails then Failed else e.state) else e;
    if e.sock == NULL then e
    else if d.state == Closing then d.(sock := NULL, state := Free)
    else if d.state == Connecting then
      d.(state := if env.connected then Established else if env.closed then Failed else Connecting)
    else if d.state == Established then
      d.(state := if env.closed then Failed else if env.remoteGone then RemoteClosed else Established)
    else d
  }

  /** MUX_SOCK_STATUS on a slot with a socket. */
  function Queried(e: Ext, env: ExtEnv): Ext
  {
    var st := if env.connected then Established else if env.closed then Failed else e.state;
    e.(state := if st == Established && env.remoteGone then RemoteClosed else st)
  }

  datatype MuxOp = ConnectOp | CloseOp | StatusOp(env: ExtEnv)

  function MuxActed(e: Ext, op: MuxOp): Ext
  {
    match op
    case ConnectOp => e.(pendingConnect := true, state := Connecting)
    case CloseOp => e.(state := Closing)
    case StatusOp(env) => Queried(e, env)
  }

  /** A slot after some MUX calls, in order. */
  function MuxRun(e: Ext, ops: seq<MuxOp>): Ext
    decreases |ops|
  {
    if ops == [] then e else MuxActed(MuxRun(e, ops[..|ops| - 1]), ops[|ops| - 1])
  }

  /** A connect request, or a status query that finds the socket connected or closed. */
  predicate Undoes(op: MuxOp)
  {
    op.ConnectOp? || (op.StatusOp? && (op.env.connected || op.env.closed))
  }

  predicate UndoneFrom(ops: seq<MuxOp>, i: int)
    requires 0 <= i <= |ops|
  {
    exists j :: i <= j < |ops| && Undoes(ops[j])
  }

  /** A close is asked for, before or by these calls, and nothing after it undoes that. */
  predicate CloseStands(closing: bool, ops: seq<MuxOp>)
  {
    (closing && !UndoneFrom(ops, 0)) || exists i :: 0 <= i < |ops| && ops[i] == CloseOp && !UndoneFrom(ops, i + 1)
  }

  lemma CloseStandsStep(closing: bool, ops: seq<MuxOp>, op: MuxOp)
    ensures CloseStands(closing, ops + [op]) <==> op == CloseOp || (!Undoes(op) && CloseStands(closing, ops))
  {
    var all := ops + [op];
    forall i | 0 <= i <= |ops| ensures UndoneFrom(all, i) <==> UndoneFrom(ops, i) || Undoes(op) {
      assert all[|ops|] == op;
      if UndoneFrom(ops, i) {
        var j :| i <= j < |ops| && Undoes(ops[j]);
        assert Undoes(all[j]);
      }
    }
    assert !UndoneFrom(all, |all|);
    if CloseStands(closing, ops) && !Undoes(op) && !(closing && !UndoneFrom(ops, 0)) {
      var i :| 0 <= i < |ops| && ops[i] == CloseOp && !UndoneFrom(ops, i + 1);
      assert all[i] == CloseOp && !UndoneFrom(all, i + 1);
    }
    assert op == CloseOp ==> all[|ops|] == CloseOp && !UndoneFrom(all, |ops| + 1);
  }

  lemma {:induction false} MuxRunIs(e: Ext, ops: seq<MuxOp>)
    ensures var f := MuxRun(e, ops);
      f.sock == e.sock && (f.pendingConnect <==> e.pendingConnect || ConnectOp in ops) &&
      (f.state == Closing <==> CloseStands(e.state == Closing, ops))
    decreases |ops|
  {
    hide CloseStands;
    if ops == [] {
      NoCallsYet(e.state == Closing);
    } else {
      var front, op := ops[..|ops| - 1], ops[|ops| - 1];
      assert ops == front + [op];
      MuxRunIs(e, front);
      CloseStandsStep(e.state == Closing, front, op);
    }
  }

  lemma NoCallsYet(closing: bool)
    ensures CloseStands(closing, []) <==> closing
  {
    assert !UndoneFrom([], 0);
  }

  /** After any MUX calls between two turns of a slot, a close is carried out at the second one
      exactly when one was asked for, no later call undid it, and no pending connect fails. */
  lemma CloseRequestExact(e: Ext, ops: seq<MuxOp>, env: ExtEnv)
    requires e.sock != NULL
    ensures Serviced(MuxRun(e, ops), env).sock == NULL <==>
      CloseStands(e.state == Closing, ops) && !((e.pendingConnect || ConnectOp in ops) && env.connectFails)
  {
    hide CloseStands, MuxRun;
    MuxRunIs(e, ops);
  }

  /** A close request followed by a connect request, or by a query of a connected socket, is lost. */
  lemma CloseRequestLost(e: Ext, found: ExtEnv, env: ExtEnv)
    requires e.sock != NULL && found.connected
    ensures Serviced(MuxRun(e, [CloseOp, ConnectOp]), env).sock == e.sock
    ensures Serviced(MuxRun(e, [CloseOp, StatusOp(found)]), env).sock == e.sock
  {
    forall op | op == ConnectOp || op == StatusOp(found) ensures Serviced(MuxRun(e, [CloseOp, op]), env).sock == e.sock {
      assert [CloseOp, op][..1] == [CloseOp] && [CloseOp][..0] == [];
    }
  }

  /** Everything that can happen. */
  datatype Event =
    | DrainQueues(done: set<int>)
    | HuntTurn(g: int, time: int)
    | PortTurn(i: int, env: PollEnv)
    | ExtTurn(j: int, found: ExtEnv)
    | InitCall(i: int, time: int)
    | ActCall(i: int, a: Action, time: int)
    | DtrMode(ignore: bool)
    | StatusCall(i: int, time: int)
    | ListenOn(i: int, tcpPort: int)
    | HuntOn(members: set<int>, tcpPort: int)
    | MuxNew(recvBuffer: bool)
    | MuxDo(handle: nat, op: MuxOp)
  {
    predicate Turn()
    {
      DrainQueues? || HuntTurn? || PortTurn? || ExtTurn?
    }

    predicate Fossil()
    {
      InitCall? || ActCall? || DtrMode? || StatusCall?
    }
  }

  /** Nothing that an observer of the ports and external slots sees has changed. */
  ghost predicate Same(h: Holders, a: seq<bool>, k: Holders, b: seq<bool>)
  {
    k.ports == h.ports && k.exts == h.exts && b == a
  }

  /** A call was accepted on port i, on a socket that nobody held, and has not been answered. */
  ghost predicate CallCame(h: Holders, a: seq<bool>, i: int, now: int, k: Holders, b: seq<bool>)
    requires IsHolders(h) && |a| == MAX_PORTS
  {
    0 <= i < MAX_PORTS && h.ports[i].mode == Listen && k.exts == h.exts && b == a[i := false] &&
    exists ns :: ns in h.free && k.ports == h.ports[i := Accepted(h.ports[i], ns, now)]
  }

  /** Member i of a hunt group is free, and none before it. */
  predicate FirstFree(ports: seq<Port>, members: set<int>, i: int)
  {
    0 <= i < |ports| && i in members && ports[i].mode == Listen && ports[i].sock == NULL &&
    forall k :: 0 <= k < i && k in members ==> ports[k].mode != Listen || ports[k].sock != NULL
  }

  /** No member is free. */
  predicate NoneFree(ports: seq<Port>, members: set<int>)
  {
    forall k :: 0 <= k < |ports| && k in members ==> ports[k].mode != Listen || ports[k].sock != NULL
  }

  /** The first free slot got socket x. */
  ghost predicate SlotTaken(old_: seq<Ext>, new_: seq<Ext>, j: int, x: int)
  {
    0 <= j < |old_| && old_[j].state == Free && old_[j].sock == NULL &&
    (forall k :: 0 <= k < j ==> old_[k].state != Free || old_[k].sock != NULL) &&
    new_ == old_[j := old_[j].(sock := x)]
  }

  /** What each event may do to the ports, the external slots and the answered calls. */
  ghost predicate Happens(h: Holders, a: seq<bool>, e: Event, k: Holders, b: seq<bool>)
    requires IsHolders(h) && |a| == MAX_PORTS
  {
    match e
    case DrainQueues(done) => Same(h, a, k, b) && k == Drain(h, done)
    case HuntTurn(g, now) =>
      Same(h, a, k, b) || (0 <= g < MAX_HUNTS && exists i :: FirstFree(h.ports, h.hunts[g].members, i) && CallCame(h, a, i, now, k, b))
    case PortTurn(i, env) =>
      if !(0 <= i < MAX_PORTS) || !h.ports[i].initialized then Same(h, a, k, b)
      else if h.ports[i].mode == Conn then
        k.ports == h.ports[i := PolledActive(h.ports[i], env)] && k.exts == h.exts &&
        b == (if RingDue(h.ports[i].at, h.ports[i].fossil, env.now) == Answer then a[i := true] else a)
      else Same(h, a, k, b) || (h.ports[i].hunt < 0 && CallCame(h, a, i, env.now, k, b))
    case ExtTurn(j, env) =>
      k.ports == h.ports && b == a &&
      k.exts == if 0 <= j < MAX_EXTS then h.exts[j := Serviced(h.exts[j], env)] else h.exts
    case InitCall(i, now) =>
      k.exts == h.exts && b == a &&
      (if 0 <= i < MAX_PORTS && h.ports[i].initialized
       then exists ls :: k.ports == h.ports[i := Started(InitReset(InitClosed(h.ports[i]), now), ls)]
       else k.ports == h.ports)
    case ActCall(i, act, now) =>
      if 0 <= i < MAX_PORTS && (h.ports[i].initialized || act == Disconnect) then
        k.exts == h.exts && k.ports == h.ports[i := Acted(h.ports[i], act, now)] &&
        b == a[i := a[i] || AnswersCall(h.ports[i], act)]
      else Same(h, a, k, b)
    case DtrMode(ignore) =>
      k.exts == h.exts && b == a && |k.ports| == MAX_PORTS &&
      forall i :: 0 <= i < MAX_PORTS ==> k.ports[i] == h.ports[i].(dtrIgnore := ignore)
    case StatusCall(i, now) =>
      if 0 <= i < MAX_PORTS && h.ports[i].initialized then
        k.exts == h.exts && k.ports == h.ports[i := Polled(CheckedRing(h.ports[i], now))] &&
        b == (if RingDue(h.ports[i].at, h.ports[i].fossil, now) == Answer then a[i := true] else a)
      else Same(h, a, k, b)
    case ListenOn(i, tcpPort) =>
      k.exts == h.exts && b == a &&
      k.ports == if 0 <= i < MAX_PORTS then h.ports[i := Listening(h.ports[i], tcpPort)] else h.ports
    case HuntOn(members, tcpPort) =>
      k.exts == h.exts && b == a &&
      k.ports == HuntPorts(h.ports, members, tcpPort, FreeHunt(h.hunts))
    case MuxNew(_) =>
      k.ports == h.ports && b == a &&
      (k.exts == h.exts || exists j, x :: x in h.free && SlotTaken(h.exts, k.exts, j, x))
    case MuxDo(handle, op) =>
      k.ports == h.ports && b == a &&
      k.exts == if handle < MAX_EXTS && h.exts[handle].sock != NULL
        then h.exts[handle := MuxActed(h.exts[handle], op)] else h.exts
  }

  /** The first hunt group that is not in use, or 2. */
  function FreeHunt(hunts: seq<Hunt>): (slot: nat)
    requires |hunts| == MAX_HUNTS
    ensures slot <= MAX_HUNTS
  {
    if !hunts[0].active then 0 else if !hunts[1].active then 1 else 2
  }

  /** A member port of a new hunt group. */
  function HuntMember(p: Port, tcpPort: int, slot: int): Port
  {
    p.(listenSock := NULL, sock := NULL, localPort := tcpPort, mode := Disc, initialized := true, hunt := slot)
  }

  function HuntPort(p: Port, k: int, members: set<int>, tcpPort: int, slot: int): Port
  {
    if slot < MAX_HUNTS && k in members then HuntMember(p, tcpPort, slot) else p
  }

  function HuntPorts(ports: seq<Port>, members: set<int>, tcpPort: int, slot: int): seq<Port>
  {
    seq(|ports|, k requires 0 <= k < |ports| => HuntPort(ports[k], k, members, tcpPort, slot))
  }

  /** The members below n hold no socket. */
  predicate AllIdle(ports: seq<Port>, members: set<int>, n: int)
  {
    forall k :: 0 <= k < n <= |ports| && k in members ==> ports[k].sock == NULL && ports[k].listenSock == NULL
  }

  // ---- Close requests that outlive their call ----

  /** A port takes calls with a close pending for an earlier one. */
  predicate Stale(p: Port)
  {
    p.mode == Listen && p.pendingClose
  }

  /** The call rings out now, while a close is pending, and the port goes on listening. */
  predicate RingsOutClosing(p: Port, now: int)
  {
    p.pendingClose && RingDue(p.at, p.fossil, now) == GiveUp && IdleMode(p) == Listen
  }

  /** A poll cycle leaves a close request behind exactly when the call rings out. */
  lemma TurnLeaves(p: Port, answered: bool, env: PollEnv)
    requires PortOk(p, answered) && p.mode == Conn
    ensures Stale(PolledActive(p, env)) <==> RingsOutClosing(p, env.now)
  {
    hide RingDue;
  }

  lemma StatusLeaves(p: Port, answered: bool, now: int)
    requires PortOk(p, answered) && !Stale(p)
    ensures Stale(Polled(CheckedRing(p, now))) <==> RingsOutClosing(p, now)
  {
    hide RingDue;
  }

  /** So it happens to a call that nobody answers when DTR is dropped before its time is up. */
  lemma DtrDropGoesStale(p: Port, answered: bool, dropped: int, env: PollEnv)
    requires PortOk(p, answered) && p.mode == Conn && p.at.ringing && IdleMode(p) == Listen
    requires p.at.ringsSent == MAX_RINGS && p.at.s0 == 0 && Elapsed(env.now, p.at.ringTick) >= RING_INTERVAL
    ensures Stale(PolledActive(DtrSet(p, false, dropped), env)) <==> p.pendingClose || !p.dtrIgnore
  {
    hide Elapsed, PolledActive, Stale;
    TurnLeaves(DtrSet(p, false, dropped), answered, env);
  }

  /** The next call then pays for it: a call that is neither idle nor closed by the caller
      survives its first safe turn exactly when no close was pending when it came. */
  lemma StaleKillsNext(p: Port, ns: int, came: int, env: PollEnv)
    requires ns != NULL && env.safe && !env.closed && !env.remoteGone && p.idleTimeout == 0
    ensures PolledActive(Accepted(p, ns, came), env).sock == (if p.pendingClose then NULL else ns)
  {
    hide Elapsed;
  }

  lemma ActLeavesNone(p: Port, answered: bool, a: Action, now: int)
    requires PortOk(p, answered) && !Stale(p)
    ensures !Stale(Acted(p, a, now))
  {
    hide SendConnect, Elapsed;
  }

  lemma InitLeavesNone(p: Port, ls: int, now: int)
    ensures !Started(InitReset(InitClosed(p), now), ls).pendingClose
  {
  }

  ghost predicate NoneStale(ports: seq<Port>)
  {
    forall i :: 0 <= i < |ports| ==> !Stale(ports[i])
  }

  predicate LeavesClose(ports: seq<Port>, e: Event)
  {
    match e
    case PortTurn(i, env) =>
      0 <= i < |ports| && ports[i].initialized && ports[i].mode == Conn && RingsOutClosing(ports[i], env.now)
    case StatusCall(i, now) => 0 <= i < |ports| && ports[i].initialized && RingsOutClosing(ports[i], now)
    case _ => false
  }

  /** In every step a port comes to listen with an old close request exactly when its call rings
      out while one is pending. Nothing else that can happen leaves one behind. */
  lemma OnlyRingOutLeaves(h: Holders, a: seq<bool>, e: Event, k: Holders, b: seq<bool>)
    requires Inv(h, a) && Happens(h, a, e, k, b) && NoneStale(h.ports)
    ensures NoneStale(k.ports) <==> !LeavesClose(h.ports, e)
  {
    assert IsHolders(h) && |a| == MAX_PORTS;
    hide Inv, PolledActive, CheckedRing, Polled, Acted, Started, InitReset, InitClosed, RingsOutClosing;
    match e
    case PortTurn(i, env) =>
      if 0 <= i < MAX_PORTS {
        Members(h, a, i);
        if h.ports[i].mode == Conn {
          TurnLeaves(h.ports[i], a[i], env);
          assert h.ports[i].initialized ==> k.ports[i] == PolledActive(h.ports[i], env);
        }
      }
    case StatusCall(i, now) =>
      if 0 <= i < MAX_PORTS {
        Members(h, a, i);
        StatusLeaves(h.ports[i], a[i], now);
        assert h.ports[i].initialized ==> k.ports[i] == Polled(CheckedRing(h.ports[i], now));
      }
    case ActCall(i, act, now) =>
      if 0 <= i < MAX_PORTS {
        Members(h, a, i);
        ActLeavesNone(h.ports[i], a[i], act, now);
      }
    case InitCall(i, now) =>
      if 0 <= i < MAX_PORTS && h.ports[i].initialized {
        Members(h, a, i);
        var ls :| k.ports == h.ports[i := Started(InitReset(InitClosed(h.ports[i]), now), ls)];
        InitLeavesNone(h.ports[i], ls, now);
      }
    case _ =>
  }

  // ---- Runs ----

  datatype Snapshot = Snapshot(h: Holders, answered: seq<bool>)

  /** The states of a run, each with its invariant, from each to the next by the event between. */
  ghost predicate IsRun(trace: seq<Snapshot>, es: seq<Event>)
  {
    |trace| == |es| + 1 &&
    (forall k :: 0 <= k < |trace| ==> Inv(trace[k].h, trace[k].answered)) &&
    forall k :: 0 <= k < |es| ==> StepTaken(trace[k], es[k], trace[k + 1])
  }

  ghost predicate StepTaken(x: Snapshot, e: Event, y: Snapshot)
  {
    IsHolders(x.h) && |x.answered| == MAX_PORTS && Happens(x.h, x.answered, e, y.h, y.answered)
  }

  /** Along every run: no port ever listens with an old close request exactly when no call rings
      out while one is pending. */
  lemma {:induction false} RunLeavesNone(trace: seq<Snapshot>, es: seq<Event>)
    requires IsRun(trace, es) && NoneStale(trace[0].h.ports)
    ensures (forall k :: 0 <= k < |trace| ==> NoneStale(trace[k].h.ports)) <==>
      (forall k :: 0 <= k < |es| ==> !LeavesClose(trace[k].h.ports, es[k]))
    decreases |es|
  {
    hide Inv, NoneStale, LeavesClose, Happens;
    if es != [] {
      var n := |es| - 1;
      assert StepTaken(trace[n], es[n], trace[n + 1]);
      RunFront(trace, es);
      RunLeavesNone(trace[..n + 1], es[..n]);
      if NoneStale(trace[n].h.ports) {
        OnlyRingOutLeaves(trace[n].h, trace[n].answered, es[n], trace[n + 1].h, trace[n + 1].answered);
      }
      assert forall k :: 0 <= k < n ==> trace[..n + 1][k] == trace[k] && es[..n][k] == es[k];
      assert trace[..n + 1][n] == trace[n];
    }
  }

  lemma RunFront(trace: seq<Snapshot>, es: seq<Event>)
    requires IsRun(trace, es) && es != []
    ensures IsRun(trace[..|es|], es[..|es| - 1])
  {
    hide Inv, StepTaken;
  }

  class Machine {
    var ports: seq<Port>
    var hunts: seq<Hunt>
    var exts: seq<Ext>
    const closing: array<int>
    var closingCount: int
    /** mTCP's sockets: not given out, or waiting to be accepted. */
    var free: set<int>
    /** Per port: its present call has been answered since it was accepted. */
    ghost var answered: seq<bool>

    ghost predicate Shape()
      reads this
    {
      |ports| == 4 && |hunts| == 2 && |exts| == 4 &&
      closing.Length == 4 && 0 <= closingCount <= 4 && |answered| == 4
    }

    ghost function Abs(): (h: Holders)
      reads this, closing
      requires Shape()
      ensures IsHolders(h)
    {
      Holders(ports, hunts, exts, closing[..closingCount], free)
    }

    ghost predicate Valid()
      reads this, closing
    {
      Shape() && Inv(Abs(), answered)
    }

    ghost function Now(): Snapshot
      reads this, closing
      requires Shape()
    {
      Snapshot(Abs(), answered)
    }

    /** At start nothing is held and every port is off. */
    constructor (sockets: set<int>)
      requires forall x :: x in sockets ==> x >= 0
      ensures Valid() && fresh(closing)
      ensures free == sockets && (forall i :: 0 <= i < MAX_PORTS ==> ports[i].mode == Disc)
    {
      var p := Port(Disc, NULL, NULL, false, -1, 0, false, false, 0, 0, 0, 0, false, false, 0, FRESH_AT);
      ports := [p, p, p, p];
      hunts := [Hunt(NULL, 0, {}, false), Hunt(NULL, 0, {}, false)];
      var e := Ext(NULL, Free, false);
      exts := [e, e, e, e];
      closing := new int[MAX_CLOSING](_ => NULL);
      closingCount := 0;
      free := sockets;
      answered := [false, false, false, false];
    }

    /** accept or getSocket: NULL, or any socket nobody holds. */
    method Obtain() returns (x: int)
      modifies `free
      ensures (x == NULL && free == old(free)) || (x in old(free) && free == old(free) - {x})
    {
      x := NULL;
      if y :| y in free {
        if * {
          x, free := y, free - {y};
        }
      }
    }

    /** sock_close_fast, of a socket that mTCP does not already have. */
    method CloseFast(x: int)
      requires Shape() && x !in free
      modifies `closingCount, `free, closing
      ensures Shape() && Abs() == ClosedFast(old(Abs()), x)
    {
      if closingCount < MAX_CLOSING {
        closing[closingCount] := x;
        closingCount := closingCount + 1;
      } else {
        free := free + {x};
      }
    }

    /** Frees the closed socket at index i of the queue; the last one takes its place. */
    method DropEntry(i: int)
      requires Shape() && 0 <= i < closingCount && closing[i] !in free
      modifies `closingCount, `free, closing
      ensures Shape() && closingCount == old(closingCount) - 1 && free == old(free) + {old(closing[i])}
      ensures closing[..closingCount] == Removed(old(closing[..closingCount]), i)
    {
      free := free + {closing[i]};
      closingCount := closingCount - 1;
      closing[i] := closing[closingCount];
    }

    /** The loop of the drain, from the back. */
    method DrainQueue(done: set<int>, ghost q: seq<int>)
      requires Shape() && closing[..closingCount] == q && Distinct(q, free)
      modifies `closingCount, `free, closing
      ensures Shape() && closing[..closingCount] == Drained(q, done, |q|) && free == old(free) + DoneIn(q, done)
    {
      hide Drained, DoneIn, Distinct;
      ghost var start, cur := free, q;
      DoneCons(0, [], done);
      assert q[|q|..] == [];
      var i := closingCount - 1;
      while i >= 0
        invariant Shape() && -1 <= i < closingCount == |cur| <= |q| && closing[..closingCount] == cur
        invariant Drained(q, done, |q|) == Drained(cur, done, i + 1) && cur[..i + 1] == q[..i + 1]
        invariant free == start + DoneIn(q[i + 1..], done)
      {
        DrainTurn(q, cur, done, i);
        assert closing[i] == cur[i];
        if closing[i] in done {
          DistinctAt(q, start, i);
          NotDone(q[i], q[i + 1..], done);
          DropEntry(i);
          cur := Removed(cur, i);
        }
        i := i - 1;
      }
      DrainStep(cur, done, 0);
      assert q[0..] == q;
    }

    /** The drain of the deferred-close queue, in place and from the back; done are the sockets
        whose isCloseDone says yes. */
    method DrainClosing(done: set<int>)
      requires Valid()
      modifies `closingCount, `free, closing
      ensures Valid() && Abs() == Drain(old(Abs()), done) && Kept(old(Abs()), Abs())
    {
      hide Inv, Kept, Drained, DoneIn, Distinct, Total;
      ghost var h := Abs();
      QueueDistinct(h, answered);
      DrainKeepsInv(h, answered, done);
      DrainQueue(done, h.queue);
    }

    /** A port changes without touching its sockets; a says whether its call has been answered. */
    method SetPort(i: int, p: Port, ghost a: bool)
      requires Valid() && 0 <= i < MAX_PORTS && PortOk(p, a)
      requires p.sock == ports[i].sock && p.listenSock == ports[i].listenSock
      modifies `ports, `answered
      ensures Valid() && Kept(old(Abs()), Abs())
      ensures ports == old(ports)[i := p] && answered == old(answered)[i := a]
    {
      hide Inv, Kept, PortOk;
      PortSame(Abs(), answered, i, p, a);
      ports := ports[i := p];
      answered := answered[i := a];
    }

    /** The port's socket is closed and its pointer cleared. */
    method ClosePort(i: int, p: Port)
      requires Valid() && 0 <= i < MAX_PORTS && ports[i].sock != NULL && PortOk(p, answered[i])
      requires p.sock == NULL && p.listenSock == ports[i].listenSock
      modifies `ports, `closingCount, `free, closing
      ensures Valid() && Kept(old(Abs()), Abs())
      ensures Abs() == ClosedFast(old(Abs()).(ports := old(ports)[i := p]), old(ports[i].sock))
      ensures ports == old(ports)[i := p]
    {
      hide Inv, Kept, PortOk;
      PortCloses(Abs(), answered, i, p, answered[i]);
      var x := ports[i].sock;
      ports := ports[i := p];
      assert answered == answered[i := answered[i]];
      CloseFast(x);
    }

    // ---- The poll cycle ----

    /** A caller is turned away with a busy message. */
    method RejectCaller()
      requires Valid()
      modifies `closingCount, `free, closing
      ensures Valid() && Kept(old(Abs()), Abs())
    {
      hide Inv, Kept;
      ghost var h := Abs();
      KeptSelf(h);
      FreeIds(h, answered);
      var ns := Obtain();
      if ns != NULL {
        Rejects(h, answered, ns);
        CloseFast(ns);
      }
    }

    /** A call arrives on a port that has none. The code also closes a socket the port might
        still have; by the invariant a listening port has none. */
    method Accept(i: int, now: int) returns (ns: int)
      requires Valid() && 0 <= i < MAX_PORTS && ports[i].mode == Listen
      modifies `ports, `answered, `free
      ensures Valid() && Kept(old(Abs()), Abs())
      ensures ns == NULL ==> ports == old(ports) && answered == old(answered)
      ensures ns != NULL ==> ns in old(free) && ns !in free && answered == old(answered)[i := false]
      ensures ns != NULL ==> ports == old(ports)[i := Accepted(old(ports[i]), ns, now)]
    {
      hide Inv, Kept, Total;
      ghost var h := Abs();
      KeptSelf(h);
      FreeIds(h, answered);
      Members(h, answered, i);
      ns := Obtain();
      if ns != NULL {
        var p := Accepted(ports[i], ns, now);
        AcceptOk(ports[i], answered[i], ns, now);
        PortGains(h, answered, i, p, false, ns);
        ports := ports[i := p];
        answered := answered[i := false];
      }
    }

    /** The first free member of a hunt group, or -1. */
    method FindFree(members: set<int>) returns (target: int)
      requires Shape()
      ensures target == -1 || FirstFree(ports, members, target)
      ensures target == -1 ==> NoneFree(ports, members)
    {
      var j := 0;
      while j < MAX_PORTS
        invariant 0 <= j <= MAX_PORTS
        invariant forall k :: 0 <= k < j && k in members ==> ports[k].mode != Listen || ports[k].sock != NULL
      {
        if j in members && ports[j].mode == Listen && ports[j].sock == NULL {
          return j;
        }
        j := j + 1;
      }
      return -1;
    }

    /** The turn of a hunt group: a caller ns goes to the first free member, and is turned away
        only when no member is free. */
    method PollHunt(g: int, now: int) returns (target: int, ns: int)
      requires Valid() && 0 <= g < MAX_HUNTS
      modifies `ports, `answered, `free, `closingCount, closing
      ensures Valid() && Kept(old(Abs()), Abs())
      ensures target == -1 || FirstFree(old(ports), hunts[g].members, target)
      ensures target == -1 && hunts[g].active && hunts[g].listenSock != NULL ==> NoneFree(old(ports), hunts[g].members)
      ensures target == -1 || ns == NULL ==> ports == old(ports) && answered == old(answered)
      ensures target != -1 && ns != NULL ==> ns in old(free) && answered == old(answered)[target := false]
      ensures target != -1 && ns != NULL ==> ports == old(ports)[target := Accepted(old(ports[target]), ns, now)]
    {
      hide Inv, Kept, Total;
      ghost var h := Abs();
      KeptSelf(h);
      target, ns := -1, NULL;
      if !hunts[g].active || hunts[g].listenSock == NULL {
        return;
      }
      target := FindFree(hunts[g].members);
      if target >= 0 {
        ns := Accept(target, now);
      } else {
        RejectCaller();
      }
    }

    /** at_check_ring on a port. */
    method CheckRing(i: int, now: int) returns (e: RingEvent)
      requires Valid() && 0 <= i < MAX_PORTS
      modifies `ports, `answered, `closingCount, `free, closing
      ensures Valid() && Kept(old(Abs()), Abs())
      ensures e == RingDue(old(ports[i]).at, old(ports[i]).fossil, now)
      ensures ports == old(ports)[i := CheckedRing(old(ports[i]), now)]
      ensures answered == if e == Answer then old(answered)[i := true] else old(answered)
      ensures e == Connect && old(ports[i]).mode == Conn ==> old(answered[i])
    {
      hide Inv, Kept, Total, RingDue, PortOk;
      Members(Abs(), answered, i);
      var p := ports[i];
      e := RingDue(p.at, p.fossil, now);
      RingOk(p, answered[i], now);
      var q := CheckedRing(p, now);
      if e == GiveUp && p.sock != NULL {
        ClosePort(i, q);
      } else {
        SetPort(i, q, e == Answer || answered[i]);
        assert answered[i] == old(answered[i]) || e == Answer;
      }
    }

    /** The call ends with NO CARRIER and its socket is closed. */
    method Drop(i: int, p: Port)
      requires Valid() && 0 <= i < MAX_PORTS && ports[i].sock != NULL
      requires PortOk(p, answered[i]) && p.sock == ports[i].sock && p.listenSock == ports[i].listenSock
      modifies `ports, `closingCount, `free, closing
      ensures Valid() && Kept(old(Abs()), Abs())
      ensures ports == old(ports)[i := Dropped(p)]
    {
      hide Inv, Kept, Total, PortOk;
      DropOk(p, answered[i]);
      ClosePort(i, Dropped(p));
    }

    /** The turn of an active port after the ring check. */
    method PollOpen(i: int, env: PollEnv)
      requires Valid() && 0 <= i < MAX_PORTS && ports[i].sock != NULL
      modifies `ports, `answered, `closingCount, `free, closing
      ensures Valid() && Kept(old(Abs()), Abs())
      ensures ports == old(ports)[i := PolledOpen(old(ports[i]), env)] && answered == old(answered)
    {
      hide Inv, Kept, Total, PortOk, Dropped;
      var p := ports[i];
      Members(Abs(), answered, i);
      if p.pendingClose && env.safe {
        PendingOff(p, answered[i]);
        Drop(i, p.(pendingClose := false));
      } else {
        if env.received {
          ReceivedOk(p, answered[i], env.now);
          p := p.(lastRx := env.now);
        }
        if IdleTooLong(p, env) || Gone(p, env) {
          Drop(i, p);
        } else {
          SetPort(i, p, answered[i]);
        }
      }
    }

    /** The turn of an active port in the poll cycle, without the byte transfer. By the invariant
        the port has a socket. */
    method PollActive(i: int, env: PollEnv)
      requires Valid() && 0 <= i < MAX_PORTS && ports[i].mode == Conn
      modifies `ports, `answered, `closingCount, `free, closing
      ensures Valid() && Kept(old(Abs()), Abs())
      ensures ports == old(ports)[i := PolledActive(old(ports[i]), env)]
      ensures answered ==
        if RingDue(old(ports[i]).at, old(ports[i]).fossil, env.now) == Answer then old(answered)[i := true] else old(answered)
    {
      hide Inv, Kept, Total, PortOk, RingDue, CheckedRing, PolledOpen;
      ghost var h := Abs();
      KeptSelf(h);
      if ports[i].hunt < 0 && ports[i].listenSock != NULL && env.backlog {
        RejectCaller();
      }
      ghost var h1 := Abs();
      var e := CheckRing(i, env.now);
      ghost var h2 := Abs();
      KeptTrans(h, h1, h2);
      if ports[i].sock != NULL {
        PollOpen(i, env);
        KeptTrans(h, h2, Abs());
      }
    }

    // ---- FOSSIL calls ----

    /** A socket from mTCP that may be told to listen; on failure it is given back. */
    method ObtainListener() returns (ls: int)
      requires Valid()
      modifies `free
      ensures (ls == NULL && free == old(free)) || (ls in old(free) && ls >= 0 && free == old(free) - {ls})
    {
      hide Inv, Total;
      FreeIds(Abs(), answered);
      ls := Obtain();
      if ls != NULL {
        if * {
          free := free + {ls};
          ls := NULL;
        }
      }
    }

    /** The shared listening socket of a hunt group, made on the first initialisation. */
    method StartHunt(g: int)
      requires Valid() && 0 <= g < MAX_HUNTS
      modifies `hunts, `free
      ensures Valid() && Kept(old(Abs()), Abs())
      ensures hunts == old(hunts)[g := hunts[g]] && hunts[g] == old(hunts[g]).(listenSock := hunts[g].listenSock)
      ensures !hunts[g].active || old(hunts[g]).listenSock != NULL ==> hunts == old(hunts)
    {
      hide Inv, Kept, Total;
      ghost var h := Abs();
      KeptSelf(h);
      if hunts[g].active && hunts[g].listenSock == NULL {
        var x := ObtainListener();
        if x != NULL {
          HuntGains(h, answered, g, x);
          hunts := hunts[g := hunts[g].(listenSock := x)];
        }
      }
    }

    /** A port that is in no hunt group and has no listening socket tries to get one. */
    method StartOwn(i: int) returns (ls: int)
      requires Valid() && 0 <= i < MAX_PORTS
      requires ports[i].mode != Conn && !ports[i].at.ringing && !ports[i].at.connectPending
      requires ports[i].hunt < 0 && ports[i].localPort != 0 && ports[i].listenSock == NULL
      modifies `ports, `free
      ensures Valid() && Kept(old(Abs()), Abs())
      ensures ls == NULL || ls in old(free)
      ensures ports == old(ports)[i := Started(old(ports[i]), ls)]
    {
      hide Inv, Kept, Total, PortOk, Started;
      ghost var h := Abs();
      KeptSelf(h);
      Members(h, answered, i);
      var p := ports[i];
      ls := ObtainListener();
      if ls != NULL {
        StartOk(p, answered[i], ls);
        StartGains(p, ls);
        PortGains(h, answered, i, Started(p, ls), answered[i], ls);
        ports := ports[i := Started(p, ls)];
        assert answered == answered[i := answered[i]];
      } else {
        StartFails(p);
        assert Abs() == h && ports == ports[i := p];
      }
    }

    /** The last part of AH=04h: the port listens again, on a new socket if need be. */
    method StartListening(i: int) returns (ls: int)
      requires Valid() && 0 <= i < MAX_PORTS
      requires ports[i].mode != Conn ==> !ports[i].at.ringing && !ports[i].at.connectPending
      modifies `ports, `answered, `hunts, `free
      ensures Valid() && Kept(old(Abs()), Abs()) && answered == old(answered)
      ensures ls == NULL || ls in old(free)
      ensures ports == old(ports)[i := Started(old(ports[i]), ls)]
    {
      hide Inv, Kept, Total, PortOk, Started;
      ghost var h := Abs();
      KeptSelf(h);
      Members(h, answered, i);
      var p := ports[i];
      ls := NULL;
      HuntIndex(p, answered[i]);
      StartOk(p, answered[i], NULL);
      if p.hunt >= 0 {
        StartHunt(p.hunt);
        ghost var h1 := Abs();
        SetPort(i, Started(p, NULL), answered[i]);
        KeptTrans(h, h1, Abs());
      } else if p.localPort != 0 && p.mode != Conn && p.listenSock == NULL {
        ls := StartOwn(i);
      } else {
        SetPort(i, Started(p, NULL), answered[i]);
      }
    }

    /** AH=04h. */
    method FossilInit(i: int, now: int) returns (ls: int)
      requires Valid() && 0 <= i < MAX_PORTS
      modifies `ports, `answered, `hunts, `closingCount, `free, closing
      ensures Valid() && Kept(old(Abs()), Abs()) && answered == old(answered)
      ensures ports == old(ports)[i := Started(InitReset(InitClosed(old(ports[i])), now), ls)]
    {
      hide Inv, Kept, Total, PortOk, InitReset, InitClosed, Started;
      ghost var h := Abs();
      KeptSelf(h);
      Members(h, answered, i);
      var p := ports[i];
      InitOk(p, answered[i], now);
      var r := InitReset(InitClosed(p), now);
      if MustClose(p) && p.sock != NULL {
        ClosePort(i, r);
      } else {
        SetPort(i, r, answered[i]);
      }
      ghost var h1 := Abs();
      ls := StartListening(i);
      KeptTrans(h, h1, Abs());
    }

    /** AH=05h, 06h and 09h, the time stamp of AH=01h, cmd_disconnect and the AT commands act on
        the port alone. */
    method Act(i: int, a: Action, now: int)
      requires Valid() && 0 <= i < MAX_PORTS
      modifies `ports, `answered
      ensures Valid() && Kept(old(Abs()), Abs())
      ensures ports == old(ports)[i := Acted(old(ports[i]), a, now)]
      ensures answered == old(answered)[i := old(answered[i]) || AnswersCall(old(ports[i]), a)]
    {
      hide Inv, Kept, Total, PortOk, Acted;
      Members(Abs(), answered, i);
      ActOk(ports[i], answered[i], a, now);
      SetPort(i, Acted(ports[i], a, now), answered[i] || AnswersCall(ports[i], a));
    }

    /** AT&D: every port ignores, or heeds, a drop of DTR. */
    method SetDtrIgnore(ignore: bool)
      requires Valid()
      modifies `ports, `answered
      ensures Valid() && Kept(old(Abs()), Abs()) && answered == old(answered)
      ensures |ports| == |old(ports)| && forall k :: 0 <= k < MAX_PORTS ==> ports[k] == old(ports)[k].(dtrIgnore := ignore)
    {
      hide Inv, Kept, Total, PortOk;
      ghost var h := Abs();
      KeptSelf(h);
      var pi := 0;
      while pi < MAX_PORTS
        invariant 0 <= pi <= MAX_PORTS && Valid() && Kept(h, Abs()) && answered == old(answered)
        invariant hunts == h.hunts && exts == h.exts
        invariant forall k :: 0 <= k < MAX_PORTS ==>
          ports[k] == if k < pi then h.ports[k].(dtrIgnore := ignore) else h.ports[k]
      {
        ghost var h1 := Abs();
        Members(h1, answered, pi);
        DtrIgnoreOk(ports[pi], answered[pi], ignore);
        SetPort(pi, ports[pi].(dtrIgnore := ignore), answered[pi]);
        KeptTrans(h, h1, Abs());
        pi := pi + 1;
      }
    }

    /** The modem status byte of fossil_status. Bit 7 is carrier: it is reported only for a call
        that has been answered since it was accepted. Bit 6 is the ring indicator. */
    method ModemStatus(i: int) returns (msr: int)
      requires Valid() && 0 <= i < MAX_PORTS
      ensures msr == 0x33 + (if ports[i].at.ringing then 0x40 else 0) + (if Dcd(ports[i]) then 0x88 else 0)
      ensures msr / 64 % 2 == 1 <==> ports[i].at.ringing
      ensures msr / 128 == 1 ==> answered[i] && ports[i].sock != NULL
    {
      hide Inv, Total;
      Members(Abs(), answered, i);
      var p := ports[i];
      msr := 0x33;
      if p.at.ringing {
        msr := msr + 0x40;
      } else if p.at.connectPending {
      } else if p.mode == Conn && p.sock != NULL {
        if p.purgeSeen < 3 || p.dtrIgnore {
          msr := msr + 0x88;
        }
      }
    }

    /** AH=03h after its poll cycle: drives the ringing, counts the poll after a purge and
        reports. */
    method StatusRequest(i: int, now: int) returns (msr: int)
      requires Valid() && 0 <= i < MAX_PORTS
      modifies `ports, `answered, `closingCount, `free, closing
      ensures Valid() && Kept(old(Abs()), Abs())
      ensures ports == old(ports)[i := Polled(CheckedRing(old(ports[i]), now))]
      ensures answered == if RingDue(old(ports[i]).at, old(ports[i]).fossil, now) == Answer then old(answered)[i := true] else old(answered)
      ensures msr / 128 == 1 <==> Dcd(ports[i])
      ensures msr / 128 == 1 ==> answered[i]
    {
      hide Inv, Kept, Total, PortOk, CheckedRing, RingDue, Dcd;
      ghost var h := Abs();
      var e := CheckRing(i, now);
      ghost var h1 := Abs();
      Members(h1, answered, i);
      PolledOk(ports[i], answered[i]);
      SetPort(i, Polled(ports[i]), answered[i]);
      KeptTrans(h, h1, Abs());
      msr := ModemStatus(i);
    }

    // ---- Control commands ----

    /** cmd_listen. Sockets are lost exactly when the port has one: its pointers are cleared
        without closing what they point to. */
    method CmdListen(i: int, tcpPort: int)
      requires Valid() && 0 <= i < MAX_PORTS
      modifies `ports
      ensures Valid() && Shrinks(old(Abs()), Abs())
      ensures Kept(old(Abs()), Abs()) <==> old(ports[i]).sock == NULL && old(ports[i]).listenSock == NULL
      ensures ports == old(ports)[i := Listening(old(ports[i]), tcpPort)]
    {
      hide Inv, Kept, Total, PortOk, Shrinks;
      Members(Abs(), answered, i);
      var p := Listening(ports[i], tcpPort);
      ListeningOk(ports[i], answered[i], tcpPort);
      PortForgets(Abs(), answered, i, p, answered[i]);
      ports := ports[i := p];
      assert answered == answered[i := answered[i]];
    }

    /** A port becomes a member of a new hunt group. */
    method JoinHunt(i: int, tcpPort: int, slot: int)
      requires Valid() && 0 <= i < MAX_PORTS && 0 <= slot < MAX_HUNTS
      modifies `ports
      ensures Valid() && Shrinks(old(Abs()), Abs())
      ensures Kept(old(Abs()), Abs()) <==> old(ports[i]).sock == NULL && old(ports[i]).listenSock == NULL
      ensures ports == old(ports)[i := HuntMember(old(ports[i]), tcpPort, slot)]
    {
      hide Inv, Kept, Total, PortOk, Shrinks;
      Members(Abs(), answered, i);
      var p := HuntMember(ports[i], tcpPort, slot);
      HuntMemberOk(ports[i], answered[i], tcpPort, slot);
      PortForgets(Abs(), answered, i, p, answered[i]);
      ports := ports[i := p];
      assert answered == answered[i := answered[i]];
    }

    /** cmd_hunt_listen. Sockets are lost exactly when a slot is free for the group and one of
        its ports has a socket. */
    method CmdHuntListen(members: set<int>, tcpPort: int)
      requires Valid()
      modifies `ports, `hunts
      ensures Valid() && Shrinks(old(Abs()), Abs())
      ensures Kept(old(Abs()), Abs()) <==> (old(hunts[0]).active && old(hunts[1]).active) || AllIdle(old(ports), members, MAX_PORTS)
      ensures ports == HuntPorts(old(ports), members, tcpPort, FreeHunt(old(hunts)))
    {
      hide Inv, Kept, Total, PortOk, Shrinks;
      ghost var h := Abs();
      ShrinksSelf(h);
      var slot := 0;
      while slot < MAX_HUNTS && hunts[slot].active
        invariant 0 <= slot <= MAX_HUNTS && forall k :: 0 <= k < slot ==> hunts[k].active
      {
        slot := slot + 1;
      }
      if slot == MAX_HUNTS {
        assert ports == HuntPorts(old(ports), members, tcpPort, slot);
        return;
      }
      HuntSet(h, answered, slot, Hunt(NULL, tcpPort, members, true));
      hunts := hunts[slot := Hunt(NULL, tcpPort, members, true)];
      var i := 0;
      while i < MAX_PORTS
        invariant 0 <= i <= MAX_PORTS && Valid() && Shrinks(h, Abs())
        invariant Kept(h, Abs()) <==> AllIdle(h.ports, members, i)
        invariant forall k :: 0 <= k < MAX_PORTS ==>
          ports[k] == if k < i then HuntPort(h.ports[k], k, members, tcpPort, slot) else h.ports[k]
      {
        if i in members {
          ghost var h1 := Abs();
          JoinHunt(i, tcpPort, slot);
          ShrinksTrans(h, h1, Abs());
        }
        i := i + 1;
      }
      assert ports == HuntPorts(old(ports), members, tcpPort, slot);
    }

    // ---- External sockets ----

    /** MUX_SOCK_ALLOC: the handle, or 255; recvBuffer says whether the buffer can be had. */
    method MuxAlloc(recvBuffer: bool) returns (handle: int)
      requires Valid()
      modifies `exts, `free
      ensures Valid() && Kept(old(Abs()), Abs())
      ensures handle == 255 ==> Abs() == old(Abs())
      ensures handle != 255 ==> 0 <= handle < MAX_EXTS && exts[handle].sock in old(free)
      ensures handle != 255 ==> SlotTaken(old(exts), exts, handle, exts[handle].sock)
    {
      hide Inv, Kept, Total;
      ghost var h := Abs();
      KeptSelf(h);
      FreeIds(h, answered);
      handle := 255;
      var slot := 0;
      while slot < MAX_EXTS && !(exts[slot].state == Free && exts[slot].sock == NULL)
        invariant 0 <= slot <= MAX_EXTS && forall k :: 0 <= k < slot ==> exts[k].state != Free || exts[k].sock != NULL
      {
        slot := slot + 1;
      }
      if slot == MAX_EXTS {
        return;
      }
      var ns := Obtain();
      if ns == NULL {
        return;
      }
      if !recvBuffer {
        free := free + {ns};
        assert Abs() == h;
        return;
      }
      var e := exts[slot].(sock := ns, state := Free);
      ExtGains(h, answered, slot, e);
      exts := exts[slot := e];
      handle := slot;
    }

    /** An external slot changes without touching its socket. */
    method SetExt(j: int, e: Ext)
      requires Valid() && 0 <= j < MAX_EXTS && e.sock == exts[j].sock
      modifies `exts
      ensures Valid() && Kept(old(Abs()), Abs()) && exts == old(exts)[j := e]
    {
      hide Inv, Kept, Total;
      ExtSame(Abs(), answered, j, e);
      exts := exts[j := e];
    }

    /** MUX_SOCK_CONNECT, MUX_SOCK_CLOSE and MUX_SOCK_STATUS, on a handle that is in use. */
    method Mux(handle: nat, op: MuxOp)
      requires Valid()
      modifies `exts
      ensures Valid() && Kept(old(Abs()), Abs())
      ensures exts == if handle < MAX_EXTS && old(exts)[handle].sock != NULL
        then old(exts)[handle := MuxActed(old(exts)[handle], op)] else old(exts)
    {
      hide Inv, Kept, Total;
      KeptSelf(Abs());
      if handle < MAX_EXTS && exts[handle].sock != NULL {
        SetExt(handle, MuxActed(exts[handle], op));
      }
    }

    /** The turn of an external slot in the poll cycle. */
    method ServiceExt(j: int, env: ExtEnv)
      requires Valid() && 0 <= j < MAX_EXTS
      modifies `exts, `closingCount, `free, closing
      ensures Valid() && Kept(old(Abs()), Abs())
      ensures exts == old(exts)[j := Serviced(old(exts[j]), env)]
    {
      hide Inv, Kept, Total;
      var e := exts[j];
      if e.sock == NULL {
        KeptSelf(Abs());
        return;
      }
      var f := Serviced(e, env);
      if f.sock == NULL {
        ExtCloses(Abs(), answered, j, f);
        exts := exts[j := f];
        CloseFast(e.sock);
      } else {
        SetExt(j, f);
      }
    }

    // ---- Runs ----

    /** A step of the poll cycle; a port's turn goes by its mode. */
    method HandleTurn(e: Event)
      requires Valid() && e.Turn()
      modifies this, closing
      ensures Valid() && Kept(old(Abs()), Abs())
      ensures Happens(old(Abs()), old(answered), e, Abs(), answered)
    {
      hide Inv, Kept, Total, PortOk, Shrinks, CheckedRing, PolledActive, InitReset, InitClosed, Started, Acted, RingDue, Serviced;
      ghost var h := Abs();
      ShrinksSelf(h);
      match e {
        case DrainQueues(done) => DrainClosing(done);
        case HuntTurn(g, now) =>
          if 0 <= g < MAX_HUNTS {
            var target, ns := PollHunt(g, now);
          }
        case PortTurn(i, env) =>
          if 0 <= i < MAX_PORTS && ports[i].initialized {
            if ports[i].mode == Listen && ports[i].hunt < 0 {
              var ns := Accept(i, env.now);
            } else if ports[i].mode == Conn {
              PollActive(i, env);
            }
          }
        case ExtTurn(j, env) =>
          if 0 <= j < MAX_EXTS {
            ServiceExt(j, env);
          }
      }
    }

    /** A FOSSIL call, or an AT command in one; only managed ports take them. */
    method HandleFossil(e: Event)
      requires Valid() && e.Fossil()
      modifies this, closing
      ensures Valid() && Kept(old(Abs()), Abs())
      ensures Happens(old(Abs()), old(answered), e, Abs(), answered)
    {
      hide Inv, Kept, Total, PortOk, Shrinks, CheckedRing, PolledActive, InitReset, InitClosed, Started, Acted, RingDue, Serviced;
      ghost var h := Abs();
      ShrinksSelf(h);
      match e {
        case InitCall(i, now) =>
          if 0 <= i < MAX_PORTS && ports[i].initialized {
            var ls := FossilInit(i, now);
          }
        case ActCall(i, a, now) =>
          if 0 <= i < MAX_PORTS && (ports[i].initialized || a == Disconnect) {
            Act(i, a, now);
          }
        case DtrMode(ignore) => SetDtrIgnore(ignore);
        case StatusCall(i, now) =>
          if 0 <= i < MAX_PORTS && ports[i].initialized {
            var msr := StatusRequest(i, now);
          }
      }
    }

    /** A control or MUX command. */
    method HandleCommand(e: Event)
      requires Valid() && !e.Turn() && !e.Fossil()
      modifies this, closing
      ensures Valid() && Shrinks(old(Abs()), Abs()) && (!e.ListenOn? && !e.HuntOn? ==> Kept(old(Abs()), Abs()))
      ensures Happens(old(Abs()), old(answered), e, Abs(), answered)
    {
      hide Inv, Kept, Total, PortOk, Shrinks, CheckedRing, PolledActive, InitReset, InitClosed, Started, Acted, RingDue, Serviced;
      ghost var h := Abs();
      ShrinksSelf(h);
      match e {
        case ListenOn(i, tcpPort) =>
          if 0 <= i < MAX_PORTS {
            CmdListen(i, tcpPort);
          }
        case HuntOn(members, tcpPort) => CmdHuntListen(members, tcpPort);
        case MuxNew(recvBuffer) => var handle := MuxAlloc(recvBuffer);
        case MuxDo(handle, op) => Mux(handle, op);
      }
      KeptShrinks(h, Abs());
    }

    /** One event. */
    method Handle(e: Event)
      requires Valid()
      modifies this, closing
      ensures Valid() && Shrinks(old(Abs()), Abs())
      ensures !e.ListenOn? && !e.HuntOn? ==> Kept(old(Abs()), Abs())
      ensures StepTaken(old(Now()), e, Now())
    {
      hide Inv, Kept, Total, PortOk, Shrinks, Happens;
      ghost var h := Abs();
      if e.Turn() {
        HandleTurn(e);
        KeptShrinks(h, Abs());
      } else if e.Fossil() {
        HandleFossil(e);
        KeptShrinks(h, Abs());
      } else {
        HandleCommand(e);
      }
    }

    /** Safety over every run: whatever events come in whatever order, every socket stays in at
        most one place, a port is in a call exactly when it has a socket, and carrier is seen
        only on answered calls. No socket is lost unless a listen command comes. */
    method Run(es: seq<Event>) returns (ghost trace: seq<Snapshot>)
      requires Valid()
      modifies this, closing
      ensures Valid() && Shrinks(old(Abs()), Abs())
      ensures (forall k :: 0 <= k < |es| ==> !es[k].ListenOn? && !es[k].HuntOn?) ==> Kept(old(Abs()), Abs())
      ensures (forall s :: s >= 0 ==> Total(Abs(), s) <= 1) && |Abs().queue| <= 4
      ensures forall i :: 0 <= i < MAX_PORTS ==> (ports[i].mode == Conn <==> ports[i].sock != NULL)
      ensures forall i :: 0 <= i < MAX_PORTS ==> Dcd(ports[i]) ==> answered[i]
      ensures IsRun(trace, es) && trace[0] == old(Now()) && trace[|es|] == Now()
    {
      hide Inv, Kept, Total, PortOk, Shrinks, Dcd, StepTaken, IsRun;
      ghost var h := Abs();
      ShrinksSelf(h);
      trace := [Now()];
      RunOf(trace);
      var k := 0;
      while k < |es|
        invariant 0 <= k <= |es| && Valid() && Shrinks(h, Abs())
        invariant (forall j :: 0 <= j < k ==> !es[j].ListenOn? && !es[j].HuntOn?) ==> Kept(h, Abs())
        invariant |trace| == k + 1 && IsRun(trace, es[..k]) && trace[0] == old(Now()) && trace[k] == Now()
      {
        ghost var h1 := Abs();
        Handle(es[k]);
        ShrinksTrans(h, h1, Abs());
        RunMore(trace, es[..k], es[k], Now());
        assert es[..k + 1] == es[..k] + [es[k]];
        trace := trace + [Now()];
        k := k + 1;
      }
      assert es[..k] == es;
      Safety(Abs(), answered);
    }
  }

  lemma RunOf(trace: seq<Snapshot>)
    requires |trace| == 1 && Inv(trace[0].h, trace[0].answered)
    ensures IsRun(trace, [])
  {
  }

  lemma RunMore(trace: seq<Snapshot>, es: seq<Event>, e: Event, y: Snapshot)
    requires IsRun(trace, es) && StepTaken(trace[|es|], e, y) && Inv(y.h, y.answered)
    ensures IsRun(trace + [y], es + [e])
  {
    hide Inv, StepTaken;
    assert forall k :: 0 <= k < |trace| ==> (trace + [y])[k] == trace[k];
  }

  lemma FreeIds(h: Holders, answered: seq<bool>)
    requires Inv(h, answered)
    ensures forall x :: x in h.free ==> x >= 0
  {
  }

  lemma Members(h: Holders, answered: seq<bool>, i: int)
    requires Inv(h, answered) && 0 <= i < MAX_PORTS
    ensures PortOk(h.ports[i], answered[i])
  {
  }

  lemma DropOk(p: Port, answered: bool)
    requires PortOk(p, answered)
    ensures PortOk(Dropped(p), answered) && Dropped(p).sock == NULL && Dropped(p).listenSock == p.listenSock
  {
  }

  lemma PendingOff(p: Port, answered: bool)
    requires PortOk(p, answered)
    ensures PortOk(p.(pendingClose := false), answered)
  {
  }

  lemma ReceivedOk(p: Port, answered: bool, now: int)
    requires PortOk(p, answered)
    ensures PortOk(p.(lastRx := now), answered)
  {
  }

  lemma HuntIndex(p: Port, answered: bool)
    requires PortOk(p, answered)
    ensures -1 <= p.hunt < MAX_HUNTS
  {
  }

  lemma StartOk(p: Port, answered: bool, ls: int)
    requires PortOk(p, answered) && ls >= NULL
    requires p.mode != Conn ==> !p.at.ringing && !p.at.connectPending
    ensures PortOk(Started(p, ls), answered) && Started(p, ls).sock == p.sock
    ensures ls == NULL ==> Started(p, ls).listenSock == p.listenSock
  {
  }

  lemma StartGains(p: Port, ls: int)
    requires p.mode != Conn && p.hunt < 0 && p.localPort != 0 && p.listenSock == NULL && ls != NULL
    ensures Started(p, ls) == p.(listenSock := ls, mode := Listen)
  {
  }

  lemma StartFails(p: Port)
    requires p.mode != Conn && p.hunt < 0 && p.listenSock == NULL
    ensures Started(p, NULL) == p
  {
  }

  /** Re-initialising keeps the port's invariant: an unanswered call goes on ringing. */
  lemma InitOk(p: Port, answered: bool, now: int)
    requires PortOk(p, answered)
    ensures var q := InitClosed(p);
      var r := InitReset(q, now);
      PortOk(r, answered) && r.listenSock == p.listenSock && (if MustClose(p) then r.sock == NULL else r.sock == p.sock) &&
      (r.mode != Conn ==> !r.at.ringing && !r.at.connectPending)
  {
  }

  lemma AtOk(p: Port, answered: bool, c: AtCommand, now: int)
    requires PortOk(p, answered)
    ensures var q := AtCommanded(p, c, now);
      PortOk(q, answered || Answers(p, c)) && q.sock == p.sock && q.listenSock == p.listenSock
  {
  }

  lemma DtrOk(p: Port, answered: bool, raise: bool, now: int)
    requires PortOk(p, answered)
    ensures var q := DtrSet(p, raise, now);
      PortOk(q, answered || (raise && p.at.ringing && p.mode == Conn)) && q.sock == p.sock && q.listenSock == p.listenSock
  {
  }

  lemma FlagsOk(p: Port, answered: bool, now: int)
    requires PortOk(p, answered)
    ensures PortOk(Deinit(p), answered) && Deinit(p).sock == p.sock && Deinit(p).listenSock == p.listenSock
    ensures PortOk(Purged(p, now), answered) && Purged(p, now).sock == p.sock && Purged(p, now).listenSock == p.listenSock
    ensures PortOk(Disconnecting(p), answered) && Disconnecting(p).sock == p.sock && Disconnecting(p).listenSock == p.listenSock
  {
    hide Elapsed;
  }

  lemma TransmitOk(p: Port, answered: bool, now: int)
    requires PortOk(p, answered)
    ensures PortOk(p.(lastTx := now), answered)
  {
  }

  /** Every such action keeps the port's invariant. */
  lemma ActOk(p: Port, answered: bool, a: Action, now: int)
    requires PortOk(p, answered)
    ensures var q := Acted(p, a, now);
      PortOk(q, answered || AnswersCall(p, a)) && q.sock == p.sock && q.listenSock == p.listenSock
  {
    hide PortOk, Deinit, Purged, Disconnecting, AtCommanded, DtrSet;
    FlagsOk(p, answered, now);
    match a
    case SetDtr(raise) => DtrOk(p, answered, raise, now);
    case DeinitFossil =>
    case PurgeOutput =>
    case Disconnect =>
    case TransmitByte => TransmitOk(p, answered, now);
    case At(cmd) => AtOk(p, answered, cmd, now);
  }

  lemma DtrIgnoreOk(p: Port, answered: bool, ignore: bool)
    requires PortOk(p, answered)
    ensures PortOk(p.(dtrIgnore := ignore), answered)
  {
  }

  lemma PolledOk(p: Port, answered: bool)
    requires PortOk(p, answered)
    ensures PortOk(Polled(p), answered) && Polled(p).sock == p.sock && Polled(p).listenSock == p.listenSock
  {
  }

  lemma ListeningOk(p: Port, answered: bool, tcpPort: int)
    requires PortOk(p, answered)
    ensures PortOk(Listening(p, tcpPort), answered)
    ensures Listening(p, tcpPort).sock == Listening(p, tcpPort).listenSock == NULL
  {
  }

  lemma HuntMemberOk(p: Port, answered: bool, tcpPort: int, slot: int)
    requires PortOk(p, answered) && 0 <= slot < MAX_HUNTS
    ensures PortOk(HuntMember(p, tcpPort, slot), answered)
  {
  }

  lemma ShrinksSelf(h: Holders)
    requires IsHolders(h)
    ensures Shrinks(h, h) && Kept(h, h)
  {
  }

  lemma KeptShrinks(h: Holders, k: Holders)
    requires Kept(h, k) || Shrinks(h, k)
    ensures Shrinks(h, k)
  {
  }

  /** What the invariant says to a reader. */
  lemma Safety(h: Holders, answered: seq<bool>)
    requires Inv(h, answered)
    ensures forall s :: s >= 0 ==> Total(h, s) <= 1
    ensures forall i :: 0 <= i < MAX_PORTS ==> (h.ports[i].mode == Conn <==> h.ports[i].sock != NULL)
    ensures forall i :: 0 <= i < MAX_PORTS ==> Dcd(h.ports[i]) ==> answered[i]
  {
    hide Total;
  }

  lemma AcceptOk(p: Port, answered: bool, ns: int, now: int)
    requires PortOk(p, answered) && p.mode == Listen && ns >= 0
    ensures PortOk(Accepted(p, ns, now), false) && p.sock == NULL
  {
  }

  /** Every outcome of a ring check keeps the port's invariant. */
  lemma RingOk(p: Port, answered: bool, now: int)
    requires PortOk(p, answered)
    ensures var e := RingDue(p.at, p.fossil, now);
      var q := CheckedRing(p, now);
      PortOk(q, answered || e == Answer) && q.listenSock == p.listenSock &&
      (if e == GiveUp then q.sock == NULL else q.sock == p.sock) &&
      (e == Connect && p.mode == Conn ==> answered)
  {
    hide Elapsed;
  }

  /** One turn of the drain. */
  lemma DrainTurn(q: seq<int>, cur: seq<int>, done: set<int>, i: int)
    requires 0 <= i < |cur| <= |q| && cur[..i + 1] == q[..i + 1]
    ensures cur[i] == q[i] && cur[..i] == q[..i]
    ensures DoneIn(q[i..], done) == DoneIn(q[i + 1..], done) + if q[i] in done then {q[i]} else {}
    ensures var next := if q[i] in done then Removed(cur, i) else cur;
      next[..i] == q[..i] && Drained(cur, done, i + 1) == Drained(next, done, i)
  {
    hide Drained, DoneIn, Removed;
    assert cur[i] == cur[..i + 1][i];
    assert cur[..i] == cur[..i + 1][..i];
    assert q[i..] == [q[i]] + q[i + 1..];
    DoneCons(q[i], q[i + 1..], done);
    DrainStep(cur, done, i + 1);
    RemovedFront(cur, i);
  }

  lemma RemovedFront(cur: seq<int>, i: int)
    requires 0 <= i < |cur|
    ensures Removed(cur, i)[..i] == cur[..i]
  {
  }

  lemma NotDone(x: int, q: seq<int>, done: set<int>)
    requires x !in q
    ensures x !in DoneIn(q, done)
  {
  }

  lemma DrainStep(q: seq<int>, done: set<int>, n: int)
    requires 0 <= n <= |q|
    ensures n == 0 ==> Drained(q, done, n) == q
    ensures n > 0 && q[n - 1] in done ==> Drained(q, done, n) == Drained(Removed(q, n - 1), done, n - 1)
    ensures n > 0 && q[n - 1] !in done ==> Drained(q, done, n) == Drained(q, done, n - 1)
  {
  }

  /** No entry of the queue is free or in the queue twice. */
  ghost predicate Distinct(q: seq<int>, free: set<int>)
  {
    forall i :: 0 <= i < |q| ==> q[i] !in free && q[i] !in q[i + 1..]
  }

  lemma DistinctAt(q: seq<int>, free: set<int>, i: int)
    requires Distinct(q, free) && 0 <= i < |q|
    ensures q[i] !in free && q[i] !in q[i + 1..]
  {
  }

  lemma QueueDistinct(h: Holders, answered: seq<bool>)
    requires Inv(h, answered)
    ensures Distinct(h.queue, h.free)
  {
    hide Inv;
    forall i | 0 <= i < |h.queue| ensures h.queue[i] !in h.free && h.queue[i] !in h.queue[i + 1..] {
      FreedOnce(h, answered, i);
    }
  }

  /** An entry of the queue is neither free nor further back in the queue. */
  lemma FreedOnce(h: Holders, answered: seq<bool>, i: int)
    requires Inv(h, answered) && 0 <= i < |h.queue|
    ensures h.queue[i] !in h.free && h.queue[i] !in h.queue[i + 1..]
  {
    hide PortsCount, PortOk, QueueCount, ExtsCount, HuntsCount;
    var x := h.queue[i];
    assert Total(h, x) <= 1;
    assert h.queue == h.queue[..i] + ([x] + h.queue[i + 1..]);
    QueueSplit(h.queue[..i], [x] + h.queue[i + 1..], x);
    QueueSplit([x], h.queue[i + 1..], x);
    QueueOne(x, x);
    CountIn(h.queue[i + 1..], x);
  }
}
