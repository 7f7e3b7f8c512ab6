/**
 The life of a call, seen from one port: for each thing that can be observed of it, exactly which
 events change it and when, in terms of the port's fields. The step relation of Modem says what
 an operation does to all fields; here each statement is about one field and all operations.
 */
module Lifecycle {
  import opened Call
  import opened Sockets
  import opened Modem

  /** The part of a step that concerns port number i: from p to q, answered calls from pa to qa;
      slot is the hunt group that a listen command would set up. */
  ghost predicate Moves(p: Port, pa: bool, i: int, e: Event, q: Port, qa: bool, slot: nat)
  {
    match e
    case HuntTurn(_, now) => (q == p && qa == pa) || ComesTo(p, now, q, qa)
    case PortTurn(j, env) =>
      if j != i || !p.initialized then q == p && qa == pa
      else if p.mode == Conn then q == PolledActive(p, env) && qa == (pa || RingDue(p.at, p.fossil, env.now) == Answer)
      else (q == p && qa == pa) || (p.hunt < 0 && ComesTo(p, env.now, q, qa))
    case InitCall(j, now) =>
      qa == pa && if j == i && p.initialized then exists ls :: q == Started(InitReset(InitClosed(p), now), ls) else q == p
    case ActCall(j, act, now) =>
      if j == i && (p.initialized || act == Disconnect) then q == Acted(p, act, now) && qa == (pa || AnswersCall(p, act))
      else q == p && qa == pa
    case DtrMode(ignore) => q == p.(dtrIgnore := ignore) && qa == pa
    case StatusCall(j, now) =>
      if j == i && p.initialized
      then q == Polled(CheckedRing(p, now)) && qa == (pa || RingDue(p.at, p.fossil, now) == Answer)
      else q == p && qa == pa
    case ListenOn(j, tcpPort) => qa == pa && q == if j == i then Listening(p, tcpPort) else p
    case HuntOn(members, tcpPort) => qa == pa && q == HuntPort(p, i, members, tcpPort, slot)
    case _ => q == p && qa == pa
  }

  ghost predicate ComesTo(p: Port, now: int, q: Port, qa: bool)
  {
    p.mode == Listen && !qa && exists ns :: ns >= 0 && q == Accepted(p, ns, now)
  }

  /** Every step of the modem is such a step for every port. */
  lemma EveryPortMoves(h: Holders, a: seq<bool>, e: Event, k: Holders, b: seq<bool>, i: int)
    requires Inv(h, a) && Happens(h, a, e, k, b) && 0 <= i < MAX_PORTS
    ensures |k.ports| == MAX_PORTS && |b| == MAX_PORTS
    ensures Moves(h.ports[i], a[i], i, e, k.ports[i], b[i], FreeHunt(h.hunts))
  {
    hide Total, PortOk, PolledActive, CheckedRing, Polled, Acted, Started, InitReset, InitClosed, RingDue, Accepted, Listening, HuntMember;
  }

  // ---- What is due at a ring check ----

  /** It is time for the next ring: 110 ticks after the last one. */
  predicate RingTime(p: Port, now: int)
  {
    p.at.ringing && !p.at.connectPending && Elapsed(now, p.at.ringTick) >= 110
  }

  /** The call is picked up after S0 rings. */
  predicate PicksUp(p: Port, now: int)
  {
    RingTime(p, now) && p.fossil && 1 <= p.at.s0 <= p.at.ringsSent
  }

  /** Nobody has answered ten rings. */
  predicate RingsOut(p: Port, now: int)
  {
    RingTime(p, now) && !(p.fossil && 1 <= p.at.s0 <= p.at.ringsSent) && p.at.ringsSent >= 10
  }

  /** Nothing was sent or received for the idle timeout, in units of 18 ticks. */
  predicate Silent(p: Port, env: PollEnv)
  {
    p.idleTimeout > 0 && !env.received &&
    Elapsed(env.now, p.lastTx) > 18 * p.idleTimeout && Elapsed(env.now, p.lastRx) > 18 * p.idleTimeout
  }

  /** The poll cycle closes the call: only where it is safe, and because a close is pending, the
      connection is closed, the caller is gone for good, or the line was silent. */
  predicate PollCloses(p: Port, env: PollEnv)
  {
    env.safe && (p.pendingClose || env.closed || (env.remoteGone && Elapsed(env.now, p.connTick) > 182) || Silent(p, env))
  }

  lemma DueIs(p: Port, now: int)
    ensures RingDue(p.at, p.fossil, now) == Answer <==> PicksUp(p, now)
    ensures RingDue(p.at, p.fossil, now) == GiveUp <==> RingsOut(p, now)
    ensures RingsOut(p, now) ==> p.at.ringing && !p.at.connectPending
    ensures RingDue(p.at, p.fossil, now) == Ring <==> RingTime(p, now) && !PicksUp(p, now) && !RingsOut(p, now)
    ensures RingDue(p.at, p.fossil, now) == Connect <==> p.at.connectPending && Elapsed(now, p.at.connectTick) >= 36
  {
    hide Elapsed;
  }

  /** Just now is not long ago. */
  lemma JustNow(now: int)
    ensures Elapsed(now, now) == 0
  {
  }

  // ---- The end of a call ----

  /** A port whose call has not rung out, in the rest of its turn. */
  lemma OpenEnds(p: Port, env: PollEnv)
    ensures var q := PolledOpen(p, env);
      PollCloses(p, env) ==> (exists r :: q == Dropped(r) && r.listenSock == p.listenSock && r.hunt == p.hunt)
    ensures !PollCloses(p, env) ==> PolledOpen(p, env) == if env.received then p.(lastRx := env.now) else p
  {
    JustNow(env.now);
    hide Elapsed, Dropped;
    if PollCloses(p, env) {
      assert p.pendingClose ==> PolledOpen(p, env) == Dropped(p.(pendingClose := false));
      assert !p.pendingClose ==> PolledOpen(p, env) == Dropped(if env.received then p.(lastRx := env.now) else p);
    }
  }

  /** The turn of an active port: the call is over exactly when it rings out or the poll cycle
      closes it. The port then listens if it has a listening socket or a hunt group, and is in
      command mode unless the call rang out. */
  lemma TurnEnds(p: Port, pa: bool, env: PollEnv)
    requires PortOk(p, pa) && p.mode == Conn
    ensures var q := PolledActive(p, env);
      (q.sock == NULL <==> RingsOut(p, env.now) || PollCloses(p, env)) &&
      (q.sock != NULL ==> q.sock == p.sock && q.mode == Conn) &&
      (q.sock == NULL ==> q.mode == (if p.listenSock != NULL || p.hunt >= 0 then Listen else Disc)) &&
      (q.sock == NULL ==> !q.at.ringing && !q.at.connectPending && (q.at.cmdMode <==> p.at.cmdMode || !RingsOut(p, env.now)))
  {
    DueIs(p, env.now);
    var r := CheckedRing(p, env.now);
    OpenEnds(r, env);
    hide RingDue, RingsOut, PolledOpen, Elapsed;
    if !RingsOut(p, env.now) {
      assert r.sock == p.sock && PollCloses(r, env) == PollCloses(p, env);
    }
  }

  lemma TurnCloses(p: Port, env: PollEnv)
    requires p.sock != NULL
    ensures PolledActive(p, env).pendingClose <==> p.pendingClose && (RingsOut(p, env.now) || !env.safe)
  {
    DueIs(p, env.now);
    hide RingDue, RingsOut, Elapsed;
  }

  // ---- What AH=03h and AH=04h do ----

  lemma StatusGives(p: Port, pa: bool, now: int)
    requires PortOk(p, pa)
    ensures var q := Polled(CheckedRing(p, now));
      q.sock == (if RingsOut(p, now) then NULL else p.sock) && (q.sock != NULL ==> q.mode == Conn) &&
      q.pendingClose == p.pendingClose
  {
    DueIs(p, now);
    hide RingDue, RingsOut, Elapsed;
  }

  lemma InitGives(p: Port, pa: bool, ls: int, now: int)
    requires PortOk(p, pa)
    ensures var q := Started(InitReset(InitClosed(p), now), ls);
      q.sock == (if p.pendingClose || (p.mode == Conn && p.purgeSeen >= 3) then NULL else p.sock) &&
      (q.sock != NULL ==> q.mode == Conn) && !q.pendingClose
  {
  }

  /** An event of the poll cycle or of AH=03h, AH=04h, AH=05h and so on at this port. */
  predicate TurnOf(p: Port, i: int, e: Event)
  {
    e.PortTurn? && e.i == i && p.initialized && p.mode == Conn
  }

  predicate StatusOf(p: Port, i: int, e: Event)
  {
    e.StatusCall? && e.i == i && p.initialized
  }

  predicate InitOf(p: Port, i: int, e: Event)
  {
    e.InitCall? && e.i == i && p.initialized
  }

  predicate Does(p: Port, i: int, e: Event, act: Action)
  {
    e.ActCall? && e.i == i && e.a == act && (p.initialized || act == Disconnect)
  }

  /** AH=04h finds that the call is over. */
  predicate InitCloses(p: Port)
  {
    p.pendingClose || p.purgeSeen >= 3
  }

  /** The events that end the call of a port. */
  predicate Ends(p: Port, i: int, e: Event, slot: nat)
  {
    (TurnOf(p, i, e) && (RingsOut(p, e.env.now) || PollCloses(p, e.env))) ||
    (StatusOf(p, i, e) && RingsOut(p, e.time)) || (InitOf(p, i, e) && InitCloses(p)) ||
    (e.ListenOn? && e.i == i) || (e.HuntOn? && slot < 2 && i in e.members)
  }

  /** A call ends in just these ways; otherwise the port keeps its socket. */
  lemma CallEnds(p: Port, pa: bool, i: int, e: Event, q: Port, qa: bool, slot: nat)
    requires PortOk(p, pa) && p.sock != NULL && Moves(p, pa, i, e, q, qa, slot)
    ensures q.sock == NULL <==> Ends(p, i, e, slot)
    ensures q.sock != NULL ==> q.sock == p.sock && q.mode == Conn
  {
    hide RingsOut, PollCloses, PolledActive, Polled, CheckedRing, Started, InitReset, InitClosed, RingDue, Accepted;
    match e
    case PortTurn(_, env) => TurnEnds(p, pa, env);
    case StatusCall(_, now) => StatusGives(p, pa, now);
    case InitCall(_, now) =>
      if InitOf(p, i, e) {
        var ls :| q == Started(InitReset(InitClosed(p), now), ls);
        InitGives(p, pa, ls, now);
      }
    case ActCall(_, act, now) => ActKeeps(p, act, now);
    case _ =>
  }

  lemma ActKeeps(p: Port, act: Action, now: int)
    ensures Acted(p, act, now).sock == p.sock && Acted(p, act, now).mode == p.mode
  {
    hide SendConnect, Elapsed, AtCommanded;
    match act
    case At(cmd) => AtKeeps(p, cmd, now);
    case _ =>
  }

  lemma AtKeeps(p: Port, cmd: AtCommand, now: int)
    ensures AtCommanded(p, cmd, now).sock == p.sock && AtCommanded(p, cmd, now).mode == p.mode
  {
    hide SendConnect;
  }

  // ---- The beginning ----

  function When(e: Event): int
  {
    match e
    case HuntTurn(_, now) => now
    case PortTurn(_, env) => env.now
    case InitCall(_, now) => now
    case ActCall(_, _, now) => now
    case StatusCall(_, now) => now
    case _ => 0
  }

  predicate CallComes(p: Port, q: Port)
  {
    p.sock == NULL && q.sock != NULL
  }

  /** A port without a call gets one only while it listens, in its own turn or that of its hunt
      group; it has then rung once, is not answered, and all its clocks start. */
  lemma CallBegins(p: Port, pa: bool, i: int, e: Event, q: Port, qa: bool, slot: nat)
    requires PortOk(p, pa) && CallComes(p, q) && Moves(p, pa, i, e, q, qa, slot)
    ensures p.mode == Listen && q.mode == Conn && !qa
    ensures e.HuntTurn? || (e.PortTurn? && e.i == i && p.initialized && p.hunt < 0)
    ensures q.at.ringing && !q.at.connectPending && q.at.ringsSent == 1
    ensures q.at.ringTick == q.connTick == q.lastRx == q.lastTx == When(e)
  {
    hide RingsOut, PolledActive, Polled, CheckedRing, Started, InitReset, InitClosed, RingDue, Acted;
    match e
    case StatusCall(_, now) => StatusGives(p, pa, now);
    case InitCall(_, now) =>
      if InitOf(p, i, e) {
        var ls :| q == Started(InitReset(InitClosed(p), now), ls);
        InitGives(p, pa, ls, now);
      }
    case ActCall(_, act, now) => ActKeeps(p, act, now);
    case _ =>
  }

  // ---- The answer ----

  /** The events that answer the call: S0 rings have passed, DTR is raised while it rings, ATA or
      ATO. */
  predicate AnswersNow(p: Port, i: int, e: Event)
  {
    (TurnOf(p, i, e) && PicksUp(p, e.env.now)) || (StatusOf(p, i, e) && PicksUp(p, e.time)) ||
    (p.mode == Conn && (Does(p, i, e, Action.At(Ata)) || Does(p, i, e, Action.At(Ato)) || (Does(p, i, e, SetDtr(true)) && p.at.ringing)))
  }

  lemma CallAnswered(p: Port, pa: bool, i: int, e: Event, q: Port, qa: bool, slot: nat)
    requires PortOk(p, pa) && Moves(p, pa, i, e, q, qa, slot) && !CallComes(p, q)
    ensures qa <==> pa || AnswersNow(p, i, e)
  {
    hide PolledActive, CheckedRing, Polled, Started, InitReset, Elapsed, RingDue, PicksUp, RingsOut, RingTime;
    if e.PortTurn? {
      DueIs(p, e.env.now);
    } else if e.StatusCall? {
      DueIs(p, e.time);
    }
  }

  // ---- Asking for the end ----

  /** DTR lowered, or the driver given up with DTR raised, unless AT&D0; ATH on a call that does
      not ring; ATZ; the disconnect command. */
  predicate HangsUp(p: Port, act: Action)
  {
    ((act == SetDtr(false) || (act == DeinitFossil && p.dtr)) && !p.dtrIgnore) ||
    (act == Action.At(Ath) && !p.at.ringing) || act == Action.At(Atz) || act == Disconnect
  }

  /** What asks for a call to be closed: one of these, or a listen command. */
  predicate AsksClose(p: Port, i: int, e: Event)
  {
    p.sock != NULL && ((e.ActCall? && Does(p, i, e, e.a) && HangsUp(p, e.a)) || (e.ListenOn? && e.i == i))
  }

  /** What deals with the request: a safe turn in which the call does not ring out, or AH=04h. */
  predicate SettlesClose(p: Port, i: int, e: Event)
  {
    (TurnOf(p, i, e) && e.env.safe && !RingsOut(p, e.env.now)) || InitOf(p, i, e)
  }

  lemma CloseRequested(p: Port, pa: bool, i: int, e: Event, q: Port, qa: bool, slot: nat)
    requires PortOk(p, pa) && Moves(p, pa, i, e, q, qa, slot)
    ensures q.pendingClose <==> AsksClose(p, i, e) || (p.pendingClose && !SettlesClose(p, i, e))
  {
    hide RingsOut, PolledActive, Polled, CheckedRing, Started, InitReset, InitClosed, RingDue, Acted;
    match e
    case PortTurn(_, env) =>
      if TurnOf(p, i, e) {
        TurnCloses(p, env);
      }
    case StatusCall(_, now) => StatusGives(p, pa, now);
    case InitCall(_, now) =>
      if InitOf(p, i, e) {
        var ls :| q == Started(InitReset(InitClosed(p), now), ls);
        InitGives(p, pa, ls, now);
      }
    case ActCall(_, act, now) => ActAsks(p, pa, act, now);
    case _ =>
  }

  lemma ActAsks(p: Port, pa: bool, act: Action, now: int)
    requires PortOk(p, pa)
    ensures Acted(p, act, now).pendingClose <==> p.pendingClose || (p.sock != NULL && HangsUp(p, act))
  {
    hide AtCommanded, Elapsed;
    assert p.mode == Conn <==> p.sock != NULL;
    match act
    case At(cmd) => AtAsks(p, cmd, now);
    case _ =>
  }

  lemma AtAsks(p: Port, cmd: AtCommand, now: int)
    requires p.mode == Conn <==> p.sock != NULL
    ensures AtCommanded(p, cmd, now).pendingClose <==> p.pendingClose || (p.sock != NULL && ((cmd == Ath && !p.at.ringing) || cmd == Atz))
  {
  }

  // ---- Ringing, waiting for CONNECT, command mode ----

  /** What an operation makes of the three flags. */
  ghost predicate Flags(q: Port, ringing: bool, waiting: bool, command: bool)
  {
    (q.at.ringing <==> ringing) && (q.at.connectPending <==> waiting) && (q.at.cmdMode <==> command)
  }

  /** CONNECT is due 36 ticks after the answer. */
  predicate Connects(p: Port, now: int)
  {
    p.at.connectPending && Elapsed(now, p.at.connectTick) >= 36
  }

  lemma CheckFlags(p: Port, now: int)
    ensures Flags(CheckedRing(p, now), p.at.ringing && !PicksUp(p, now) && !RingsOut(p, now),
              PicksUp(p, now) || (p.at.connectPending && !Connects(p, now)), p.at.cmdMode && !PicksUp(p, now))
    ensures PicksUp(p, now) ==> p.at.ringing && !p.at.connectPending
  {
    DueIs(p, now);
    hide RingDue, RingsOut, Elapsed;
  }

  lemma TurnFlags(p: Port, env: PollEnv)
    requires p.sock != NULL
    ensures var closes := !RingsOut(p, env.now) && PollCloses(p, env);
      Flags(PolledActive(p, env), p.at.ringing && !PicksUp(p, env.now) && !RingsOut(p, env.now) && !closes,
        !closes && (PicksUp(p, env.now) || (p.at.connectPending && !Connects(p, env.now))),
        closes || (p.at.cmdMode && !PicksUp(p, env.now)))
  {
    CheckFlags(p, env.now);
    DueIs(p, env.now);
    var r := CheckedRing(p, env.now);
    OpenEnds(r, env);
    hide RingDue, RingsOut, PicksUp, Connects, PolledOpen, Elapsed;
    if !RingsOut(p, env.now) {
      assert r.sock == p.sock && PollCloses(r, env) == PollCloses(p, env);
    }
  }

  lemma InitFlags(p: Port, pa: bool, ls: int, now: int)
    requires PortOk(p, pa)
    ensures Flags(Started(InitReset(InitClosed(p), now), ls), p.at.ringing && p.mode == Conn && !InitCloses(p), false, false)
  {
  }

  /** Answering by hand. */
  predicate ByHand(p: Port, act: Action)
  {
    p.mode == Conn && (act == Action.At(Ata) || act == Action.At(Ato) || (act == SetDtr(true) && p.at.ringing))
  }

  lemma ActFlags(p: Port, act: Action, now: int)
    ensures Flags(Acted(p, act, now), p.at.ringing && !ByHand(p, act), p.at.connectPending || ByHand(p, act),
              act == Action.At(Atz) || (p.at.cmdMode && !ByHand(p, act) && act != Action.At(Ath) && act != Action.At(Ato)))
    ensures ByHand(p, act) ==> Acted(p, act, now).at.connectTick == now
  {
    hide AtCommanded, Elapsed;
    match act
    case At(cmd) => AtFlags(p, cmd, now);
    case _ =>
  }

  lemma AtFlags(p: Port, cmd: AtCommand, now: int)
    ensures var hand := p.mode == Conn && (cmd == Ata || cmd == Ato);
      Flags(AtCommanded(p, cmd, now), p.at.ringing && !hand, p.at.connectPending || hand,
        cmd == Atz || (p.at.cmdMode && !hand && cmd != Ath && cmd != Ato)) &&
      (hand ==> AtCommanded(p, cmd, now).at.connectTick == now)
  {
    match cmd
    case Ata =>
    case Ato =>
    case Ath =>
    case Atz =>
    case Ats0(_) =>
    case Ats30(_) =>
  }

  predicate Acts(p: Port, i: int, e: Event)
  {
    e.ActCall? && Does(p, i, e, e.a)
  }

  /** A port stops ringing when the call is picked up, rings out, is closed by the poll cycle or
      AH=04h, or is answered by hand, and not before. */
  predicate StopsRinging(p: Port, i: int, e: Event)
  {
    (TurnOf(p, i, e) && (PicksUp(p, e.env.now) || RingsOut(p, e.env.now) || PollCloses(p, e.env))) ||
    (StatusOf(p, i, e) && (PicksUp(p, e.time) || RingsOut(p, e.time))) ||
    (InitOf(p, i, e) && (p.mode != Conn || InitCloses(p))) || (Acts(p, i, e) && ByHand(p, e.a))
  }

  /** The poll cycle closes a call that does not ring out. */
  predicate Closed(p: Port, i: int, e: Event)
  {
    TurnOf(p, i, e) && !RingsOut(p, e.env.now) && PollCloses(p, e.env)
  }

  /** CONNECT has been sent, or there is nobody left to send it to. */
  predicate StopsWaiting(p: Port, i: int, e: Event)
  {
    (TurnOf(p, i, e) && Connects(p, e.env.now)) || Closed(p, i, e) || (StatusOf(p, i, e) && Connects(p, e.time)) || InitOf(p, i, e)
  }

  /** Command mode is left when the call is answered, and with ATH, ATO and AH=04h. */
  predicate LeavesCommand(p: Port, i: int, e: Event)
  {
    AnswersNow(p, i, e) || InitOf(p, i, e) || Does(p, i, e, Action.At(Ath)) || Does(p, i, e, Action.At(Ato))
  }

  /** The three flags change only so. */
  ghost predicate FlagsFollow(p: Port, i: int, e: Event, q: Port)
  {
    Flags(q, p.at.ringing && !StopsRinging(p, i, e),
      (AnswersNow(p, i, e) && !Closed(p, i, e)) || (p.at.connectPending && !StopsWaiting(p, i, e)),
      Closed(p, i, e) || Does(p, i, e, Action.At(Atz)) || (p.at.cmdMode && !LeavesCommand(p, i, e)))
  }

  lemma CallFlags(p: Port, pa: bool, i: int, e: Event, q: Port, qa: bool, slot: nat)
    requires PortOk(p, pa) && Moves(p, pa, i, e, q, qa, slot) && !CallComes(p, q)
    ensures FlagsFollow(p, i, e, q)
  {
    if e.PortTurn? || e.StatusCall? {
      CheckedFlags(p, pa, i, e, q, qa, slot);
    } else {
      CalledFlags(p, pa, i, e, q, qa, slot);
    }
  }

  lemma CheckedFlags(p: Port, pa: bool, i: int, e: Event, q: Port, qa: bool, slot: nat)
    requires PortOk(p, pa) && Moves(p, pa, i, e, q, qa, slot) && !CallComes(p, q) && (e.PortTurn? || e.StatusCall?)
    ensures FlagsFollow(p, i, e, q)
  {
    hide RingsOut, PicksUp, Connects, PollCloses, PolledActive, CheckedRing, RingDue, RingTime;
    if e.PortTurn? {
      if TurnOf(p, i, e) {
        TurnFlags(p, e.env);
        CheckFlags(p, e.env.now);
        DueIs(p, e.env.now);
      }
    } else {
      CheckFlags(p, e.time);
    }
  }

  lemma CalledFlags(p: Port, pa: bool, i: int, e: Event, q: Port, qa: bool, slot: nat)
    requires PortOk(p, pa) && Moves(p, pa, i, e, q, qa, slot) && !CallComes(p, q) && !e.PortTurn? && !e.StatusCall?
    ensures FlagsFollow(p, i, e, q)
  {
    hide Started, InitReset, InitClosed, Acted, Listening, HuntPort;
    match e
    case InitCall(_, now) =>
      if InitOf(p, i, e) {
        var ls :| q == Started(InitReset(InitClosed(p), now), ls);
        InitFlags(p, pa, ls, now);
      }
    case ActCall(_, act, now) => ActFlags(p, act, now);
    case ListenOn(_, tcpPort) => ListenFlags(p, i, tcpPort, {}, slot);
    case HuntOn(members, tcpPort) => ListenFlags(p, i, tcpPort, members, slot);
    case _ =>
  }

  lemma ListenFlags(p: Port, i: int, tcpPort: int, members: set<int>, slot: nat)
    ensures Flags(Listening(p, tcpPort), p.at.ringing, p.at.connectPending, p.at.cmdMode)
    ensures Flags(HuntPort(p, i, members, tcpPort, slot), p.at.ringing, p.at.connectPending, p.at.cmdMode)
  {
  }

  // ---- Counting rings ----

  ghost predicate Counts(q: Port, rings: int, ringTick: int, connectTick: int)
  {
    q.at.ringsSent == rings && q.at.ringTick == ringTick && q.at.connectTick == connectTick
  }

  /** One more RING. */
  predicate RingsAgain(p: Port, now: int)
  {
    RingTime(p, now) && !PicksUp(p, now) && !RingsOut(p, now)
  }

  lemma CheckCounts(p: Port, now: int)
    ensures Counts(CheckedRing(p, now),
              if PicksUp(p, now) || RingsOut(p, now) then 0 else if RingsAgain(p, now) then p.at.ringsSent + 1 else p.at.ringsSent,
              if RingsAgain(p, now) then now else p.at.ringTick, if PicksUp(p, now) then now else p.at.connectTick)
  {
    DueIs(p, now);
    hide RingDue, RingsOut, PicksUp, RingTime, Elapsed;
  }

  lemma OpenCounts(p: Port, env: PollEnv)
    ensures Counts(PolledOpen(p, env), if PollCloses(p, env) then 0 else p.at.ringsSent, p.at.ringTick, p.at.connectTick)
  {
    JustNow(env.now);
    hide Elapsed;
  }

  lemma TurnCounts(p: Port, env: PollEnv)
    requires p.sock != NULL
    ensures var now := env.now;
      Counts(PolledActive(p, env),
        if PicksUp(p, now) || RingsOut(p, now) || PollCloses(p, env) then 0
        else if RingsAgain(p, now) then p.at.ringsSent + 1 else p.at.ringsSent,
        if RingsAgain(p, now) then now else p.at.ringTick, if PicksUp(p, now) then now else p.at.connectTick)
  {
    CheckCounts(p, env.now);
    DueIs(p, env.now);
    var r := CheckedRing(p, env.now);
    OpenCounts(r, env);
    hide RingDue, RingsAgain, PicksUp, PolledOpen, RingsOut, Elapsed, RingTime;
    if !RingsOut(p, env.now) {
      assert r.sock == p.sock && PollCloses(r, env) == PollCloses(p, env);
      hide PollCloses, CheckedRing;
      assert PolledActive(p, env) == PolledOpen(r, env);
    } else {
      assert r.sock == NULL && PolledActive(p, env) == r;
    }
  }

  lemma InitCounts(p: Port, ls: int, now: int)
    ensures var q := Started(InitReset(InitClosed(p), now), ls);
      Counts(q, 0, if q.at.ringing then now else 0, 0)
  {
  }

  lemma ActCounts(p: Port, act: Action, now: int)
    ensures Counts(Acted(p, act, now), if ByHand(p, act) then 0 else p.at.ringsSent, p.at.ringTick,
              if ByHand(p, act) then now else p.at.connectTick)
  {
    hide AtCommanded, Elapsed;
    match act
    case At(cmd) => AtCounts(p, cmd, now);
    case _ =>
  }

  lemma AtCounts(p: Port, cmd: AtCommand, now: int)
    ensures var hand := p.mode == Conn && (cmd == Ata || cmd == Ato);
      Counts(AtCommanded(p, cmd, now), if hand then 0 else p.at.ringsSent, p.at.ringTick, if hand then now else p.at.connectTick)
  {
  }

  predicate Rings(p: Port, i: int, e: Event)
  {
    (TurnOf(p, i, e) || StatusOf(p, i, e)) && RingsAgain(p, When(e))
  }

  /** The ring counter starts again when the call is answered, rings out, is closed by the poll cycle
      or AH=04h comes, and counts every RING otherwise; the two ticks are those of the last RING and
      of the answer. */
  lemma RingsCounted(p: Port, pa: bool, i: int, e: Event, q: Port, qa: bool, slot: nat)
    requires PortOk(p, pa) && Moves(p, pa, i, e, q, qa, slot) && !CallComes(p, q)
    ensures var over := InitOf(p, i, e) || AnswersNow(p, i, e) || (TurnOf(p, i, e) && PollCloses(p, e.env)) ||
        ((TurnOf(p, i, e) || StatusOf(p, i, e)) && RingsOut(p, When(e)));
      Counts(q, if over then 0 else if Rings(p, i, e) then p.at.ringsSent + 1 else p.at.ringsSent,
        if Rings(p, i, e) || (InitOf(p, i, e) && q.at.ringing) then When(e) else if InitOf(p, i, e) then 0 else p.at.ringTick,
        if AnswersNow(p, i, e) then When(e) else if InitOf(p, i, e) then 0 else p.at.connectTick)
  {
    hide RingsOut, PicksUp, RingsAgain, PollCloses, PolledActive, CheckedRing, Started, InitReset, InitClosed, RingDue, Acted;
    match e
    case PortTurn(_, env) =>
      if TurnOf(p, i, e) {
        TurnCounts(p, env);
      }
    case StatusCall(_, now) => CheckCounts(p, now);
    case InitCall(_, now) =>
      if InitOf(p, i, e) {
        var ls :| q == Started(InitReset(InitClosed(p), now), ls);
        InitCounts(p, ls, now);
      }
    case ActCall(_, act, now) => ActCounts(p, act, now);
    case _ =>
  }

  // ---- Settings ----

  /** S0, the idle timeout, AT&D0 and the two driver flags. */
  ghost predicate Settings(q: Port, s0: int, idle: int, ignore: bool, dtr: bool, fossil: bool)
  {
    q.at.s0 == s0 && q.idleTimeout == idle && q.dtrIgnore == ignore && q.dtr == dtr && q.fossil == fossil
  }

  lemma CheckSettings(p: Port, now: int)
    ensures Settings(CheckedRing(p, now), p.at.s0, p.idleTimeout, p.dtrIgnore, p.dtr, p.fossil)
  {
    hide RingDue;
  }

  lemma OpenSettings(p: Port, env: PollEnv)
    ensures Settings(PolledOpen(p, env), p.at.s0, p.idleTimeout, p.dtrIgnore, p.dtr, p.fossil)
  {
    hide IdleTooLong, Gone;
  }

  lemma TurnSettings(p: Port, env: PollEnv)
    ensures Settings(PolledActive(p, env), p.at.s0, p.idleTimeout, p.dtrIgnore, p.dtr, p.fossil)
  {
    hide CheckedRing, PolledOpen;
    CheckSettings(p, env.now);
    OpenSettings(CheckedRing(p, env.now), env);
  }

  lemma ActSettings(p: Port, act: Action, now: int)
    requires !act.At?
    ensures Settings(Acted(p, act, now), p.at.s0, p.idleTimeout, p.dtrIgnore,
              if act.SetDtr? then act.raise else p.dtr, p.fossil && act != DeinitFossil)
  {
    hide Elapsed;
  }

  lemma AtSettings(p: Port, cmd: AtCommand, now: int)
    ensures Settings(AtCommanded(p, cmd, now), if cmd == Atz then 0 else if cmd.Ats0? then cmd.v % 256 else p.at.s0,
              if cmd.Ats30? then cmd.v % 65536 else p.idleTimeout, p.dtrIgnore && cmd != Atz, p.dtr, p.fossil)
  {
  }

  lemma InitSettings(p: Port, pa: bool, ls: int, now: int)
    requires PortOk(p, pa)
    ensures Settings(Started(InitReset(InitClosed(p), now), ls), 0, 0,
              p.dtrIgnore && !(p.pendingClose || (p.mode == Conn && p.purgeSeen >= 3)), true, true)
  {
  }

  /** The command an AT line gave this port. */
  function Commanded(p: Port, i: int, e: Event): Option
  {
    if e.ActCall? && e.i == i && p.initialized && e.a.At? then Some(e.a.cmd) else None
  }

  datatype Option = None | Some(cmd: AtCommand)

  /** The settings of a port change only as follows: S0 and the idle timeout by their registers, by
      ATZ (S0 only) and AH=04h; AT&D0 by AT&D on any port, by ATZ, and by AH=04h if that ends a
      call; the DTR and driver flags by AH=04h, 05h and 06h. */
  lemma SettingsChange(p: Port, pa: bool, i: int, e: Event, q: Port, qa: bool, slot: nat)
    requires PortOk(p, pa) && Moves(p, pa, i, e, q, qa, slot)
    ensures var c := Commanded(p, i, e);
      var s0 := if InitOf(p, i, e) || c == Some(Atz) then 0 else if c.Some? && c.cmd.Ats0? then c.cmd.v % 256 else p.at.s0;
      var idle := if InitOf(p, i, e) then 0 else if c.Some? && c.cmd.Ats30? then c.cmd.v % 65536 else p.idleTimeout;
      var over := p.pendingClose || (p.mode == Conn && p.purgeSeen >= 3);
      var ignore := if e.DtrMode? then e.ignore else p.dtrIgnore && c != Some(Atz) && !(InitOf(p, i, e) && over);
      Settings(q, s0, idle, ignore,
        if InitOf(p, i, e) || Does(p, i, e, SetDtr(true)) then true else p.dtr && !Does(p, i, e, SetDtr(false)),
        InitOf(p, i, e) || (p.fossil && !Does(p, i, e, DeinitFossil)))
  {
    hide PolledActive, CheckedRing, Started, InitReset, InitClosed, RingDue, Acted, AtCommanded;
    match e
    case PortTurn(_, env) => TurnSettings(p, env);
    case StatusCall(_, now) => CheckSettings(p, now);
    case InitCall(_, now) =>
      if InitOf(p, i, e) {
        var ls :| q == Started(InitReset(InitClosed(p), now), ls);
        InitSettings(p, pa, ls, now);
      }
    case ActCall(_, act, now) => AnyActSettings(p, act, now);
    case _ =>
  }

  lemma AnyActSettings(p: Port, act: Action, now: int)
    ensures if act.At? then Acted(p, act, now) == AtCommanded(p, act.cmd, now) && AtIs(p, act.cmd, now)
      else Settings(Acted(p, act, now), p.at.s0, p.idleTimeout, p.dtrIgnore,
             if act.SetDtr? then act.raise else p.dtr, p.fossil && act != DeinitFossil)
  {
    hide AtCommanded;
    if act.At? {
      AtSettings(p, act.cmd, now);
    } else {
      ActSettings(p, act, now);
    }
  }

  ghost predicate AtIs(p: Port, cmd: AtCommand, now: int)
  {
    Settings(AtCommanded(p, cmd, now), if cmd == Atz then 0 else if cmd.Ats0? then cmd.v % 256 else p.at.s0,
      if cmd.Ats30? then cmd.v % 65536 else p.idleTimeout, p.dtrIgnore && cmd != Atz, p.dtr, p.fossil)
  }

  // ---- The purge counter and the clocks ----

  /** AH=09h on a call of more than 182 ticks, unless AT&D0 or carrier is dropped already. */
  predicate Purges(p: Port, i: int, e: Event)
  {
    Does(p, i, e, PurgeOutput) && p.sock != NULL && p.purgeSeen < 3 && !p.dtrIgnore && Elapsed(e.time, p.connTick) > 182
  }

  /** A status poll of a call after a purge. */
  predicate CountsPoll(p: Port, i: int, e: Event)
  {
    StatusOf(p, i, e) && !RingsOut(p, e.time) && p.sock != NULL && p.purgeSeen != 0 && !p.dtrIgnore
  }

  /** A byte has arrived in a turn that got as far as reading. */
  predicate Hears(p: Port, i: int, e: Event)
  {
    TurnOf(p, i, e) && e.env.received && !RingsOut(p, e.env.now) && !(p.pendingClose && e.env.safe)
  }

  ghost predicate Clocks(q: Port, purge: int, tx: int, rx: int, conn: int)
  {
    q.purgeSeen == purge && q.lastTx == tx && q.lastRx == rx && q.connTick == conn
  }

  lemma ClocksChange(p: Port, pa: bool, i: int, e: Event, q: Port, qa: bool, slot: nat)
    requires PortOk(p, pa) && Moves(p, pa, i, e, q, qa, slot) && !CallComes(p, q)
    ensures Clocks(q,
              if InitOf(p, i, e) then 0 else if Purges(p, i, e) then 1
              else if CountsPoll(p, i, e) then (p.purgeSeen + 1) % 256 else p.purgeSeen,
              if InitOf(p, i, e) || Does(p, i, e, TransmitByte) then When(e) else p.lastTx,
              if InitOf(p, i, e) || Hears(p, i, e) then When(e) else p.lastRx, p.connTick)
  {
    hide RingsOut, PolledActive, CheckedRing, Started, InitReset, InitClosed, RingDue, Acted, Elapsed;
    match e
    case PortTurn(_, env) =>
      if TurnOf(p, i, e) {
        TurnClocks(p, env);
      }
    case StatusCall(_, now) => CheckClocks(p, pa, now);
    case InitCall(_, now) =>
      if InitOf(p, i, e) {
        var ls :| q == Started(InitReset(InitClosed(p), now), ls);
        InitClocks(p, ls, now);
      }
    case ActCall(_, act, now) => ActClocks(p, pa, act, now);
    case _ =>
  }

  lemma CheckClocks(p: Port, pa: bool, now: int)
    requires PortOk(p, pa)
    ensures Clocks(CheckedRing(p, now), p.purgeSeen, p.lastTx, p.lastRx, p.connTick)
    ensures CheckedRing(p, now).sock == (if RingsOut(p, now) then NULL else p.sock)
    ensures !RingsOut(p, now) ==> CheckedRing(p, now).mode == p.mode && CheckedRing(p, now).pendingClose == p.pendingClose
    ensures CheckedRing(p, now).dtrIgnore == p.dtrIgnore
  {
    DueIs(p, now);
    hide RingDue, RingsOut;
  }

  lemma TurnClocks(p: Port, env: PollEnv)
    requires p.sock != NULL
    ensures Clocks(PolledActive(p, env), p.purgeSeen, p.lastTx,
              if env.received && !RingsOut(p, env.now) && !(p.pendingClose && env.safe) then env.now else p.lastRx, p.connTick)
  {
    DueIs(p, env.now);
    hide RingDue, RingsOut, IdleTooLong, Gone;
  }

  lemma InitClocks(p: Port, ls: int, now: int)
    ensures Clocks(Started(InitReset(InitClosed(p), now), ls), 0, now, now, p.connTick)
  {
  }

  lemma ActClocks(p: Port, pa: bool, act: Action, now: int)
    requires PortOk(p, pa)
    ensures Clocks(Acted(p, act, now),
              if act == PurgeOutput && p.sock != NULL && p.purgeSeen < 3 && !p.dtrIgnore && Elapsed(now, p.connTick) > 182
              then 1 else p.purgeSeen,
              if act == TransmitByte then now else p.lastTx, p.lastRx, p.connTick)
  {
    hide AtCommanded, Elapsed;
    match act
    case At(cmd) => AtClocks(p, cmd, now);
    case _ =>
  }

  lemma AtClocks(p: Port, cmd: AtCommand, now: int)
    ensures Clocks(AtCommanded(p, cmd, now), p.purgeSeen, p.lastTx, p.lastRx, p.connTick)
  {
    hide SendConnect;
  }

  // ---- Listening ----

  /** AH=04h leaves a port without a call listening exactly when it is in a hunt group, when it has
      a TCP port and a listening socket, old or new, or when it would have listened anyhow. */
  lemma InitListens(p: Port, pa: bool, ls: int, now: int)
    requires PortOk(p, pa) && ls >= NULL
    ensures var q := Started(InitReset(InitClosed(p), now), ls);
      q.sock == NULL ==>
        (q.mode == Listen <==> p.hunt >= 0 || (p.localPort != 0 && q.listenSock != NULL) ||
                               (if InitCloses(p) && (p.pendingClose || p.mode == Conn) then p.listenSock != NULL else p.mode == Listen))
    ensures var q := Started(InitReset(InitClosed(p), now), ls);
      q.listenSock == if p.listenSock == NULL && q.sock == NULL && p.hunt < 0 && p.localPort != 0 then ls else p.listenSock
  {
  }

  /** Where a port listens, and whether it is in use at all. */
  ghost predicate Place(q: Port, localPort: int, listenSock: int, hunt: int, initialized: bool)
  {
    q.localPort == localPort && q.listenSock == listenSock && q.hunt == hunt && q.initialized == initialized
  }

  lemma CheckPlace(p: Port, now: int)
    ensures Place(CheckedRing(p, now), p.localPort, p.listenSock, p.hunt, p.initialized)
  {
    hide RingDue;
  }

  lemma TurnPlace(p: Port, env: PollEnv)
    ensures Place(PolledActive(p, env), p.localPort, p.listenSock, p.hunt, p.initialized)
  {
    CheckPlace(p, env.now);
    hide CheckedRing, IdleTooLong, Gone;
  }

  lemma ActPlace(p: Port, act: Action, now: int)
    ensures Place(Acted(p, act, now), p.localPort, p.listenSock, p.hunt, p.initialized)
  {
    hide SendConnect, Elapsed, AtCommanded;
    match act
    case At(cmd) => AtPlace(p, cmd, now);
    case _ =>
  }

  lemma AtPlace(p: Port, cmd: AtCommand, now: int)
    ensures Place(AtCommanded(p, cmd, now), p.localPort, p.listenSock, p.hunt, p.initialized)
  {
    hide SendConnect;
  }

  lemma InitPlace(p: Port, ls: int, now: int)
    ensures var q := Started(InitReset(InitClosed(p), now), ls);
      Place(q, p.localPort, if p.listenSock == NULL then q.listenSock else p.listenSock, p.hunt, p.initialized)
  {
  }

  predicate ListenOf(i: int, e: Event)
  {
    e.ListenOn? && e.i == i
  }

  predicate JoinOf(i: int, e: Event, slot: nat)
  {
    e.HuntOn? && slot < 2 && i in e.members
  }

  /** A port is set up just by the two listen commands, which stop it and make it forget its sockets;
      a listening socket comes only with AH=04h, if there was none. */
  lemma PlaceChanges(p: Port, pa: bool, i: int, e: Event, q: Port, qa: bool, slot: nat)
    requires PortOk(p, pa) && Moves(p, pa, i, e, q, qa, slot)
    ensures var setUp := ListenOf(i, e) || JoinOf(i, e, slot);
      (setUp ==> q.localPort == e.tcpPort && q.listenSock == NULL && q.sock == NULL && q.mode == Disc && q.initialized) &&
      (!setUp ==> q.localPort == p.localPort && q.initialized == p.initialized) &&
      (!setUp && !(InitOf(p, i, e) && p.listenSock == NULL) ==> q.listenSock == p.listenSock) &&
      q.hunt == if JoinOf(i, e, slot) then slot else p.hunt
  {
    hide PolledActive, CheckedRing, Started, InitReset, InitClosed, RingDue, Acted, AtCommanded;
    match e
    case PortTurn(_, env) => TurnPlace(p, env);
    case StatusCall(_, now) => CheckPlace(p, now);
    case InitCall(_, now) =>
      if InitOf(p, i, e) {
        var ls :| q == Started(InitReset(InitClosed(p), now), ls);
        InitPlace(p, ls, now);
      }
    case ActCall(_, act, now) => ActPlace(p, act, now);
    case _ =>
  }
}
