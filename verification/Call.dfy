/**
 One port of the virtual modem as a value: its mode and sockets, the state of the call, and
 the ring and answer timing. Sockets are numbers, -1 is NULL. Ticks are 32-bit.
 */
module Call {

  const NULL := -1

  datatype Mode = Disc | Listen | Conn

  /** The call-related part of AtState. */
  datatype At = At(
    ringing: bool, ringsSent: int, connectPending: bool, cmdMode: bool, s0: int,
    ringTick: int, connectTick: int)

  datatype Port = Port(
    mode: Mode, sock: int, listenSock: int, initialized: bool, hunt: int, localPort: int,
    pendingClose: bool, dtrIgnore: bool, connTick: int, lastRx: int, lastTx: int, idleTimeout: int,
    fossil: bool, dtr: bool, purgeSeen: int, at: At)

  /** Ticks from then to now, as an unsigned long difference. */
  function Elapsed(now: int, then_: int): (d: int)
    ensures 0 <= d < 0x1_0000_0000
  {
    (now - then_) % 0x1_0000_0000
  }

  /** Where a port goes when its call ends. */
  function IdleMode(p: Port): Mode
  {
    if p.listenSock != NULL || p.hunt >= 0 then Listen else Disc
  }

  /** The port after its call is closed. */
  function HungUp(p: Port): Port
  {
    p.(sock := NULL, mode := IdleMode(p))
  }

  // ---- Result codes ----

  /** at_send_connect. */
  function SendConnect(a: At, now: int): At
  {
    a.(ringing := false, ringsSent := 0, cmdMode := false, connectPending := true, connectTick := now)
  }

  /** at_send_ring. */
  function SendRing(a: At, now: int): At
  {
    a.(ringing := true, ringsSent := 1, ringTick := now)
  }

  /** at_send_no_carrier. */
  function SendNoCarrier(a: At): At
  {
    a.(cmdMode := true, ringing := false, ringsSent := 0, connectPending := false)
  }

  /** at_init. */
  const FRESH_AT: At := At(false, 0, false, false, 0, 0, 0)

  // ---- Ringing ----

  const RING_INTERVAL := 110
  const HANDSHAKE := 36
  const MAX_RINGS := 10

  /** What at_check_ring does: nothing, one more RING, an answer, a time-out, or CONNECT. */
  datatype RingEvent = Quiet | Ring | Answer | GiveUp | Connect

  function RingDue(a: At, fossil: bool, now: int): RingEvent
  {
    if a.connectPending then (if Elapsed(now, a.connectTick) >= HANDSHAKE then Connect else Quiet)
    else if !a.ringing || Elapsed(now, a.ringTick) < RING_INTERVAL then Quiet
    else if a.s0 > 0 && a.ringsSent >= a.s0 && fossil then Answer
    else if a.ringsSent >= MAX_RINGS then GiveUp
    else Ring
  }

  function AfterRing(a: At, e: RingEvent, now: int): At
  {
    match e
    case Quiet => a
    case Ring => a.(ringsSent := a.ringsSent + 1, ringTick := now)
    case Answer => SendConnect(a, now)
    case GiveUp => a.(ringing := false, ringsSent := 0)
    case Connect => a.(connectPending := false)
  }

  /** The port after at_check_ring. */
  function CheckedRing(p: Port, now: int): Port
  {
    var e := RingDue(p.at, p.fossil, now);
    var q := p.(at := AfterRing(p.at, e, now));
    if e == GiveUp then HungUp(q) else q
  }

  // ---- Ring counting ----

  /** The events of a run of checks at these ticks, without the quiet ones. */
  function Events(a: At, fossil: bool, ticks: seq<int>): seq<RingEvent>
    decreases |ticks|
  {
    if ticks == [] then []
    else
      var e := RingDue(a, fossil, ticks[0]);
      (if e == Quiet then [] else [e]) + Events(AfterRing(a, e, ticks[0]), fossil, ticks[1..])
  }

  /** Whether the call will be answered automatically. */
  predicate AutoAnswers(s0: int, fossil: bool)
  {
    fossil && 1 <= s0 <= MAX_RINGS
  }

  /** How many RINGs a call that has rung once still gets. */
  function RingsLeft(a: At, fossil: bool): int
  {
    (if AutoAnswers(a.s0, fossil) then a.s0 else MAX_RINGS) - a.ringsSent
  }

  function Rings(n: int): (s: seq<RingEvent>)
    ensures |s| == if n < 0 then 0 else n
    ensures forall i :: 0 <= i < |s| ==> s[i] == Ring
  {
    seq(if n < 0 then 0 else n, _ => Ring)
  }

  /** All that can still happen to a ringing call: the missing RINGs, then an answer and its
      CONNECT, or the time-out. */
  function Script(a: At, fossil: bool): seq<RingEvent>
  {
    if a.connectPending then [Connect]
    else if !a.ringing then []
    else Rings(RingsLeft(a, fossil)) + if AutoAnswers(a.s0, fossil) then [Answer, Connect] else [GiveUp]
  }

  /** A call in progress whose rings are within the limits. */
  predicate Counting(a: At, fossil: bool)
  {
    a.s0 >= 0 && !(a.ringing && a.connectPending) && (a.ringing ==> RingsLeft(a, fossil) >= 0)
  }

  lemma RingStep(a: At, fossil: bool, now: int)
    requires Counting(a, fossil)
    ensures var e := RingDue(a, fossil, now);
      var b := AfterRing(a, e, now);
      Counting(b, fossil) && Script(a, fossil) == (if e == Quiet then [] else [e]) + Script(b, fossil)
  {
    hide Elapsed, Rings;
    var e := RingDue(a, fossil, now);
    var b := AfterRing(a, e, now);
    if e == Ring {
      assert Rings(RingsLeft(a, fossil)) == [Ring] + Rings(RingsLeft(b, fossil));
    } else if e == Answer || e == GiveUp {
      assert Rings(RingsLeft(a, fossil)) == [];
    }
  }

  /** Whatever the ticks at which it is checked, a call goes through its script in order. */
  lemma {:induction false} FollowsScript(a: At, fossil: bool, ticks: seq<int>)
    requires Counting(a, fossil)
    ensures Events(a, fossil, ticks) <= Script(a, fossil)
    decreases |ticks|
  {
    hide RingDue, AfterRing, Counting, Script;
    if ticks != [] {
      var e := RingDue(a, fossil, ticks[0]);
      RingStep(a, fossil, ticks[0]);
      FollowsScript(AfterRing(a, e, ticks[0]), fossil, ticks[1..]);
    }
  }

  /** What a new call goes through, having rung once. */
  function CallScript(s0: int, fossil: bool): seq<RingEvent>
  {
    if AutoAnswers(s0, fossil) then Rings(s0 - 1) + [Answer, Connect] else Rings(MAX_RINGS - 1) + [GiveUp]
  }

  lemma NewCall(a: At, fossil: bool, start: int)
    requires a.s0 >= 0 && !a.connectPending
    ensures Counting(SendRing(a, start), fossil) && Script(SendRing(a, start), fossil) == CallScript(a.s0, fossil)
  {
    hide Rings;
  }

  // ---- Ring timing ----

  /** An event and the tick of the check at which it happens. */
  datatype Timed = Timed(e: RingEvent, tick: int)

  function Log(a: At, fossil: bool, ticks: seq<int>): seq<Timed>
    decreases |ticks|
  {
    if ticks == [] then []
    else
      var e := RingDue(a, fossil, ticks[0]);
      (if e == Quiet then [] else [Timed(e, ticks[0])]) + Log(AfterRing(a, e, ticks[0]), fossil, ticks[1..])
  }

  lemma {:induction false} LogEvents(a: At, fossil: bool, ticks: seq<int>)
    ensures |Log(a, fossil, ticks)| == |Events(a, fossil, ticks)|
    ensures forall i :: 0 <= i < |Log(a, fossil, ticks)| ==> Log(a, fossil, ticks)[i].e == Events(a, fossil, ticks)[i]
    decreases |ticks|
  {
    hide RingDue, AfterRing;
    if ticks != [] {
      LogEvents(AfterRing(a, RingDue(a, fossil, ticks[0]), ticks[0]), fossil, ticks[1..]);
    }
  }

  /** The tick from which the next event is timed. */
  function Mark(a: At): int
  {
    if a.connectPending then a.connectTick else a.ringTick
  }

  function Gap(e: RingEvent): int
  {
    if e == Connect then HANDSHAKE else RING_INTERVAL
  }

  /** An event happens at a check exactly when its time has come, and the next one is timed from
      that check. */
  lemma DueExact(a: At, fossil: bool, now: int)
    requires Counting(a, fossil)
    ensures var e := RingDue(a, fossil, now);
      var next := if a.connectPending then HANDSHAKE else RING_INTERVAL;
      (e != Quiet <==> Script(a, fossil) != [] && Elapsed(now, Mark(a)) >= next) &&
      (e != Quiet ==> next == Gap(e) && (Script(AfterRing(a, e, now), fossil) != [] ==> Mark(AfterRing(a, e, now)) == now))
  {
    hide Elapsed, Rings;
  }

  /** Each event comes at least its gap after the one before, the first after the mark. */
  predicate Spread(mark: int, log: seq<Timed>)
    decreases |log|
  {
    log == [] || (Elapsed(log[0].tick, mark) >= Gap(log[0].e) && Spread(log[0].tick, log[1..]))
  }

  /** Whatever the ticks of the checks: consecutive rings, the answer and the time-out are at
      least 110 ticks apart, and CONNECT comes at least 36 after the answer. */
  lemma {:induction false} NeverEarly(a: At, fossil: bool, ticks: seq<int>)
    requires Counting(a, fossil)
    ensures Spread(Mark(a), Log(a, fossil, ticks))
    decreases |ticks|
  {
    hide RingDue, AfterRing, Script, Counting, Elapsed, Mark, Gap, Spread;
    if ticks == [] {
      SpreadNothing(Mark(a));
    } else {
      var now := ticks[0];
      var e := RingDue(a, fossil, now);
      var b := AfterRing(a, e, now);
      RingStep(a, fossil, now);
      DueExact(a, fossil, now);
      NeverEarly(b, fossil, ticks[1..]);
      if e == Quiet {
        QuietKeeps(a, now);
        assert Log(a, fossil, ticks) == Log(b, fossil, ticks[1..]);
      } else {
        if Script(b, fossil) == [] {
          NothingMore(b, fossil, ticks[1..]);
          SpreadNothing(now);
        }
        SpreadCons(Mark(a), Timed(e, now), Log(b, fossil, ticks[1..]));
      }
    }
  }

  lemma SpreadNothing(mark: int)
    ensures Spread(mark, [])
  {
  }

  lemma SpreadCons(mark: int, t: Timed, log: seq<Timed>)
    requires Elapsed(t.tick, mark) >= Gap(t.e) && Spread(t.tick, log)
    ensures Spread(mark, [t] + log)
  {
    hide Elapsed, Gap;
    assert ([t] + log)[1..] == log;
  }

  lemma QuietKeeps(a: At, now: int)
    ensures AfterRing(a, Quiet, now) == a
  {
  }

  lemma NothingMore(a: At, fossil: bool, ticks: seq<int>)
    requires Counting(a, fossil) && Script(a, fossil) == []
    ensures Log(a, fossil, ticks) == []
  {
    FollowsScript(a, fossil, ticks);
    LogEvents(a, fossil, ticks);
  }

  /** Checks at least 110 ticks apart. */
  predicate Spaced(mark: int, ticks: seq<int>)
    decreases |ticks|
  {
    ticks == [] || (Elapsed(ticks[0], mark) >= RING_INTERVAL && Spaced(ticks[0], ticks[1..]))
  }

  /** If every check comes at least 110 ticks after the one before, each is one event until the
      script is over. */
  lemma {:induction false} EveryCheckCounts(a: At, fossil: bool, mark: int, ticks: seq<int>)
    requires Counting(a, fossil) && (Script(a, fossil) != [] ==> mark == Mark(a)) && Spaced(mark, ticks)
    ensures var s := Script(a, fossil);
      Events(a, fossil, ticks) == s[..if |ticks| < |s| then |ticks| else |s|]
    decreases |ticks|
  {
    hide RingDue, AfterRing, Script, Counting, Elapsed, Mark;
    if ticks == [] {
      assert Script(a, fossil)[..0] == [];
    } else {
      var e := RingDue(a, fossil, ticks[0]);
      RingStep(a, fossil, ticks[0]);
      DueExact(a, fossil, ticks[0]);
      EveryCheckCounts(AfterRing(a, e, ticks[0]), fossil, ticks[0], ticks[1..]);
    }
  }

  /** Checks from c on, each at most g ticks after the one before; here time does not wrap. */
  predicate Regular(c: int, ticks: seq<int>, g: nat)
    decreases |ticks|
  {
    ticks == [] || (c <= ticks[0] <= c + g && Regular(ticks[0], ticks[1..], g))
  }

  function Latest(c: int, ticks: seq<int>): int
    decreases |ticks|
  {
    if ticks == [] then c else Latest(ticks[0], ticks[1..])
  }

  const MAX_GAP := 0x1_0000_0000 - RING_INTERVAL

  lemma AtLeastOnce(n: nat, k: nat)
    requires n > 0
    ensures n * k >= k
  {
    assert n * k == (n - 1) * k + k;
  }

  lemma ElapsedExact(now: int, then_: int)
    requires 0 <= now - then_ < 0x1_0000_0000
    ensures Elapsed(now, then_) == now - then_
  {
  }

  /** With checks at most g ticks apart, n events that are still to come have all come once n
      times 110 + g ticks have passed; c is the last check. */
  lemma {:induction false} NeverStuck(a: At, fossil: bool, c: int, ticks: seq<int>, g: nat)
    requires Counting(a, fossil) && Regular(c, ticks, g) && g < MAX_GAP
    requires Script(a, fossil) != [] ==> 0 <= c - Mark(a) < RING_INTERVAL
    requires Latest(c, ticks) - Mark(a) >= |Script(a, fossil)| * (RING_INTERVAL + g)
    ensures Events(a, fossil, ticks) == Script(a, fossil)
    decreases |ticks|
  {
    hide RingDue, AfterRing, Script, Counting, Elapsed, Mark;
    var s := Script(a, fossil);
    if s == [] {
      FollowsScript(a, fossil, ticks);
    } else if ticks == [] {
      AtLeastOnce(|s|, RING_INTERVAL + g);
    } else {
      var now := ticks[0];
      var e := RingDue(a, fossil, now);
      var b := AfterRing(a, e, now);
      RingStep(a, fossil, now);
      DueExact(a, fossil, now);
      ElapsedExact(now, Mark(a));
      if e == Quiet {
        QuietKeeps(a, now);
      } else {
        assert s == [e] + Script(b, fossil);
        assert |s| * (RING_INTERVAL + g) == |Script(b, fossil)| * (RING_INTERVAL + g) + (RING_INTERVAL + g);
        if Script(b, fossil) == [] {
          FollowsScript(b, fossil, ticks[1..]);
        }
      }
      if e == Quiet || Script(b, fossil) != [] {
        NeverStuck(b, fossil, now, ticks[1..], g);
      }
    }
  }

  /** A new call at tick start, which has rung once. With 1 <= S0 <= 10 and the driver initialised
      it can only be answered after exactly S0 rings and then get its CONNECT, otherwise only be
      dropped after exactly ten, whenever it is checked; and it gets all of that if it is checked
      often enough for long enough. */
  lemma RingCount(a: At, fossil: bool, start: int, ticks: seq<int>, g: nat)
    requires a.s0 >= 0 && !a.connectPending
    ensures var s := CallScript(a.s0, fossil);
      var events := Events(SendRing(a, start), fossil, ticks);
      events <= s &&
      (Spaced(start, ticks) && |ticks| >= |s| ==> events == s) &&
      (g < MAX_GAP && Regular(start, ticks, g) && Latest(start, ticks) - start >= |s| * (RING_INTERVAL + g) ==> events == s)
  {
    hide Events, Script, CallScript, Spaced, Regular, Latest, Counting;
    var b := SendRing(a, start);
    NewCall(a, fossil, start);
    FollowsScript(b, fossil, ticks);
    if Spaced(start, ticks) {
      EveryCheckCounts(b, fossil, start, ticks);
    }
    if g < MAX_GAP && Regular(start, ticks, g) && Latest(start, ticks) - start >= |CallScript(a.s0, fossil)| * (RING_INTERVAL + g) {
      NeverStuck(b, fossil, start, ticks, g);
    }
  }

  // ---- Carrier ----

  /** The DCD bit of fossil_status. */
  predicate Dcd(p: Port)
  {
    !p.at.ringing && !p.at.connectPending && p.mode == Conn && p.sock != NULL && (p.purgeSeen < 3 || p.dtrIgnore)
  }

  /** The count of status polls after a purge, in an unsigned char. */
  function Polled(p: Port): Port
  {
    if p.purgeSeen != 0 && p.mode == Conn && p.sock != NULL && !p.dtrIgnore
    then p.(purgeSeen := (p.purgeSeen + 1) % 256) else p
  }

  function PolledTimes(p: Port, k: nat): Port
  {
    if k == 0 then p else Polled(PolledTimes(p, k - 1))
  }

  lemma {:induction false} PollCount(p: Port, k: nat)
    requires p.purgeSeen == 1 && p.mode == Conn && p.sock != NULL && !p.dtrIgnore
    ensures PolledTimes(p, k) == p.(purgeSeen := if k < 255 then 1 + k else 0)
  {
    if k > 0 {
      PollCount(p, k - 1);
    }
  }

  /** After a purge on an answered call DCD drops with the second status poll, and is reported
      again from the 255th on, when the counter has wrapped to zero. */
  lemma DcdAfterPurge(p: Port, k: nat)
    requires p.purgeSeen == 1 && Dcd(p) && !p.dtrIgnore
    ensures Dcd(PolledTimes(p, k)) <==> k < 2 || k >= 255
  {
    PollCount(p, k);
  }

  // ---- What every port keeps ----

  /** The invariant of a port; answered says whether its present call has been answered since
      it was accepted. */
  predicate PortOk(p: Port, answered: bool)
  {
    p.sock >= NULL && p.listenSock >= NULL && -1 <= p.hunt < 2 && 0 <= p.at.s0 < 256 &&
    (p.mode == Conn <==> p.sock != NULL) &&
    !(p.at.ringing && p.at.connectPending) &&
    (p.mode == Conn && !p.at.ringing ==> answered) &&
    (p.mode == Listen ==> !p.at.ringing && !p.at.connectPending)
  }

  /** A call is accepted. */
  function Accepted(p: Port, ns: int, now: int): Port
  {
    p.(sock := ns, mode := Conn, connTick := now, lastRx := now, lastTx := now, at := SendRing(p.at, now))
  }

  /** A call that is closed by the poll cycle: no carrier, and the port listens again. */
  function Dropped(p: Port): Port
  {
    HungUp(p.(at := SendNoCarrier(p.at)))
  }

  /** AH=04h, first part: a call whose close is pending, or whose carrier was dropped, ends. */
  function MustClose(p: Port): bool
  {
    p.pendingClose || (p.mode == Conn && p.sock != NULL && p.purgeSeen >= 3)
  }

  function InitClosed(p: Port): Port
  {
    if MustClose(p) then HungUp(p.(pendingClose := false, dtrIgnore := false)) else p
  }

  /** AH=04h, second part: everything is reset, but an unanswered call goes on ringing. */
  function InitReset(p: Port, now: int): Port
  {
    var q := p.(fossil := true, dtr := true, purgeSeen := 0, lastRx := now, lastTx := now, idleTimeout := 0);
    var ring := p.at.ringing && p.mode == Conn && p.sock != NULL && !p.pendingClose;
    q.(at := if ring then FRESH_AT.(ringing := true, ringTick := now) else FRESH_AT)
  }

  /** After AH=04h a port rings exactly when it has a call that was ringing before, unanswered,
      and that the initialisation did not close; the call itself stays in that case. */
  lemma InitKeepsCall(p: Port, answered: bool, now: int)
    requires PortOk(p, answered)
    ensures var q := InitReset(InitClosed(p), now);
      (q.at.ringing <==> p.at.ringing && p.mode == Conn && !MustClose(p)) &&
      (!MustClose(p) ==> q.mode == p.mode && q.sock == p.sock) &&
      (q.mode == Conn && !q.at.ringing ==> answered)
  {
  }

  /** AH=06h. */
  function DtrSet(p: Port, raise: bool, now: int): Port
  {
    var q := p.(dtr := raise);
    if raise then (if p.at.ringing && p.mode == Conn then q.(at := SendConnect(p.at, now)) else q)
    else if !p.dtrIgnore && p.mode == Conn && p.sock != NULL then q.(pendingClose := true)
    else q
  }

  /** AH=05h. */
  function Deinit(p: Port): Port
  {
    var q := p.(fossil := false);
    if !p.dtrIgnore && p.dtr && p.mode == Conn && p.sock != NULL then q.(pendingClose := true) else q
  }

  /** AH=09h. */
  function Purged(p: Port, now: int): Port
  {
    if p.mode == Conn && p.sock != NULL && p.purgeSeen < 3 && !p.dtrIgnore && Elapsed(now, p.connTick) > 182
    then p.(purgeSeen := 1) else p
  }

  /** cmd_disconnect. */
  function Disconnecting(p: Port): Port
  {
    if p.sock != NULL then p.(pendingClose := true) else p
  }

  /** The AT commands that act on the call. */
  datatype AtCommand = Ata | Ato | Ath | Atz | Ats0(v: nat) | Ats30(v: nat)

  function AtCommanded(p: Port, c: AtCommand, now: int): Port
  {
    match c
    case Ata => if p.mode == Conn then p.(at := SendConnect(p.at, now)) else p
    case Ato => p.(at := if p.mode == Conn then SendConnect(p.at, now) else p.at.(cmdMode := false))
    case Ath =>
      var q := p.(at := p.at.(cmdMode := false));
      if p.at.ringing then q
      else if p.mode == Conn && p.sock != NULL then q.(pendingClose := true)
      else q
    case Atz =>
      var q := p.(at := p.at.(s0 := 0, cmdMode := true), dtrIgnore := false);
      if p.mode == Conn && p.sock != NULL then Disconnecting(q) else q
    case Ats0(v) => p.(at := p.at.(s0 := v % 256))
    case Ats30(v) => p.(idleTimeout := v % 65536)
  }

  /** Whether the command answers the call. */
  predicate Answers(p: Port, c: AtCommand)
  {
    (c == Ata || c == Ato) && p.mode == Conn
  }

  /** cmd_listen. */
  function Listening(p: Port, tcpPort: int): Port
  {
    Disconnecting(p).(listenSock := NULL, sock := NULL, localPort := tcpPort, mode := Disc, initialized := true)
  }
}
