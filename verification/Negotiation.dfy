/**
 Two endpoints that both run the option policy on whatever the other sends. Messages arrive in
 order in each direction; which direction delivers next is arbitrary.
 */
module Negotiation {
  import opened Powers
  import opened Telnet

  /** A message in flight: an option command, or the terminal type request, which the policy
      does not look at. */
  datatype Message = Opt(cmd: byte, opt: byte) | Request

  /** The messages in what the policy sends. */
  function Parsed(sent: seq<byte>): seq<Message>
  {
    if |sent| == 3 then [Opt(sent[1], sent[2])] else if sent == [] then [] else [Request]
  }

  /** One endpoint's answer to one message. */
  function Answer(f: Flags, m: Message): (Flags, seq<Message>)
  {
    if m.Request? then (f, []) else (OnOption(f, m.cmd, m.opt).0, Parsed(OnOption(f, m.cmd, m.opt).1))
  }

  /** Both ends' flags and what is on its way to each. */
  datatype Net = Net(a: Flags, b: Flags, toA: seq<Message>, toB: seq<Message>)

  /** Delivers the next message to A or to B; nothing happens if there is none. */
  function Deliver(n: Net, fst: bool): Net
  {
    if fst then
      if n.toA == [] then n
      else
        var (f, reply) := Answer(n.a, n.toA[0]);
        Net(f, n.b, n.toA[1..], n.toB + reply)
    else
      if n.toB == [] then n
      else
        var (f, reply) := Answer(n.b, n.toB[0]);
        Net(n.a, f, n.toA + reply, n.toB[1..])
  }

  // ---- The measure ----

  function Unset(f: Flags): nat
  {
    One(!f.binary) + One(!f.echo) + One(!f.sga) + One(!f.naws) + One(!f.ttype)
  }

  /** DO and WILL weigh two: they can be answered by a WONT, DONT or request, which weigh one
      and are not answered, or by a DO or WILL that uses up a flag. */
  function Weight(m: Message): nat
  {
    if m.Opt? && (m.cmd == DO || m.cmd == WILL) then 2 else 1
  }

  function Weights(ms: seq<Message>): nat
    decreases |ms|
  {
    if ms == [] then 0 else Weight(ms[0]) + Weights(ms[1..])
  }

  function Measure(n: Net): nat
  {
    Unset(n.a) + Unset(n.b) + Weights(n.toA) + Weights(n.toB)
  }

  lemma {:induction false} WeightsConcat(x: seq<Message>, y: seq<Message>)
    ensures Weights(x + y) == Weights(x) + Weights(y)
    decreases |x|
  {
    if x == [] {
      assert x + y == y;
    } else {
      assert (x + y)[1..] == x[1..] + y;
      WeightsConcat(x[1..], y);
    }
  }

  /** A flag once set stays set. */
  predicate Grows(f: Flags, g: Flags)
  {
    (f.binary ==> g.binary) && (f.echo ==> g.echo) && (f.sga ==> g.sga) &&
    (f.naws ==> g.naws) && (f.ttype ==> g.ttype)
  }

  /** Refusals are never answered, and an answer costs less than the message it answers. */
  lemma AnswerCosts(f: Flags, m: Message)
    ensures var (g, reply) := Answer(f, m);
      Unset(g) + Weights(reply) < Unset(f) + Weight(m) && Grows(f, g) && |reply| <= 1
    ensures m.Opt? && (m.cmd == WONT || m.cmd == DONT) ==> Answer(f, m) == (f, [])
  {
    var reply := Answer(f, m).1;
    if reply != [] {
      assert reply[1..] == [];
    }
  }

  /** Whether a delivery does anything. */
  predicate Effective(n: Net, fst: bool)
  {
    if fst then n.toA != [] else n.toB != []
  }

  lemma DeliverDecreases(n: Net, fst: bool)
    requires Effective(n, fst)
    ensures Measure(Deliver(n, fst)) < Measure(n)
    ensures Grows(n.a, Deliver(n, fst).a) && Grows(n.b, Deliver(n, fst).b)
  {
    hide Answer, Weight;
    if fst {
      AnswerCosts(n.a, n.toA[0]);
      WeightsConcat(n.toB, Answer(n.a, n.toA[0]).1);
    } else {
      AnswerCosts(n.b, n.toB[0]);
      WeightsConcat(n.toA, Answer(n.b, n.toB[0]).1);
    }
  }

  function Run(n: Net, schedule: seq<bool>): Net
    decreases |schedule|
  {
    if schedule == [] then n else Run(Deliver(n, schedule[0]), schedule[1..])
  }

  /** How many messages a schedule delivers. */
  function Delivered(n: Net, schedule: seq<bool>): nat
    decreases |schedule|
  {
    if schedule == [] then 0
    else One(Effective(n, schedule[0])) + Delivered(Deliver(n, schedule[0]), schedule[1..])
  }

  /** No loop: from any flags and any messages in flight, every schedule delivers at most as
      many messages as the measure says, and no flag is ever cleared. */
  lemma {:induction false} NoLoop(n: Net, schedule: seq<bool>)
    ensures Delivered(n, schedule) + Measure(Run(n, schedule)) <= Measure(n)
    ensures Grows(n.a, Run(n, schedule).a) && Grows(n.b, Run(n, schedule).b)
    decreases |schedule|
  {
    hide Measure, Deliver, Effective;
    if schedule != [] {
      if Effective(n, schedule[0]) {
        DeliverDecreases(n, schedule[0]);
      } else {
        Idle(n, schedule[0]);
      }
      NoLoop(Deliver(n, schedule[0]), schedule[1..]);
    }
  }

  lemma Idle(n: Net, fst: bool)
    requires !Effective(n, fst)
    ensures Deliver(n, fst) == n
  {
  }

  // ---- Two VMODEMs ----

  /** The messages telnet_on_connect sends. */
  const OPENING: seq<Message> := [Opt(WILL, BINARY), Opt(DO, BINARY), Opt(WILL, ECHO), Opt(WILL, SGA),
                                  Opt(DO, SGA), Opt(DO, NAWS), Opt(DO, TTYPE)]

  const START: Net := Net(NO_FLAGS, NO_FLAGS, OPENING, OPENING)

  /** The messages that can occur between two VMODEMs. */
  predicate Usual(m: Message)
  {
    m.Opt? && (m in OPENING || m == Opt(DONT, ECHO) || m == Opt(WONT, NAWS) || m == Opt(WONT, TTYPE))
  }

  predicate AllUsual(ms: seq<Message>)
  {
    forall i :: 0 <= i < |ms| ==> Usual(ms[i])
  }

  /** A message that makes the receiver set the flag for option opt. */
  predicate Sets(m: Message, opt: byte)
  {
    m == Opt(WILL, opt) || m == Opt(DO, opt)
  }

  /** The flag is set, or a message that sets it is on its way. */
  predicate Coming(flag: bool, ms: seq<Message>, opt: byte)
  {
    flag || exists i :: 0 <= i < |ms| && Sets(ms[i], opt)
  }

  predicate Side(f: Flags, ms: seq<Message>)
  {
    AllUsual(ms) && !f.echo && !f.naws && !f.ttype && Coming(f.binary, ms, BINARY) && Coming(f.sga, ms, SGA)
  }

  predicate Normal2(n: Net)
  {
    Side(n.a, n.toA) && Side(n.b, n.toB)
  }

  lemma UsualAnswer(f: Flags, m: Message)
    requires Usual(m) && !f.echo && !f.naws && !f.ttype
    ensures var (g, reply) := Answer(f, m);
      AllUsual(reply) && !g.echo && !g.naws && !g.ttype &&
      g.binary == (f.binary || Sets(m, BINARY)) && g.sga == (f.sga || Sets(m, SGA))
  {
  }

  lemma SideReceives(f: Flags, ms: seq<Message>)
    requires Side(f, ms) && ms != []
    ensures Side(Answer(f, ms[0]).0, ms[1..]) && AllUsual(Answer(f, ms[0]).1)
  {
    hide Answer, Usual;
    UsualAnswer(f, ms[0]);
    var rest := ms[1..];
    assert forall i :: 0 < i < |ms| ==> ms[i] == rest[i - 1];
  }

  lemma SideGets(f: Flags, ms: seq<Message>, more: seq<Message>)
    requires Side(f, ms) && AllUsual(more)
    ensures Side(f, ms + more)
  {
    hide Usual, Sets;
    assert forall i :: 0 <= i < |ms| ==> (ms + more)[i] == ms[i];
  }

  lemma {:induction false} UsualRun(n: Net, schedule: seq<bool>)
    requires Normal2(n)
    ensures Normal2(Run(n, schedule))
    decreases |schedule|
  {
    hide Side, Answer;
    if schedule != [] {
      if Effective(n, schedule[0]) {
        if schedule[0] {
          SideReceives(n.a, n.toA);
          SideGets(n.b, n.toB, Answer(n.a, n.toA[0]).1);
        } else {
          SideReceives(n.b, n.toB);
          SideGets(n.a, n.toA, Answer(n.b, n.toB[0]).1);
        }
      }
      UsualRun(Deliver(n, schedule[0]), schedule[1..]);
    }
  }

  /** When two VMODEMs call each other, whatever the schedule, after at most 38 deliveries
      nothing is in flight, and then both have agreed on BINARY and SGA and on nothing else. */
  lemma TwoVmodems(schedule: seq<bool>)
    ensures Delivered(START, schedule) <= 38
    ensures var n := Run(START, schedule);
      n.toA == [] && n.toB == [] ==>
        n.a == n.b == Flags(true, false, true, false, false)
  {
    hide Run, Delivered, Usual, Sets, Weights;
    StartSide();
    UsualRun(START, schedule);
    OpeningWeight();
    NoLoop(START, schedule);
  }

  lemma StartSide()
    ensures Side(NO_FLAGS, OPENING)
  {
    assert Usual(OPENING[0]) && Usual(OPENING[1]) && Usual(OPENING[2]) && Usual(OPENING[3]) && Usual(OPENING[4])
      && Usual(OPENING[5]) && Usual(OPENING[6]);
    assert Sets(OPENING[0], BINARY) && Sets(OPENING[3], SGA);
  }

  lemma OpeningWeight()
    ensures Weights(OPENING) == 14
  {
    assert forall i :: 0 <= i < 7 ==> Weight(OPENING[i]) == 2;
    SevenWeights(OPENING, 0);
  }

  lemma {:induction false} SevenWeights(ms: seq<Message>, k: nat)
    requires k <= |ms| && forall i :: 0 <= i < |ms| ==> Weight(ms[i]) == 2
    ensures Weights(ms[k..]) == 2 * (|ms| - k)
    decreases |ms| - k
  {
    if k < |ms| {
      SevenWeights(ms, k + 1);
      assert ms[k..][1..] == ms[k + 1..];
    }
  }
}
