/**
 The negotiation as bytes on the line: two Telnet parsers that read what the other sends, one
 byte at a time, under any schedule. It refines the exchange of messages of Negotiation.
 */
module Line {
  import opened Powers
  import opened Telnet
  import opened Negotiation

  // ---- Messages as bytes (RFC 854, and RFC 1091 for the request) ----

  function Bytes(m: Message): (s: seq<byte>)
    ensures s != [] && |s| <= 6
  {
    match m
    case Opt(cmd, opt) => [0xFF, cmd, opt]
    case Request => [0xFF, 0xFA, 0x18, 0x01, 0xFF, 0xF0]
  }

  function AllBytes(ms: seq<Message>): seq<byte>
    decreases |ms|
  {
    if ms == [] then [] else Bytes(ms[0]) + AllBytes(ms[1..])
  }

  /** WILL, WONT, DO and DONT are FBh to FEh. */
  predicate IsMessage(m: Message)
  {
    m.Opt? ==> 0xFB <= m.cmd <= 0xFE
  }

  predicate AreMessages(ms: seq<Message>)
  {
    forall i :: 0 <= i < |ms| ==> IsMessage(ms[i])
  }

  lemma {:induction false} AllBytesConcat(x: seq<Message>, y: seq<Message>)
    ensures AllBytes(x + y) == AllBytes(x) + AllBytes(y)
    decreases |x|
  {
    hide Bytes;
    if x == [] {
      assert x + y == y;
    } else {
      assert (x + y)[1..] == x[1..] + y;
      AllBytesConcat(x[1..], y);
    }
  }

  /** What telnet_on_connect sends, byte for byte: WILL and DO BINARY, WILL ECHO, WILL and DO SGA,
      DO NAWS, DO TERMINAL-TYPE. */
  lemma OffersOnTheLine()
    ensures OFFERS == [0xFF, 0xFB, 0, 0xFF, 0xFD, 0, 0xFF, 0xFB, 1, 0xFF, 0xFB, 3, 0xFF, 0xFD, 3, 0xFF, 0xFD, 31, 0xFF, 0xFD, 24]
  {
  }

  /** They are the messages the exchange starts with. */
  lemma OffersAreOpening()
    ensures OFFERS == AllBytes(OPENING) && AreMessages(OPENING)
  {
    OffersOnTheLine();
    OpeningFrom();
  }

  lemma OpeningFrom()
    ensures AllBytes(OPENING)
         == [0xFF, 0xFB, 0, 0xFF, 0xFD, 0, 0xFF, 0xFB, 1, 0xFF, 0xFB, 3, 0xFF, 0xFD, 3, 0xFF, 0xFD, 31, 0xFF, 0xFD, 24]
  {
    var ms := OPENING;
    assert ms[4..] == [Opt(DO, SGA), Opt(DO, NAWS), Opt(DO, TTYPE)] && ms == ms[..4] + ms[4..];
    AllBytesConcat(ms[..4], ms[4..]);
    FirstFour(ms[..4]);
    LastThree(ms[4..]);
  }

  lemma FirstFour(ms: seq<Message>)
    requires ms == [Opt(WILL, BINARY), Opt(DO, BINARY), Opt(WILL, ECHO), Opt(WILL, SGA)]
    ensures AllBytes(ms) == [0xFF, 0xFB, 0, 0xFF, 0xFD, 0, 0xFF, 0xFB, 1, 0xFF, 0xFB, 3]
  {
    LastTwo(ms[2..]);
    LastTwo(ms[..2]);
    AllBytesConcat(ms[..2], ms[2..]);
    assert ms == ms[..2] + ms[2..];
  }

  lemma LastTwo(ms: seq<Message>)
    requires |ms| == 2
    ensures AllBytes(ms) == Bytes(ms[0]) + Bytes(ms[1])
  {
    hide Bytes;
    assert ms[1..][1..] == [];
    assert AllBytes(ms[1..]) == Bytes(ms[1]) + [];
  }

  lemma LastThree(ms: seq<Message>)
    requires ms == [Opt(DO, SGA), Opt(DO, NAWS), Opt(DO, TTYPE)]
    ensures AllBytes(ms) == [0xFF, 0xFD, 3, 0xFF, 0xFD, 31, 0xFF, 0xFD, 24]
  {
    LastTwo(ms[1..]);
  }

  // ---- One message through the parser ----

  /** k bytes of message m have been read; the flags are still f. */
  predicate Within(p: Parser, f: Flags, m: Message, k: nat)
  {
    IsParser(p) && p.flags == f &&
    match m
    case Opt(cmd, _) => (k == 0 && p.state == Normal) || (k == 1 && p.state == SawFf) || (k == 2 && p.state == SawCmd && p.cmd == cmd)
    case Request =>
      (k == 0 && p.state == Normal) || (k == 1 && p.state == SawFf) || (2 <= k <= 4 && p.state == InSb) || (k == 5 && p.state == SbIac)
  }

  /** The parser does nothing until the last byte of a message and then just what the policy
      answers; nothing of it is data. */
  lemma ReadByte(p: Parser, f: Flags, m: Message, k: nat)
    requires IsMessage(m) && k < |Bytes(m)| && Within(p, f, m, k)
    ensures var q := Step(p, Bytes(m)[k]);
      q.r == -1 &&
      if k + 1 < |Bytes(m)| then Within(q.p, f, m, k + 1) && q.sent == []
      else q.p.state == Normal && q.p.flags == Answer(f, m).0 && q.sent == AllBytes(Answer(f, m).1)
  {
    if m.Opt? && k == 2 {
      PolicyBytes(f, m.cmd, m.opt);
      hide OnOption, Parsed, AllBytes;
    } else {
      hide SbByte, OnOption;
      assert AllBytes([]) == [];
    }
  }

  /** What the policy sends is one message or none. */
  lemma PolicyBytes(f: Flags, cmd: byte, opt: byte)
    ensures var sent := OnOption(f, cmd, opt).1;
      AllBytes(Parsed(sent)) == sent && AreMessages(Parsed(sent))
  {
    var sent := OnOption(f, cmd, opt).1;
    if sent != [] {
      assert Parsed(sent)[1..] == [];
    }
  }

  // ---- Whole messages ----

  /** The policy's answers to some messages, in order. */
  function Answers(f: Flags, ms: seq<Message>): (Flags, seq<Message>)
    decreases |ms|
  {
    if ms == [] then (f, [])
    else
      var (g, reply) := Answer(f, ms[0]);
      var (last, replies) := Answers(g, ms[1..]);
      (last, reply + replies)
  }

  /** Messages that arrive as bytes, cut in any way, have the effect of their answers. */
  lemma {:induction false} FeedMessages(p: Parser, ms: seq<Message>)
    requires IsParser(p) && p.state == Normal && AreMessages(ms)
    ensures var fed, (last, replies) := Feed(p, AllBytes(ms)), Answers(p.flags, ms);
      fed.p.state == Normal && fed.p.flags == last && fed.data == [] && fed.sent == AllBytes(replies)
    decreases |ms|
  {
    hide Bytes, Feed, Answer;
    FeedNothing(p);
    if ms != [] {
      var m := ms[0];
      var q := FeedMessage(p, p.flags, m, 0);
      FeedConcat(p, Bytes(m), AllBytes(ms[1..]));
      FeedMessages(q, ms[1..]);
      AllBytesConcat(Answer(p.flags, m).1, Answers(q.flags, ms[1..]).1);
    }
  }

  lemma {:induction false} FeedMessage(p: Parser, f: Flags, m: Message, k: nat) returns (q: Parser)
    requires IsParser(p) && IsMessage(m) && k < |Bytes(m)| && Within(p, f, m, k)
    ensures IsParser(q) && q.state == Normal && q.flags == Answer(f, m).0
    ensures Feed(p, Bytes(m)[k..]) == Fed(q, [], AllBytes(Answer(f, m).1))
    decreases |Bytes(m)| - k
  {
    hide Bytes, Within, Step, Answer, Feed, AllBytes;
    var s := Bytes(m)[k..];
    var one := Step(p, Bytes(m)[k]);
    ReadByte(p, f, m, k);
    FeedOne(p, Bytes(m)[k]);
    assert s == [Bytes(m)[k]] + Bytes(m)[k + 1..];
    FeedConcat(p, [Bytes(m)[k]], Bytes(m)[k + 1..]);
    if k + 1 < |Bytes(m)| {
      q := FeedMessage(one.p, f, m, k + 1);
      assert [] + AllBytes(Answer(f, m).1) == AllBytes(Answer(f, m).1);
    } else {
      q := one.p;
      assert Bytes(m)[k + 1..] == [];
      assert s == [Bytes(m)[k]];
    }
  }

  // ---- Two parsers ----

  /** Both parsers and the bytes on their way to each. */
  datatype Wires = Wires(a: Parser, b: Parser, toA: seq<byte>, toB: seq<byte>)

  predicate AreWires(w: Wires)
  {
    IsParser(w.a) && IsParser(w.b)
  }

  /** Carries the next byte to A or to B; nothing happens if there is none. The second component
      is what the receiver takes for data. */
  function Carry(w: Wires, fst: bool): (r: (Wires, seq<byte>))
    requires AreWires(w)
    ensures AreWires(r.0)
  {
    if fst then
      if w.toA == [] then (w, [])
      else
        var q := Step(w.a, w.toA[0]);
        (Wires(q.p, w.b, w.toA[1..], w.toB + q.sent), DataOf(q.r))
    else
      if w.toB == [] then (w, [])
      else
        var q := Step(w.b, w.toB[0]);
        (Wires(w.a, q.p, w.toA + q.sent, w.toB[1..]), DataOf(q.r))
  }

  predicate Moves(w: Wires, fst: bool)
  {
    if fst then w.toA != [] else w.toB != []
  }

  /** The end of a schedule, the number of bytes carried, and the data. */
  function CarryAll(w: Wires, schedule: seq<bool>): (r: (Wires, nat, seq<byte>))
    requires AreWires(w)
    ensures AreWires(r.0)
    decreases |schedule|
  {
    if schedule == [] then (w, 0, [])
    else
      var (v, data) := Carry(w, schedule[0]);
      var (last, n, more) := CarryAll(v, schedule[1..]);
      (last, One(Moves(w, schedule[0])) + n, data + more)
  }

  /** The bytes on one side are those of the messages ms, of which k have been read already. */
  predicate Tracks(p: Parser, bytes: seq<byte>, f: Flags, ms: seq<Message>, k: nat)
  {
    AreMessages(ms) &&
    if ms == [] then k == 0 && bytes == [] && IsParser(p) && p.state == Normal && p.flags == f
    else k < |Bytes(ms[0])| && Within(p, f, ms[0], k) && bytes == AllBytes(ms)[k..]
  }

  /** The bytes refine the messages, with i and j bytes of the first ones read. */
  predicate Refines(w: Wires, n: Net, i: nat, j: nat)
  {
    Tracks(w.a, w.toA, n.a, n.toA, i) && Tracks(w.b, w.toB, n.b, n.toB, j)
  }

  lemma AllBytesCons(ms: seq<Message>)
    requires ms != []
    ensures AllBytes(ms) == Bytes(ms[0]) + AllBytes(ms[1..])
  {
    hide Bytes;
  }

  lemma NoneTracks(p: Parser, bytes: seq<byte>, f: Flags, ms: seq<Message>, k: nat)
    requires Tracks(p, bytes, f, ms, k)
    ensures IsParser(p) && (bytes == [] <==> ms == []) && (ms == [] ==> p.state == Normal && p.flags == f && k == 0) && k < 6
    ensures ms != [] ==> k < |Bytes(ms[0])|
  {
    hide Bytes, AllBytes, IsMessage;
    if ms != [] {
      AllBytesCons(ms);
    }
  }

  /** Reading one byte: either one more of the same message, or the message is delivered. */
  lemma SideReads(p: Parser, bytes: seq<byte>, f: Flags, ms: seq<Message>, k: nat)
    requires IsParser(p) && Tracks(p, bytes, f, ms, k) && ms != [] && bytes != []
    ensures var q := Step(p, bytes[0]);
      q.r == -1 &&
      (k + 1 < |Bytes(ms[0])| ==> q.sent == [] && Tracks(q.p, bytes[1..], f, ms, k + 1)) &&
      (k + 1 == |Bytes(ms[0])| ==> q.sent == AllBytes(Answer(f, ms[0]).1) && AreMessages(Answer(f, ms[0]).1)) &&
      (k + 1 == |Bytes(ms[0])| ==> Tracks(q.p, bytes[1..], Answer(f, ms[0]).0, ms[1..], 0))
  {
    var m := ms[0];
    assert IsMessage(m);
    ReadByte(p, f, m, k);
    AnswerMessages(f, m);
    AllBytesCons(ms);
    hide Bytes, Step, Answer, IsMessage, AllBytes;
    assert bytes[0] == Bytes(m)[k] && bytes[1..] == AllBytes(ms)[k + 1..];
    if k + 1 == |Bytes(m)| {
      assert AreMessages(ms[1..]);
      StartsTracking(Step(p, bytes[0]).p, Answer(f, m).0, ms[1..]);
    }
  }

  lemma StartsTracking(p: Parser, f: Flags, ms: seq<Message>)
    requires IsParser(p) && p.state == Normal && p.flags == f && AreMessages(ms)
    ensures Tracks(p, AllBytes(ms), f, ms, 0)
  {
    hide IsMessage;
    assert AllBytes(ms)[0..] == AllBytes(ms);
    NothingOnLine();
  }

  lemma NothingOnLine()
    ensures AllBytes([]) == []
  {
  }

  lemma AnswerMessages(f: Flags, m: Message)
    ensures AreMessages(Answer(f, m).1)
  {
    if m.Opt? {
      PolicyBytes(f, m.cmd, m.opt);
    }
  }

  /** More messages at the end of a channel. */
  lemma SideGets(p: Parser, bytes: seq<byte>, f: Flags, ms: seq<Message>, k: nat, more: seq<Message>)
    requires Tracks(p, bytes, f, ms, k) && AreMessages(more)
    ensures Tracks(p, bytes + AllBytes(more), f, ms + more, k)
  {
    hide Bytes, IsMessage, AllBytes, Within;
    if ms == [] {
      NothingOnLine();
      assert ms + more == more && bytes + AllBytes(more) == AllBytes(more);
      StartsTracking(p, f, more);
    } else {
      AllBytesConcat(ms, more);
      AllBytesCons(ms);
      assert (ms + more)[0] == ms[0];
      assert AllBytes(ms)[k..] + AllBytes(more) == AllBytes(ms + more)[k..];
    }
  }

  /** Carrying a byte is one delivery in the exchange of messages, or none. */
  lemma CarryRefines(w: Wires, n: Net, i: nat, j: nat, fst: bool) returns (steps: seq<bool>, i': nat, j': nat)
    requires AreWires(w) && Refines(w, n, i, j)
    ensures |steps| <= 1 && Refines(Carry(w, fst).0, NRun(n, steps), i', j') && Carry(w, fst).1 == []
    ensures One(Moves(w, fst)) + i + j <= 6 * Delivered(n, steps) + i' + j'
  {
    hide Tracks, Step, Answer, Bytes, AllBytes, AreMessages;
    steps, i', j' := [], i, j;
    NoneTracks(w.a, w.toA, n.a, n.toA, i);
    NoneTracks(w.b, w.toB, n.b, n.toB, j);
    NoSteps(n);
    OneStep(n, fst);
    if fst && w.toA != [] {
      SideReads(w.a, w.toA, n.a, n.toA, i);
      if i + 1 < |Bytes(n.toA[0])| {
        i' := i + 1;
        assert w.toB + [] == w.toB;
      } else {
        steps, i' := [true], 0;
        SideGets(w.b, w.toB, n.b, n.toB, j, Answer(n.a, n.toA[0]).1);
      }
    } else if !fst && w.toB != [] {
      SideReads(w.b, w.toB, n.b, n.toB, j);
      if j + 1 < |Bytes(n.toB[0])| {
        j' := j + 1;
        assert w.toA + [] == w.toA;
      } else {
        steps, j' := [false], 0;
        SideGets(w.a, w.toA, n.a, n.toA, i, Answer(n.b, n.toB[0]).1);
      }
    }
  }

  function NRun(n: Net, steps: seq<bool>): Net
  {
    Negotiation.Run(n, steps)
  }

  lemma NoSteps(n: Net)
    ensures NRun(n, []) == n && Delivered(n, []) == 0
  {
  }

  lemma OneStep(n: Net, fst: bool)
    ensures NRun(n, [fst]) == Deliver(n, fst) && Delivered(n, [fst]) == One(Effective(n, fst))
  {
    hide Deliver, Effective;
    assert [fst][1..] == [];
    assert Negotiation.Run(Deliver(n, fst), []) == Deliver(n, fst);
    assert Delivered(Deliver(n, fst), []) == 0;
  }

  lemma {:induction false} RunConcat(n: Net, x: seq<bool>, y: seq<bool>)
    ensures NRun(n, x + y) == NRun(NRun(n, x), y) && Delivered(n, x + y) == Delivered(n, x) + Delivered(NRun(n, x), y)
    decreases |x|
  {
    hide Deliver, Effective;
    if x == [] {
      assert x + y == y;
    } else {
      assert (x + y)[1..] == x[1..] + y;
      RunConcat(Deliver(n, x[0]), x[1..], y);
    }
  }

  /** Every schedule of bytes is a schedule of messages, and carries at most six bytes for each. */
  lemma {:induction false} Simulates(w: Wires, n: Net, i: nat, j: nat, schedule: seq<bool>)
    returns (steps: seq<bool>, i': nat, j': nat)
    requires AreWires(w) && Refines(w, n, i, j)
    ensures var (v, count, data) := CarryAll(w, schedule);
      Refines(v, NRun(n, steps), i', j') && data == [] && count + i + j <= 6 * Delivered(n, steps) + i' + j'
    decreases |schedule|
  {
    hide Carry, Refines, Moves, Delivered, NRun;
    steps, i', j' := [], i, j;
    NoSteps(n);
    if schedule != [] {
      var first, i1, j1 := CarryRefines(w, n, i, j, schedule[0]);
      var rest;
      rest, i', j' := Simulates(Carry(w, schedule[0]).0, NRun(n, first), i1, j1, schedule[1..]);
      RunConcat(n, first, rest);
      steps := first + rest;
    }
  }

  /** Two VMODEMs that call each other, from any state of their buffers: whatever the order in
      which the bytes arrive, at most 238 of them travel, none is taken for data, and when the line
      is quiet both have agreed on BINARY and SGA and on nothing else. */
  lemma TwoVmodemsOnTheLine(a: Parser, b: Parser, schedule: seq<bool>)
    requires IsParser(a) && IsParser(b) && a.state == b.state == Normal
    requires a.flags == b.flags == Flags(false, false, false, false, false)
    ensures var (v, count, data) := CarryAll(Wires(a, b, OFFERS, OFFERS), schedule);
      count <= 238 && data == [] &&
      (v.toA == [] && v.toB == [] ==>
         v.a.state == v.b.state == Normal && v.a.flags == v.b.flags == Flags(true, false, true, false, false))
  {
    hide CarryAll, Tracks, AllBytes, AreMessages, Delivered;
    var w := Wires(a, b, OFFERS, OFFERS);
    OffersAreOpening();
    StartsTracking(a, NO_FLAGS, OPENING);
    StartsTracking(b, NO_FLAGS, OPENING);
    var steps, i, j := Simulates(w, START, 0, 0, schedule);
    TwoVmodems(steps);
    var v, n := CarryAll(w, schedule).0, NRun(START, steps);
    NoneTracks(v.a, v.toA, n.a, n.toA, i);
    NoneTracks(v.b, v.toB, n.b, n.toB, j);
  }
}
