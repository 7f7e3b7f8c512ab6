/** What the command interpreter answers, in text, and what its registers and settings hold. */
module Results {
  import opened Powers
  import opened Call
  import opened AtLine

  /** A text in ASCII. */
  function Ascii(s: string): (r: seq<byte>)
    requires forall i :: 0 <= i < |s| ==> s[i] < 128 as char
    ensures |r| == |s|
  {
    seq(|s|, i requires 0 <= i < |s| => s[i] as int)
  }

  // ---- Result codes ----

  /** The text of a result code that is not a register's value. */
  function Text(r: Reply, verbose: bool): string
    requires !r.Register?
  {
    match r
    case Ok => if verbose then "OK" else "0"
    case Error => if verbose then "ERROR" else "4"
    case NoCarrier => if verbose then "NO CARRIER" else "3"
    case Ident => "VMODEM 1.0"
    case Silent => ""
  }

  /** The code in either form is the text of the manual, between two line ends or before a CR. */
  lemma ResponseExact(m: Session, r: Reply)
    requires !r.Register?
    ensures Respond(m, r) ==
      if m.quiet || r.Silent? then []
      else if m.verbose then Ascii("\r\n") + Ascii(Text(r, true)) + Ascii("\r\n")
      else Ascii(Text(r, false)) + Ascii("\r")
  {
    assert Code(r, m.verbose) == Ascii(Text(r, m.verbose));
    assert Ascii("\r\n") == [0x0D, 0x0A] && Ascii("\r") == [0x0D];
  }

  /** Different outcomes are told apart in either form. */
  lemma CodesDistinct(r: Reply, s: Reply, verbose: bool)
    requires !r.Register? && !s.Register?
    ensures Code(r, verbose) == Code(s, verbose) <==> r == s
  {
    var a, b := Code(r, verbose), Code(s, verbose);
    assert a != [] && b != [] && a[0] == b[0] && |a| == |b| ==> r == s;
  }

  // ---- Registers ----

  /** A register is shown in three digits, which are its value modulo 1000. */
  lemma QueryValue(v: nat, verbose: bool)
    requires v < 32768
    ensures var d := Code(Register(v), verbose);
      |d| == 3 && AllDigits(d) && ValueOf(d) == v % 1000
  {
    var a, b, c := v / 100 % 10, v / 10 % 10, v % 10;
    var d := [0x30 + a, 0x30 + b, 0x30 + c];
    assert Code(Register(v), verbose) == d;
    hide Code, Shifted;
    AccumulateMore([], d[0], 0);
    AccumulateMore([d[0]], d[1], 0);
    AccumulateMore([d[0], d[1]], d[2], 0);
    assert [] + [d[0]] == [d[0]] && [d[0]] + [d[1]] == [d[0], d[1]] && [d[0], d[1]] + [d[2]] == d;
    ShiftedExact(0, a);
    ShiftedExact(a, b);
    ShiftedExact(10 * a + b, c);
    Digits(v);
  }

  lemma TenTimesTen(v: nat)
    ensures v / 100 == v / 10 / 10 && v / 1000 == v / 10 / 10 / 10
  {
  }

  lemma LastThree(q: nat, r: nat)
    requires r < 1000
    ensures (1000 * q + r) % 1000 == r
  {
  }

  lemma Digits(v: nat)
    ensures v % 1000 == (v / 100 % 10 * 10 + v / 10 % 10) * 10 + v % 10
  {
    TenTimesTen(v);
    var t := v / 10;
    var u := t / 10;
    assert v == 10 * t + v % 10 && t == 10 * u + t % 10 && u == 10 * (u / 10) + u % 10;
    LastThree(u / 10, (u % 10 * 10 + t % 10) * 10 + v % 10);
  }

  /** Register 0 is the ring count of automatic answering and register 30 the idle timeout; the
      others are accepted and forgotten. */
  lemma SetExact(m: Session, reg: int, v: int)
    ensures Set(m, reg, v) ==
      if reg == 0 then m.(port := m.port.(at := m.port.at.(s0 := v % 256)))
      else if reg == 30 then m.(port := m.port.(idleTimeout := v % 65536))
      else m
  {
  }

  /** AT&D0 makes the port ignore DTR, any other AT&D makes it obey; every port gets the setting. */
  lemma DtrModeExact(m: Session, v: int)
    ensures DtrMode(m, v).port.dtrIgnore <==> v == 0
    ensures DtrMode(m, v) == m.(port := DtrMode(m, v).port, dtrModes := m.dtrModes + [v == 0])
    ensures DtrMode(m, v).port == m.port.(dtrIgnore := v == 0)
  {
  }

  /** Any character is read without its bit 5; AT is taken in any mixture of cases. */
  lemma AttentionExact(a: byte, t: byte)
    ensures Attention(a, t) <==> [a, t] in {Ascii("AT"), Ascii("At"), Ascii("aT"), Ascii("at")}
  {
    assert Ascii("AT") == [0x41, 0x54] && Ascii("At") == [0x41, 0x74];
    assert Ascii("aT") == [0x61, 0x54] && Ascii("at") == [0x61, 0x74];
  }

  predicate Register0Or30(reg: nat, n: nat)
  {
    (reg == 0 && n < 256) || (reg == 30 && n < 32768)
  }

  lemma SetLine(m: Session, reg: nat, n: nat, now: int)
    requires Register0Or30(reg, n)
    ensures Execute(m, Ascii("AT") + (Ascii("S") + Decimal(reg) + Ascii("=") + Decimal(n)), now) == (Set(m, reg, n), Ok)
  {
    hide Execute, Decimal, Set, Accumulate;
    var c := SetRegister(Decimal(reg), Decimal(n));
    var cs := [(c, false)];
    DecimalValue(reg);
    DecimalValue(n);
    assert PrintAll(cs) == Print(c, false) + PrintAll(cs[1..]) && cs[1..] == [];
    assert Ascii("AT") == [0x41, 0x54] && Ascii("S") == [0x53] && Ascii("=") == [0x3D];
    assert PrintAll(cs) == Ascii("S") + Decimal(reg) + Ascii("=") + Decimal(n);
    LineMeansCommands(m, [], 0x41, 0x54, cs, now);
    assert [] + ([0x41, 0x54] + PrintAll(cs)) == [0x41, 0x54] + PrintAll(cs);
    assert Perform(Set(m, reg, n), cs[1..], now) == (Set(m, reg, n), Ok);
  }

  lemma QueryLine(m: Session, reg: nat, now: int)
    requires reg < 32768
    ensures Execute(m, Ascii("AT") + (Ascii("S") + Decimal(reg) + Ascii("?")), now) == (m, Register(Get(m, reg)))
  {
    hide Execute, Decimal, Get, Accumulate;
    var c := Query(Decimal(reg));
    var cs := [(c, false)];
    DecimalValue(reg);
    assert PrintAll(cs) == Print(c, false) + PrintAll(cs[1..]) && cs[1..] == [];
    assert Ascii("AT") == [0x41, 0x54] && Ascii("S") == [0x53] && Ascii("?") == [0x3F];
    assert PrintAll(cs) == Ascii("S") + Decimal(reg) + Ascii("?");
    LineMeansCommands(m, [], 0x41, 0x54, cs, now);
    assert [] + ([0x41, 0x54] + PrintAll(cs)) == [0x41, 0x54] + PrintAll(cs);
  }

  /** After ATS0=n or ATS30=n the register holds n, and the query answers with the last three
      digits of n in decimal. */
  lemma SetThenQuery(m: Session, reg: nat, n: nat, now: int, later: int)
    requires Register0Or30(reg, n)
    ensures var (m', r) := Execute(m, Ascii("AT") + (Ascii("S") + Decimal(reg) + Ascii("=") + Decimal(n)), now);
      var (m'', answer) := Execute(m', Ascii("AT") + (Ascii("S") + Decimal(reg) + Ascii("?")), later);
      r == Ok && m'' == m' && n == (if reg == 0 then m'.port.at.s0 else m'.port.idleTimeout) &&
      answer.Register? &&
      var digits := Code(answer, m.verbose);
      |digits| == 3 && AllDigits(digits) && ValueOf(digits) == n % 1000
  {
    hide Execute, Decimal, Code, ValueOf;
    SetLine(m, reg, n, now);
    QueryLine(Set(m, reg, n), reg, later);
    SetExact(m, reg, n);
    QueryValue(n, m.verbose);
  }
}
