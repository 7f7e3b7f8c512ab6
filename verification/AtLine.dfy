/** The Hayes command interpreter: line editing, the escape to command mode, and command lines. */
module AtLine {
  import opened Powers
  import opened Call
  import opened Ring

  /** What a command line works on: the interpreter's settings and the port. dtrModes are the
      settings of AT&D so far, which go to every port. */
  datatype Session = Session(echo: bool, quiet: bool, verbose: bool, plus: int, port: Port, dtrModes: seq<bool>)

  /** The result code of a line; Silent for an answer, whose CONNECT comes later. */
  datatype Reply = Ok | Error | NoCarrier | Register(v: int) | Ident | Silent

  // ---- Numbers ----

  predicate IsDigit(c: byte)
  {
    0x30 <= c <= 0x39
  }

  /** One turn of `val = val * 10 + digit` in a 16-bit int. */
  function Shifted(v: int, c: byte): int
  {
    Signed(v * 10 + (c - 0x30))
  }

  /** The number at the front and what follows it. */
  function ReadNumber(s: seq<byte>, v: int): (r: (int, seq<byte>))
    ensures |r.1| <= |s|
    decreases |s|
  {
    if s != [] && IsDigit(s[0]) then ReadNumber(s[1..], Shifted(v, s[0])) else (v, s)
  }

  function SkipDigits(s: seq<byte>): (r: seq<byte>)
    ensures |r| <= |s|
    decreases |s|
  {
    if s != [] && IsDigit(s[0]) then SkipDigits(s[1..]) else s
  }

  /** An optional digit. */
  function SkipOne(s: seq<byte>): (r: seq<byte>)
    ensures |r| <= |s|
  {
    if s != [] && IsDigit(s[0]) then s[1..] else s
  }

  // ---- A command line ----

  /** `c & 0xDF`, which makes letters upper case. */
  function Upper(c: byte): byte
  {
    if c / 32 % 2 == 1 then c - 32 else c
  }

  function Set(m: Session, reg: int, v: int): Session
  {
    if reg == 0 then m.(port := AtCommanded(m.port, Ats0(v % 256), 0))
    else if reg == 30 then m.(port := AtCommanded(m.port, Ats30(v % 65536), 0))
    else m
  }

  function Get(m: Session, reg: int): int
  {
    if reg == 0 then m.port.at.s0 else if reg == 30 then Signed(m.port.idleTimeout) else 0
  }

  /** AT&D. */
  function DtrMode(m: Session, v: int): Session
  {
    m.(port := m.port.(dtrIgnore := v == 0), dtrModes := m.dtrModes + [v == 0])
  }

  /** A letter followed by 0 or 1: what is left and the setting, def if there is neither. */
  function Flag(s: seq<byte>, def: bool): (r: (bool, seq<byte>))
    ensures |r.1| <= |s|
  {
    if s != [] && s[0] == 0x30 then (false, s[1..])
    else if s != [] && s[0] == 0x31 then (true, s[1..])
    else (def, s)
  }

  predicate IsMinor(u: byte)
  {
    u == 0x58 || u == 0x4C || u == 0x4D || u == 0x4E || u == 0x57 || u == 0x59 || u == 0x43 || u == 0x46 || u == 0x50 || u == 0x54
  }

  /** The command loop of at_execute on what is left of the line. */
  function Exec(m: Session, s: seq<byte>, now: int): (Session, Reply)
    decreases |s|
  {
    if s == [] then (m, Ok)
    else
      var c, t := s[0], s[1..];
      var u := Upper(c);
      if c == 0x20 then Exec(m, t, now)
      else if c == 0x26 then
        if t == [] then (m, Ok)
        else
          var (v, rest) := ReadNumber(t[1..], 0);
          Exec(if t[0] == 0x44 || t[0] == 0x64 then DtrMode(m, v) else m, rest, now)
      else if c == 0x5C || c == 0x25 then
        if t == [] then (m, Ok) else Exec(m, SkipDigits(t[1..]), now)
      else if u == 0x5A then
        (m.(echo := true, quiet := false, verbose := true, plus := 0, port := AtCommanded(m.port, Atz, now)), Ok)
      else if u == 0x45 then Exec(m.(echo := Flag(t, false).0), Flag(t, false).1, now)
      else if u == 0x51 then Exec(m.(quiet := Flag(t, false).0), Flag(t, false).1, now)
      else if u == 0x56 then Exec(m.(verbose := Flag(t, true).0), Flag(t, true).1, now)
      else if u == 0x48 then
        var h := m.(plus := 0, port := AtCommanded(m.port, Ath, now));
        if !m.port.at.ringing && m.port.mode == Conn && m.port.sock != NULL then (h, NoCarrier)
        else Exec(h, SkipOne(t), now)
      else if u == 0x4F then
        (m.(plus := 0, port := AtCommanded(m.port, Ato, now)), if m.port.mode == Conn then Silent else NoCarrier)
      else if u == 0x41 then
        (m.(port := AtCommanded(m.port, Ata, now)), if m.port.mode == Conn then Silent else NoCarrier)
      else if u == 0x53 then
        var (reg, r) := ReadNumber(t, 0);
        if r != [] && r[0] == 0x3D then
          var (v, rest) := ReadNumber(r[1..], 0);
          Exec(Set(m, reg, v), rest, now)
        else if r != [] && r[0] == 0x3F then (m, Register(Get(m, reg)))
        else Exec(m, r, now)
      else if u == 0x44 then (m, Ok)
      else if u == 0x49 then (m, Ident)
      else if IsMinor(u) then Exec(m, SkipDigits(t), now)
      else Exec(m, t, now)
  }

  /** Z, H, O and A. */
  predicate OnCall(u: byte)
  {
    u == 0x5A || u == 0x48 || u == 0x4F || u == 0x41
  }

  function SkipBlanks(s: seq<byte>): (r: seq<byte>)
    ensures |r| <= |s|
    decreases |s|
  {
    if s != [] && (s[0] == 0x20 || s[0] == 0x09) then SkipBlanks(s[1..]) else s
  }

  /** at_execute. */
  function Execute(m: Session, line: seq<byte>, now: int): (Session, Reply)
  {
    var s := SkipBlanks(line);
    if |s| < 2 || !Attention(s[0], s[1]) then (m, Error) else Exec(m, s[2..], now)
  }

  /** AT in either case. */
  predicate Attention(a: byte, t: byte)
  {
    (a == 0x41 || a == 0x61) && (t == 0x54 || t == 0x74)
  }

  // ---- Printing ----

  predicate AllDigits(d: seq<byte>)
  {
    forall i :: 0 <= i < |d| ==> IsDigit(d[i])
  }

  /** The number a digit string stands for, in a 16-bit int; none at all stands for 0. */
  function ValueOf(d: seq<byte>): int
  {
    Accumulate(d, 0)
  }

  /** The value of a digit string read from v on. */
  function Accumulate(digits: seq<byte>, v: int): int
    decreases |digits|
  {
    if digits == [] then v else Accumulate(digits[1..], Shifted(v, digits[0]))
  }

  /** The 0 or 1 behind a setting letter, if it is there. */
  datatype Switch = Bare | Off | On

  /** The commands, with the letters they start with; numbers are digit strings as typed. */
  datatype Command =
    | Echo(f: Switch)
    | Quiet(f: Switch)
    | Verbose(f: Switch)
    | Hook(d: seq<byte>)
    | SetRegister(reg: seq<byte>, v: seq<byte>)
    | SelectRegister(reg: seq<byte>)
    | Amp(sub: byte, n: seq<byte>)
    | Slash(percent: bool, sub: byte, n: seq<byte>)
    | Minor(letter: byte, n: seq<byte>)
    | Other(c: byte)
    | Blank
    | Answer
    | Online(d: seq<byte>)
    | Reset(d: seq<byte>)
    | Query(reg: seq<byte>)
    | Dial(number: seq<byte>)
    | Identify(d: seq<byte>)

  predicate IsCommand(c: Command)
  {
    match c
    case Hook(d) => AllDigits(d) && |d| <= 1
    case SetRegister(reg, v) => AllDigits(reg) && AllDigits(v)
    case SelectRegister(reg) => AllDigits(reg)
    case Amp(_, n) => AllDigits(n)
    case Slash(_, _, n) => AllDigits(n)
    case Minor(letter, n) => IsMinor(letter) && AllDigits(n)
    case Other(x) => Starts(x) && !Special(x) && !Known(Upper(x))
    case Online(d) => AllDigits(d)
    case Reset(d) => AllDigits(d)
    case Query(reg) => AllDigits(reg)
    case Identify(d) => AllDigits(d)
    case _ => true
  }

  /** The letters that mean something. */
  predicate Known(u: byte)
  {
    OnCall(u) || IsMinor(u) || u == 0x45 || u == 0x51 || u == 0x56 || u == 0x53 || u == 0x44 || u == 0x49
  }

  /** What a command may start with: nothing that could belong to the one in front. */
  predicate Starts(c: byte)
  {
    !IsDigit(c) && c != 0x3D && c != 0x3F
  }

  /** Characters the loop looks at before it takes a letter. */
  predicate Special(c: byte)
  {
    c == 0x20 || c == 0x26 || c == 0x5C || c == 0x25
  }

  function SwitchText(f: Switch): seq<byte>
  {
    match f
    case Bare => []
    case Off => [0x30]
    case On => [0x31]
  }

  /** A letter in either case. */
  function Letter(l: byte, lower: bool): byte
    requires 0x41 <= l <= 0x5A
  {
    if lower then l + 32 else l
  }

  /** The letter or sign a command starts with. */
  function Front(c: Command, lower: bool): byte
    requires IsCommand(c)
  {
    match c
    case Echo(_) => Letter(0x45, lower)
    case Quiet(_) => Letter(0x51, lower)
    case Verbose(_) => Letter(0x56, lower)
    case Hook(_) => Letter(0x48, lower)
    case SetRegister(_, _) => Letter(0x53, lower)
    case SelectRegister(_) => Letter(0x53, lower)
    case Query(_) => Letter(0x53, lower)
    case Amp(_, _) => 0x26
    case Slash(percent, _, _) => if percent then 0x25 else 0x5C
    case Minor(letter, _) => Letter(letter, lower)
    case Other(x) => x
    case Blank => 0x20
    case Answer => Letter(0x41, lower)
    case Online(_) => Letter(0x4F, lower)
    case Reset(_) => Letter(0x5A, lower)
    case Dial(_) => Letter(0x44, lower)
    case Identify(_) => Letter(0x49, lower)
  }

  /** What follows that letter. */
  function Rest(c: Command): seq<byte>
  {
    match c
    case Echo(f) => SwitchText(f)
    case Quiet(f) => SwitchText(f)
    case Verbose(f) => SwitchText(f)
    case Hook(d) => d
    case SetRegister(reg, v) => reg + ([0x3D] + v)
    case SelectRegister(reg) => reg
    case Query(reg) => reg + [0x3F]
    case Amp(sub, n) => [sub] + n
    case Slash(_, sub, n) => [sub] + n
    case Minor(_, n) => n
    case Other(_) => []
    case Blank => []
    case Answer => []
    case Online(d) => d
    case Reset(d) => d
    case Dial(number) => number
    case Identify(d) => d
  }

  function Print(c: Command, lower: bool): seq<byte>
    requires IsCommand(c)
  {
    [Front(c, lower)] + Rest(c)
  }

  predicate AreCommands(cs: seq<(Command, bool)>)
  {
    forall i :: 0 <= i < |cs| ==> IsCommand(cs[i].0)
  }

  function PrintAll(cs: seq<(Command, bool)>): seq<byte>
    requires AreCommands(cs)
    decreases |cs|
  {
    if cs == [] then [] else Print(cs[0].0, cs[0].1) + PrintAll(cs[1..])
  }

  // ---- What the commands mean ----

  datatype Outcome = GoOn | Stop(reply: Reply)

  /** The effect of one command, and whether it ends the line. Bare ATE and ATQ switch off, bare
      ATV switches on. */
  function Effect(m: Session, c: Command, now: int): (Session, Outcome)
  {
    match c
    case Echo(f) => (m.(echo := f == On), GoOn)
    case Quiet(f) => (m.(quiet := f == On), GoOn)
    case Verbose(f) => (m.(verbose := f != Off), GoOn)
    case Hook(_) =>
      (m.(plus := 0, port := AtCommanded(m.port, Ath, now)),
       if !m.port.at.ringing && m.port.mode == Conn && m.port.sock != NULL then Stop(NoCarrier) else GoOn)
    case SetRegister(reg, v) => (Set(m, ValueOf(reg), ValueOf(v)), GoOn)
    case SelectRegister(_) => (m, GoOn)
    case Amp(sub, n) => (if sub == 0x44 || sub == 0x64 then DtrMode(m, ValueOf(n)) else m, GoOn)
    case Slash(_, _, _) => (m, GoOn)
    case Minor(_, _) => (m, GoOn)
    case Other(_) => (m, GoOn)
    case Blank => (m, GoOn)
    case Answer => (m.(port := AtCommanded(m.port, Ata, now)), Stop(if m.port.mode == Conn then Silent else NoCarrier))
    case Online(_) =>
      (m.(plus := 0, port := AtCommanded(m.port, Ato, now)), Stop(if m.port.mode == Conn then Silent else NoCarrier))
    case Reset(_) =>
      (m.(echo := true, quiet := false, verbose := true, plus := 0, port := AtCommanded(m.port, Atz, now)), Stop(Ok))
    case Query(reg) => (m, Stop(Register(Get(m, ValueOf(reg)))))
    case Dial(_) => (m, Stop(Ok))
    case Identify(_) => (m, Stop(Ident))
  }

  /** The commands in order, up to the first that ends the line. */
  function Perform(m: Session, cs: seq<(Command, bool)>, now: int): (Session, Reply)
    decreases |cs|
  {
    if cs == [] then (m, Ok)
    else
      var (m', o) := Effect(m, cs[0].0, now);
      if o.Stop? then (m', o.reply) else Perform(m', cs[1..], now)
  }

  // ---- Reading undoes printing ----

  predicate Separate(rest: seq<byte>)
  {
    rest == [] || Starts(rest[0])
  }

  predicate EndsNumber(rest: seq<byte>)
  {
    rest == [] || !IsDigit(rest[0])
  }

  lemma {:induction false} SkipAll(digits: seq<byte>, rest: seq<byte>)
    requires AllDigits(digits) && EndsNumber(rest)
    ensures SkipDigits(digits + rest) == rest
    decreases |digits|
  {
    if digits == [] {
      assert digits + rest == rest;
    } else {
      assert (digits + rest)[1..] == digits[1..] + rest;
      SkipAll(digits[1..], rest);
    }
  }

  lemma {:induction false} ReadDigits(digits: seq<byte>, v: int, rest: seq<byte>)
    requires AllDigits(digits) && EndsNumber(rest)
    ensures ReadNumber(digits + rest, v) == (Accumulate(digits, v), rest)
    decreases |digits|
  {
    hide Shifted;
    if digits == [] {
      assert digits + rest == rest;
    } else {
      assert (digits + rest)[1..] == digits[1..] + rest;
      ReadDigits(digits[1..], Shifted(v, digits[0]), rest);
    }
  }

  lemma {:induction false} AccumulateMore(digits: seq<byte>, d: byte, v: int)
    ensures Accumulate(digits + [d], v) == Shifted(Accumulate(digits, v), d)
    decreases |digits|
  {
    hide Shifted;
    if digits == [] {
      assert digits + [d] == [d] && [d][1..] == [];
    } else {
      assert (digits + [d])[1..] == digits[1..] + [d];
      AccumulateMore(digits[1..], d, Shifted(v, digits[0]));
    }
  }

  lemma ShiftedExact(v: nat, d: nat)
    requires d < 10 && v * 10 + d < 32768
    ensures Shifted(v, 0x30 + d) == v * 10 + d
  {
  }

  /** A number in decimal. */
  function Decimal(n: nat): (s: seq<byte>)
    ensures s != [] && AllDigits(s)
    decreases n
  {
    if n < 10 then [0x30 + n] else Decimal(n / 10) + [0x30 + n % 10]
  }

  /** A number that fits a 16-bit int is read as what it is. */
  lemma {:induction false} DecimalValue(n: nat)
    requires n < 32768
    ensures ValueOf(Decimal(n)) == n
    decreases n
  {
    hide Shifted;
    if n < 10 {
      AccumulateMore([], 0x30 + n, 0);
      assert [] + [0x30 + n] == Decimal(n);
      ShiftedExact(0, n);
    } else {
      DecimalValue(n / 10);
      AccumulateMore(Decimal(n / 10), 0x30 + n % 10, 0);
      ShiftedExact(n / 10, n % 10);
    }
  }

  lemma LetterBack(l: byte, lower: bool)
    requires 0x41 <= l <= 0x5A
    ensures Upper(Letter(l, lower)) == l && Starts(Letter(l, lower)) && !Special(Letter(l, lower))
  {
  }

  lemma FlagBack(f: Switch, rest: seq<byte>, def: bool)
    requires Separate(rest)
    ensures Flag(SwitchText(f) + rest, def) == (if f == Bare then def else f == On, rest)
  {
    if f == Bare {
      assert SwitchText(f) + rest == rest;
    } else {
      assert (SwitchText(f) + rest)[1..] == rest;
    }
  }

  /** What the loop makes of one printed command. */
  predicate Reads(m: Session, c: Command, lower: bool, rest: seq<byte>, now: int)
    requires IsCommand(c)
  {
    var (m', o) := Effect(m, c, now);
    Exec(m, Print(c, lower) + rest, now) == if o.Stop? then (m', o.reply) else Exec(m', rest, now)
  }

  lemma Tail(c: Command, lower: bool, rest: seq<byte>)
    requires IsCommand(c)
    ensures var s := Print(c, lower) + rest;
      s != [] && s[0] == Front(c, lower) && s[1..] == Rest(c) + rest
  {
    hide Front, Rest;
  }

  lemma ReadsFlag(m: Session, c: Command, lower: bool, rest: seq<byte>, now: int)
    requires (c.Echo? || c.Quiet? || c.Verbose?) && Separate(rest)
    ensures Reads(m, c, lower, rest, now)
  {
    Tail(c, lower, rest);
    LetterBack(if c.Echo? then 0x45 else if c.Quiet? then 0x51 else 0x56, lower);
    FlagBack(c.f, rest, c.Verbose?);
    hide Upper, Letter, Flag, SwitchText, Print, Starts, Separate;
  }

  lemma ReadsSet(m: Session, c: Command, lower: bool, rest: seq<byte>, now: int)
    requires c.SetRegister? && IsCommand(c) && Separate(rest)
    ensures Reads(m, c, lower, rest, now)
  {
    Tail(c, lower, rest);
    LetterBack(0x53, lower);
    var tail := [0x3D] + (c.v + rest);
    assert tail[1..] == c.v + rest;
    assert Rest(c) + rest == c.reg + tail;
    ReadDigits(c.reg, 0, tail);
    ReadDigits(c.v, 0, rest);
    hide Upper, Letter, ReadNumber, Accumulate, Set, Print, Starts, AllDigits;
  }

  lemma ReadsQuery(m: Session, c: Command, lower: bool, rest: seq<byte>, now: int)
    requires (c.Query? || c.SelectRegister?) && IsCommand(c) && Separate(rest)
    ensures Reads(m, c, lower, rest, now)
  {
    Tail(c, lower, rest);
    LetterBack(0x53, lower);
    var tail := if c.Query? then [0x3F] + rest else rest;
    assert Rest(c) + rest == c.reg + tail;
    ReadDigits(c.reg, 0, tail);
    hide Upper, Letter, ReadNumber, Accumulate, Get, Print, AllDigits;
  }

  /** The loop at one of the prefix signs. */
  lemma ExecPrefix(m: Session, s: seq<byte>, now: int)
    requires |s| >= 2 && Special(s[0]) && s[0] != 0x20
    ensures s[0] == 0x26 ==>
      Exec(m, s, now) == Exec(if s[1] == 0x44 || s[1] == 0x64 then DtrMode(m, ReadNumber(s[2..], 0).0) else m, ReadNumber(s[2..], 0).1, now)
    ensures s[0] != 0x26 ==> Exec(m, s, now) == Exec(m, SkipDigits(s[2..]), now)
  {
    hide ReadNumber, SkipDigits, DtrMode, Upper, Flag, Set, Get, AtCommanded;
    assert s[1..][1..] == s[2..];
  }

  lemma PrefixText(c: Command, lower: bool, rest: seq<byte>)
    requires (c.Amp? || c.Slash?) && IsCommand(c)
    ensures var s := Print(c, lower) + rest;
      |s| >= 2 && s[0] == Front(c, lower) && s[1] == c.sub && s[2..] == c.n + rest
  {
    var s := Print(c, lower) + rest;
    Tail(c, lower, rest);
    assert Rest(c) == [c.sub] + c.n;
    hide Front, Rest, Print, IsCommand;
    assert s[1..] == [c.sub] + (c.n + rest);
    assert s[1] == s[1..][0] && s[2..] == s[1..][1..];
  }

  lemma ReadsPrefix(m: Session, c: Command, lower: bool, rest: seq<byte>, now: int)
    requires (c.Amp? || c.Slash?) && IsCommand(c) && Separate(rest)
    ensures Reads(m, c, lower, rest, now)
  {
    var s := Print(c, lower) + rest;
    PrefixText(c, lower, rest);
    ReadDigits(c.n, 0, rest);
    SkipAll(c.n, rest);
    hide Exec, ReadNumber, SkipDigits, Accumulate, Print, AllDigits, DtrMode;
    ExecPrefix(m, s, now);
  }

  lemma ReadsPassed(m: Session, c: Command, lower: bool, rest: seq<byte>, now: int)
    requires (c.Minor? || c.Other? || c.Blank?) && IsCommand(c) && Separate(rest)
    ensures Reads(m, c, lower, rest, now)
  {
    Tail(c, lower, rest);
    if c.Minor? {
      LetterBack(c.letter, lower);
      SkipAll(c.n, rest);
    } else {
      assert Rest(c) + rest == rest;
    }
    hide Upper, Letter, SkipDigits, Print, AllDigits;
  }

  lemma HookBack(d: seq<byte>, rest: seq<byte>)
    requires AllDigits(d) && |d| <= 1 && Separate(rest)
    ensures SkipOne(d + rest) == rest
  {
    if d == [] {
      assert d + rest == rest;
    } else {
      assert (d + rest)[1..] == rest;
    }
  }

  lemma ReadsHook(m: Session, c: Command, lower: bool, rest: seq<byte>, now: int)
    requires c.Hook? && IsCommand(c) && Separate(rest)
    ensures Reads(m, c, lower, rest, now)
  {
    Tail(c, lower, rest);
    LetterBack(0x48, lower);
    HookBack(c.d, rest);
    hide Upper, Letter, AtCommanded, Print, SkipOne, AllDigits, Separate;
  }

  lemma ReadsLast(m: Session, c: Command, lower: bool, rest: seq<byte>, now: int)
    requires (c.Answer? || c.Online? || c.Reset? || c.Dial? || c.Identify?) && IsCommand(c)
    ensures Reads(m, c, lower, rest, now)
  {
    Tail(c, lower, rest);
    LetterBack(if c.Answer? then 0x41 else if c.Online? then 0x4F else if c.Reset? then 0x5A else if c.Dial? then 0x44 else 0x49, lower);
    hide Upper, Letter, AtCommanded, Print, AllDigits;
  }

  lemma ReadsCommand(m: Session, c: Command, lower: bool, rest: seq<byte>, now: int)
    requires IsCommand(c) && Separate(rest)
    ensures Reads(m, c, lower, rest, now)
  {
    hide Reads, IsCommand, Separate;
    match c
    case Echo(_) => ReadsFlag(m, c, lower, rest, now);
    case Quiet(_) => ReadsFlag(m, c, lower, rest, now);
    case Verbose(_) => ReadsFlag(m, c, lower, rest, now);
    case SetRegister(_, _) => ReadsSet(m, c, lower, rest, now);
    case SelectRegister(_) => ReadsQuery(m, c, lower, rest, now);
    case Query(_) => ReadsQuery(m, c, lower, rest, now);
    case Amp(_, _) => ReadsPrefix(m, c, lower, rest, now);
    case Slash(_, _, _) => ReadsPrefix(m, c, lower, rest, now);
    case Minor(_, _) => ReadsPassed(m, c, lower, rest, now);
    case Other(_) => ReadsPassed(m, c, lower, rest, now);
    case Blank => ReadsPassed(m, c, lower, rest, now);
    case Hook(_) => ReadsHook(m, c, lower, rest, now);
    case Answer => ReadsLast(m, c, lower, rest, now);
    case Online(_) => ReadsLast(m, c, lower, rest, now);
    case Reset(_) => ReadsLast(m, c, lower, rest, now);
    case Dial(_) => ReadsLast(m, c, lower, rest, now);
    case Identify(_) => ReadsLast(m, c, lower, rest, now);
  }

  lemma PrintAllStarts(cs: seq<(Command, bool)>)
    requires AreCommands(cs)
    ensures Separate(PrintAll(cs))
  {
    if cs != [] {
      assert IsCommand(cs[0].0);
    }
  }

  lemma {:induction false} ExecAll(m: Session, cs: seq<(Command, bool)>, now: int)
    requires AreCommands(cs)
    ensures Exec(m, PrintAll(cs), now) == Perform(m, cs, now)
    decreases |cs|
  {
    hide Print, Effect, Exec, Separate;
    if cs == [] {
      ExecNothing(m, now);
    } else {
      PrintAllStarts(cs[1..]);
      ReadsCommand(m, cs[0].0, cs[0].1, PrintAll(cs[1..]), now);
      ExecAll(Effect(m, cs[0].0, now).0, cs[1..], now);
    }
  }

  lemma ExecNothing(m: Session, now: int)
    ensures Exec(m, [], now) == (m, Ok)
  {
  }

  lemma {:induction false} BlanksSkipped(blanks: seq<byte>, s: seq<byte>)
    requires forall i :: 0 <= i < |blanks| ==> blanks[i] == 0x20 || blanks[i] == 0x09
    requires s != [] ==> s[0] != 0x20 && s[0] != 0x09
    ensures SkipBlanks(blanks + s) == s
    decreases |blanks|
  {
    if blanks == [] {
      assert blanks + s == s;
    } else {
      assert (blanks + s)[1..] == blanks[1..] + s;
      BlanksSkipped(blanks[1..], s);
    }
  }

  /** A command line does what its commands say, in order, up to the first that ends the line:
      for any commands with or without numbers, letters in either case and blanks in front. */
  lemma LineMeansCommands(m: Session, blanks: seq<byte>, a: byte, t: byte, cs: seq<(Command, bool)>, now: int)
    requires forall i :: 0 <= i < |blanks| ==> blanks[i] == 0x20 || blanks[i] == 0x09
    requires Attention(a, t) && AreCommands(cs)
    ensures Execute(m, blanks + ([a, t] + PrintAll(cs)), now) == Perform(m, cs, now)
  {
    hide Exec, PrintAll, Perform, AreCommands;
    var s := [a, t] + PrintAll(cs);
    BlanksSkipped(blanks, s);
    assert s[2..] == PrintAll(cs);
    ExecAll(m, cs, now);
  }

  // ---- Result codes and typing ----

  const CR: byte := 0x0D
  const LF: byte := 0x0A
  const PLUS: byte := 0x2B

  /** A digit of a register query; division rounds towards zero. */
  function QueryDigit(v: int, place: int): byte
    requires place > 0
  {
    if v >= 0 then 0x30 + v / place % 10 else 0x30 - (-v) / place % 10
  }

  function Code(r: Reply, verbose: bool): seq<byte>
  {
    match r
    case Ok => if verbose then [0x4F, 0x4B] else [0x30]
    case Error => if verbose then [0x45, 0x52, 0x52, 0x4F, 0x52] else [0x34]
    case NoCarrier => if verbose then [0x4E, 0x4F, 0x20, 0x43, 0x41, 0x52, 0x52, 0x49, 0x45, 0x52] else [0x33]
    case Register(v) => [QueryDigit(v, 100), QueryDigit(v, 10), QueryDigit(v, 1)]
    case Ident => [0x56, 0x4D, 0x4F, 0x44, 0x45, 0x4D, 0x20, 0x31, 0x2E, 0x30]
    case Silent => []
  }

  /** at_respond, with the settings the line has left behind. */
  function Respond(m: Session, r: Reply): seq<byte>
  {
    if m.quiet || r == Silent then []
    else if m.verbose then [CR, LF] + Code(r, true) + [CR, LF]
    else Code(r, false) + [CR]
  }

  /** The interpreter with the line typed so far and the tick of the last data byte. */
  datatype Terminal = Terminal(m: Session, line: seq<byte>, lastTx: int)

  /** Bytes go to the caller. */
  predicate DataMode(m: Session)
  {
    m.port.mode == Conn && m.port.sock != NULL && !m.port.at.ringing && !m.port.at.cmdMode
  }

  /** What one byte does: the new state, whether it was consumed, and what the application
      gets to read. */
  datatype Typed = Typed(t: Terminal, consumed: bool, out: seq<byte>)

  const MAX_LINE := 127

  function TypeData(t: Terminal, b: byte, now: int): Typed
  {
    if b != PLUS then Typed(t.(m := t.m.(plus := 0), lastTx := now), false, [])
    else if t.m.plus == 0 && Elapsed(now, t.lastTx) < 9 then Typed(t.(lastTx := now), false, [])
    else if t.m.plus + 1 >= 3 then
      var m := t.m.(plus := 0, port := t.m.port.(at := t.m.port.at.(cmdMode := true)));
      Typed(t.(m := m), true, Respond(m, Ok))
    else Typed(t.(m := t.m.(plus := t.m.plus + 1)), true, [])
  }

  function TypeCommand(t: Terminal, b: byte, now: int): Typed
  {
    var out := if t.m.echo then [b] else [];
    if b == CR then
      if t.line == [] then Typed(t, true, out)
      else
        var (m, r) := Execute(t.m, t.line, now);
        Typed(t.(m := m, line := []), true, out + Respond(m, r))
    else if b == 0x08 || b == 0x7F then
      Typed(if t.line == [] then t else t.(line := t.line[..|t.line| - 1]), true, out)
    else if b == LF || |t.line| >= MAX_LINE then Typed(t, true, out)
    else Typed(t.(line := t.line + [b]), true, out)
  }

  /** at_input. */
  function Type(t: Terminal, b: byte, now: int): Typed
  {
    if DataMode(t.m) then TypeData(t, b, now) else TypeCommand(t, b, now)
  }

  /** A byte and the tick at which it is typed. */
  datatype Key = Key(b: byte, tick: int)

  /** The state after some keys, and the bytes passed on to the caller. */
  function TypeAll(t: Terminal, keys: seq<Key>): (Terminal, seq<byte>)
    decreases |keys|
  {
    if keys == [] then (t, [])
    else
      var r := Type(t, keys[0].b, keys[0].tick);
      var (last, passed) := TypeAll(r.t, keys[1..]);
      (last, (if r.consumed then [] else [keys[0].b]) + passed)
  }

  function Bytes(keys: seq<Key>): (s: seq<byte>)
    ensures |s| == |keys|
  {
    seq(|keys|, i requires 0 <= i < |keys| => keys[i].b)
  }

  predicate IsText(b: byte)
  {
    b != CR && b != LF && b != 0x08 && b != 0x7F
  }

  lemma {:induction false} TypeText(t: Terminal, keys: seq<Key>, tail: seq<Key>)
    requires !DataMode(t.m) && (forall i :: 0 <= i < |keys| ==> IsText(keys[i].b)) && |t.line| + |keys| <= MAX_LINE
    ensures TypeAll(t, keys + tail) == TypeAll(t.(line := t.line + Bytes(keys)), tail)
    decreases |keys|
  {
    hide Execute, Respond, DataMode;
    if keys == [] {
      assert keys + tail == tail && t.line + Bytes(keys) == t.line;
    } else {
      assert IsText(keys[0].b);
      assert (keys + tail)[1..] == keys[1..] + tail;
      var u := t.(line := t.line + [keys[0].b]);
      TypeText(u, keys[1..], tail);
      assert u.line + Bytes(keys[1..]) == t.line + Bytes(keys);
      var (last, passed) := TypeAll(u, keys[1..] + tail);
      assert [] + passed == passed;
    }
  }

  /** A line of up to 127 characters that is typed, at whatever ticks, and ended with CR is
      executed as it is when the CR comes, and nothing of it reaches the caller. */
  lemma TypedLine(t: Terminal, keys: seq<Key>, now: int)
    requires !DataMode(t.m) && t.line == [] && 0 < |keys| <= 127
    requires forall i :: 0 <= i < |keys| ==> keys[i].b !in {0x0D, 0x0A, 0x08, 0x7F}
    ensures TypeAll(t, keys + [Key(0x0D, now)]) == (t.(m := Execute(t.m, Bytes(keys), now).0), [])
  {
    assert forall i :: 0 <= i < |keys| ==> IsText(keys[i].b);
    hide Execute, Type, TypeAll, DataMode;
    TypeText(t, keys, [Key(CR, now)]);
    assert t.line + Bytes(keys) == Bytes(keys);
    TypeOne(t.(line := Bytes(keys)), Key(CR, now));
    TypeReturn(t.(line := Bytes(keys)), now);
  }

  /** A further character is dropped exactly when there are 127 already. */
  lemma LineFull(t: Terminal, b: byte, now: int)
    requires !DataMode(t.m) && b !in {0x0D, 0x0A, 0x08, 0x7F}
    ensures Type(t, b, now).t == if |t.line| >= 127 then t else t.(line := t.line + [b])
  {
    hide Execute, Respond, DataMode;
  }

  lemma TypeOne(t: Terminal, k: Key)
    ensures TypeAll(t, [k]) == (Type(t, k.b, k.tick).t, if Type(t, k.b, k.tick).consumed then [] else [k.b])
  {
    hide Type;
    assert [k][1..] == [];
    var u := Type(t, k.b, k.tick).t;
    assert TypeAll(u, []) == (u, []);
    var none: seq<byte> := [];
    assert none + none == none && [k.b] + none == [k.b];
  }

  lemma TypeReturn(t: Terminal, now: int)
    requires !DataMode(t.m) && t.line != []
    ensures Type(t, CR, now).consumed
    ensures Type(t, CR, now).t == t.(m := Execute(t.m, t.line, now).0, line := [])
  {
    hide Execute, Respond, DataMode;
  }

  /** A byte is passed on to the caller exactly when a connected call has been answered, the port
      is not in command mode, and the byte is not a plus that continues an escape or comes at
      least 9 ticks after the last data byte. */
  lemma KeptExact(t: Terminal, b: byte, now: int)
    ensures var p := t.m.port;
      !Type(t, b, now).consumed <==>
        p.mode == Conn && p.sock != NULL && !p.at.ringing && !p.at.cmdMode &&
        !(b == 0x2B && (t.m.plus != 0 || Elapsed(now, t.lastTx) >= 9))
  {
    hide Elapsed, Respond;
  }

  /** Three of them in a row, the first after the guard time, enter command mode and none is
      passed on, at whatever ticks the others come. */
  lemma Escape(t: Terminal, t1: int, t2: int, t3: int)
    requires DataMode(t.m) && t.m.plus == 0 && Elapsed(t1, t.lastTx) >= 9
    ensures var a := Type(t, PLUS, t1);
      var b := Type(a.t, PLUS, t2);
      var c := Type(b.t, PLUS, t3);
      a.consumed && b.consumed && c.consumed && DataMode(b.t.m) && c.t.m.port.at.cmdMode && !DataMode(c.t.m)
  {
    hide Elapsed, Respond;
  }

  // ---- The interpreter ----

  /** The AtState of a port and the port itself. */
  class Interpreter {
    var m: Session
    /** The line typed so far is buf[..pos]. */
    const buf: array<byte>
    var pos: int
    var lastTx: int

    ghost predicate Valid()
      reads this
    {
      buf.Length == MAX_LINE + 1 && 0 <= pos <= MAX_LINE
    }

    ghost function Abs(): Terminal
      reads this, buf
      requires Valid()
    {
      Terminal(m, buf[..pos], lastTx)
    }

    constructor (start: Session)
      ensures Valid() && fresh(buf) && Abs() == Terminal(start, [], 0)
    {
      m := start;
      buf := new byte[MAX_LINE + 1](_ => 0);
      pos, lastTx := 0, 0;
    }

    /** A number in the line from index i on, and the index behind it. */
    method ScanNumber(i: int) returns (v: int, j: int)
      requires Valid() && 0 <= i <= pos
      ensures i <= j <= pos && (v, buf[j..pos]) == ReadNumber(buf[i..pos], 0)
    {
      hide Shifted;
      v, j := 0, i;
      while j < pos && IsDigit(buf[j])
        invariant i <= j <= pos && ReadNumber(buf[i..pos], 0) == ReadNumber(buf[j..pos], v)
      {
        assert buf[j..pos][1..] == buf[j + 1..pos];
        v := Shifted(v, buf[j]);
        j := j + 1;
      }
    }

    method ScanDigits(i: int) returns (j: int)
      requires Valid() && 0 <= i <= pos
      ensures i <= j <= pos && buf[j..pos] == SkipDigits(buf[i..pos])
    {
      j := i;
      while j < pos && IsDigit(buf[j])
        invariant i <= j <= pos && SkipDigits(buf[i..pos]) == SkipDigits(buf[j..pos])
      {
        assert buf[j..pos][1..] == buf[j + 1..pos];
        j := j + 1;
      }
    }

    /** A setting letter at i with its optional 0 or 1. */
    method ScanFlag(i: int, def: bool) returns (on: bool, j: int)
      requires Valid() && 0 <= i < pos
      ensures i < j <= pos && (on, buf[j..pos]) == Flag(buf[i + 1..pos], def)
    {
      j := i + 1;
      on := def;
      if j < pos && buf[j] == 0x30 {
        on, j := false, j + 1;
      } else if j < pos && buf[j] == 0x31 {
        on, j := true, j + 1;
      }
    }

    /** ATS: a register is set, or queried, which ends the line. */
    method ExecuteRegister(i: int, now: int) returns (j: int, done: bool, reply: Reply)
      requires Valid() && 0 <= i < pos && Upper(buf[i]) == 0x53 && !Special(buf[i])
      modifies `m
      ensures i < j <= pos && Valid()
      ensures old(Exec(m, buf[i..pos], now)) == if done then (m, reply) else Exec(m, buf[j..pos], now)
    {
      hide ReadNumber, SkipDigits, AtCommanded, Flag, Set, Get;
      ghost var s := buf[i..pos];
      assert s[0] == buf[i] && s[1..] == buf[i + 1..pos];
      done, reply := false, Ok;
      var reg;
      reg, j := ScanNumber(i + 1);
      ghost var r := buf[j..pos];
      if j < pos && buf[j] == 0x3D {
        assert r[1..] == buf[j + 1..pos];
        var v;
        v, j := ScanNumber(j + 1);
        m := Set(m, reg, v);
      } else if j < pos && buf[j] == 0x3F {
        done, reply := true, Register(Get(m, reg));
      }
    }

    /** The commands that act on the call: ATZ, ATH, ATO and ATA. */
    method ExecuteCall(i: int, now: int) returns (j: int, done: bool, reply: Reply)
      requires Valid() && 0 <= i < pos && OnCall(Upper(buf[i])) && !Special(buf[i])
      modifies `m
      ensures i < j <= pos && Valid()
      ensures old(Exec(m, buf[i..pos], now)) == if done then (m, reply) else Exec(m, buf[j..pos], now)
    {
      hide AtCommanded, Flag, Set, Get, ReadNumber, SkipDigits;
      ghost var s := buf[i..pos];
      assert s[0] == buf[i] && s[1..] == buf[i + 1..pos];
      j, done, reply := i + 1, true, Ok;
      var u := Upper(buf[i]);
      var p := m.port;
      if u == 0x5A {
        m := m.(echo := true, quiet := false, verbose := true, plus := 0, port := AtCommanded(p, Atz, now));
      } else if u == 0x48 {
        m := m.(plus := 0, port := AtCommanded(p, Ath, now));
        if !p.at.ringing && p.mode == Conn && p.sock != NULL {
          reply := NoCarrier;
        } else {
          done := false;
          if j < pos && IsDigit(buf[j]) {
            assert buf[j..pos][1..] == buf[j + 1..pos];
            j := j + 1;
          }
        }
      } else {
        m := if u == 0x4F then m.(plus := 0, port := AtCommanded(p, Ato, now)) else m.(port := AtCommanded(p, Ata, now));
        reply := if p.mode == Conn then Silent else NoCarrier;
      }
    }

    /** AT& and the two prefixes whose command is skipped. */
    method ExecutePrefix(i: int, now: int) returns (j: int)
      requires Valid() && 0 <= i < pos && Special(buf[i]) && buf[i] != 0x20
      modifies `m
      ensures i < j <= pos && Valid()
      ensures old(Exec(m, buf[i..pos], now)) == Exec(m, buf[j..pos], now)
    {
      hide AtCommanded, Flag, Set, Get, ReadNumber, SkipDigits, DtrMode;
      ghost var s := buf[i..pos];
      assert s[0] == buf[i] && s[1..] == buf[i + 1..pos];
      j := i + 1;
      if j < pos {
        assert s[1..][1..] == buf[j + 1..pos];
        var sub := buf[j];
        if buf[i] == 0x26 {
          var v;
          v, j := ScanNumber(j + 1);
          if sub == 0x44 || sub == 0x64 {
            m := DtrMode(m, v);
          }
        } else {
          j := ScanDigits(j + 1);
        }
      }
    }

    /** One turn of the command loop. */
    method ExecuteOne(i: int, now: int) returns (j: int, done: bool, reply: Reply)
      requires Valid() && 0 <= i < pos
      modifies `m
      ensures i < j <= pos && Valid()
      ensures old(Exec(m, buf[i..pos], now)) == if done then (m, reply) else Exec(m, buf[j..pos], now)
    {
      hide AtCommanded, Flag, Set, Get, ReadNumber, SkipDigits, DtrMode;
      ghost var s := buf[i..pos];
      assert s[0] == buf[i] && s[1..] == buf[i + 1..pos];
      j, done, reply := i + 1, false, Ok;
      var c := buf[i];
      var u := Upper(c);
      if c == 0x20 {
      } else if Special(c) {
        j := ExecutePrefix(i, now);
      } else if OnCall(u) {
        j, done, reply := ExecuteCall(i, now);
      } else if u == 0x45 {
        var on;
        on, j := ScanFlag(i, false);
        m := m.(echo := on);
      } else if u == 0x51 {
        var on;
        on, j := ScanFlag(i, false);
        m := m.(quiet := on);
      } else if u == 0x56 {
        var on;
        on, j := ScanFlag(i, true);
        m := m.(verbose := on);
      } else if u == 0x53 {
        j, done, reply := ExecuteRegister(i, now);
      } else if u == 0x44 {
        done := true;
      } else if u == 0x49 {
        done, reply := true, Ident;
      } else if IsMinor(u) {
        j := ScanDigits(i + 1);
      }
    }

    /** at_execute. */
    method ExecuteLine(now: int) returns (reply: Reply)
      requires Valid()
      modifies `m
      ensures Valid() && (m, reply) == old(Execute(m, buf[..pos], now))
    {
      hide Exec;
      ghost var line := buf[..pos];
      var i := 0;
      assert buf[0..pos] == line;
      while i < pos && (buf[i] == 0x20 || buf[i] == 0x09)
        invariant 0 <= i <= pos && SkipBlanks(line) == SkipBlanks(buf[i..pos])
      {
        assert buf[i..pos][1..] == buf[i + 1..pos];
        i := i + 1;
      }
      if i + 1 >= pos || !Attention(buf[i], buf[i + 1]) {
        return Error;
      }
      assert buf[i..pos][2..] == buf[i + 2..pos];
      i := i + 2;
      ghost var m0, s0 := m, buf[i..pos];
      assert Execute(m0, line, now) == Exec(m0, s0, now);
      while i < pos
        invariant 0 <= i <= pos && buf[..pos] == line
        invariant Exec(m0, s0, now) == Exec(m, buf[i..pos], now)
      {
        var done;
        i, done, reply := ExecuteOne(i, now);
        if done {
          return;
        }
      }
      assert buf[i..pos] == [];
      ExecNothing(m, now);
      return Ok;
    }

    /** at_input: whether the byte was consumed; echo and result code go to the receive ring, as
        far as there is room. */
    method Input(b: byte, now: int, rx: RingBuf) returns (consumed: bool)
      requires Valid() && rx.Valid() && rx.data != buf
      modifies this, buf, rx, rx.data
      ensures Valid() && rx.Valid()
      ensures var r := Type(old(Abs()), b, now);
        Abs() == r.t && consumed == r.consumed && rx.Contents() == Joined(old(rx.Contents()), r.out, rx.data.Length)
    {
      hide Execute, Respond, Elapsed, Unwrap, Slot, Joined;
      ghost var line, q := buf[..pos], rx.Contents();
      JoinedNothing(q, rx.data.Length);
      if DataMode(m) {
        if b == PLUS {
          if m.plus == 0 && Elapsed(now, lastTx) < 9 {
            lastTx := now;
            return false;
          }
          m := m.(plus := m.plus + 1);
          if m.plus >= 3 {
            m := m.(plus := 0, port := m.port.(at := m.port.at.(cmdMode := true)));
            rx.PutAll(Respond(m, Ok));
          }
          return true;
        }
        m := m.(plus := 0);
        lastTx := now;
        return false;
      }
      ghost var echo := if m.echo then [b] else [];
      if m.echo {
        rx.PutAll([b]);
      }
      consumed := true;
      if b == CR {
        if pos > 0 {
          var reply := ExecuteLine(now);
          JoinedConcat(q, echo, Respond(m, reply), rx.data.Length);
          rx.PutAll(Respond(m, reply));
        }
        pos := 0;
        assert buf[..pos] == [];
      } else if b == 0x08 || b == 0x7F {
        if pos > 0 {
          pos := pos - 1;
        }
      } else if b != LF && pos < MAX_LINE {
        buf[pos] := b;
        pos := pos + 1;
        assert buf[..pos] == line + [b];
      }
    }
  }

  lemma JoinedNothing(q: seq<byte>, size: nat)
    requires |q| <= size
    ensures Joined(q, [], size) == q
  {
  }
}
